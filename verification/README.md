# mmcli verification model

A Dafny model of the algorithmic core of ModemManager's command-line client `mmcli` and of one class of its
library `libmm-glib`, with proofs about it. `dafny verify dfyconfig.toml` checks the whole project.

What is modelled:

* **The output engine** (`cli/mmcli-output.c`). Commands prepend items to one list; a dump sorts the list and
  prints it. `Output.Engine` has the list and the printed text as fields. `JsonOutput` follows the streaming JSON
  printer, which remembers only the path of the previous key and its depth. `HumanOutput` and `Wrapping` follow the
  two-pass printer for people, and `KeyValueOutput` the key-value printer. Each printer is proved against an
  independent form: a recursive printer of the nested object (`JsonTree`, `Json`), rows of a table, a list of
  key-value lines. Readers then give the data back: a parser for RFC 8259 (`Json`, `JsonString`), one that knows only
  quotes and braces (`JsonBraces`), one for columns (`HumanReading`) and one for lines (`KeyValueReading`).
  `JsonDocument`, `HumanMeaning` and `KeyValueMeaning` say what each dump is in terms of the collected items alone.
* **The object searches** (`cli/mmcli-common.c`). Bearers, SIMs, and the three alike searches for SMS, calls and
  cell broadcast messages exist as a loop and as a chain of callbacks. The chains are classes whose methods are the
  callbacks; both are proved against one specification, the verdict of the first modem that has one, and then
  compared with each other. `SimMeaning` and the last parts of `BearerSearch` and `ListSearch` say what is found without
  that specification. `ObjectLookup` and `PrefixNewlines` model the reading of the user's string and the
  prefixing of lines.
* **The bearer IP configuration** (`libmm-glib/mm-bearer-ip-config.c`): a mutable object written to a dictionary and
  rebuilt from one.
* **The preferred-network grammar** (`cli/mmcli-sim.c`): a comma grammar with one token of lookahead.

Where the code does not do what one would expect, the model follows the code, and lemmas state what holds instead
and when:

* `json_strescape` leaves byte 0x1f raw (`cli/mmcli-output.c:1451`), so its text is a string of RFC 8259 if and only
  if the value has no 0x1f: `JsonString.EscapeIsRfc`. Its inverse needs no such condition: `JsonString.ScanEscape`.
  A strict reader takes a whole document if and only if no key or text has it: `JsonDocument.DocumentRoundTrip`.
* After a wrap the counted length restarts without the value about to be printed (`cli/mmcli-output.c:1226`), so
  lines may be longer than 60: `Wrapping.LinesBounded` has the bound on the printed lines, and
  `Wrapping.BoundReached` shows that it is the best one.
* The list form of the key-value printer cuts ".length" off its key when there is no item:
  `KeyValueOutput.ListWidthExact`.
* When a matching initial EPS bearer cannot be fetched, the callback chain goes on to the bearer list and the loop
  leaves the process: `BearerSearch.SearchesAgree` (an if and only if) and `BearerSearch.SearchesDiffer`.
* For a SIM in a slot, the chain takes the first object with the path and the loop the last one. The library builds
  one new object for each slot path (`libmm-glib/mm-modem.c:3199-3245`), so they take different objects, of one
  path, exactly when the path is listed twice: `SimSlots.SearchesAgree` (an if and only if) and
  `SimSlots.SearchesDiffer`. Owner and path are always the same for a path a user can name:
  `SimSlots.UserSearchesEndAlike`.
* A string that starts with "/" and lacks the D-Bus prefix makes every command but those for modems write through a
  missing pointer (`cli/mmcli-common.c:182-185`): `ObjectLookup.GetLookupInfo` and `ObjectLookup.PathOfNothing`.
* A scanned network without a code, name or availability makes the JSON output take the length of a missing text:
  `NetworkInfo.BuildNetworkInfo` and `NetworkInfo.UnnamedNetwork`.

Conventions: a `char` is one byte; NULL is `None`; leaving the process with a message, and using a missing
pointer, are outcomes; a remote reply is given data, the same each time it is asked for.

## Model

| member | source | states |
|---|---|---|
| JsonString.JsonStrescape | cli/mmcli-output.c:1435-1476 | the one-pass loop over the buffer computes the escape function that the lemmas below characterise, for every string |
| JsonString.ScanEscape | cli/mmcli-output.c:1435-1476 | escaping is invertible and self-delimiting: a JSON string scanner started on the escaped text, a quote and any rest returns exactly the value and that rest; the strict scanner does too when the value has no NUL and no 0x1f |
| JsonString.ScanRefuses | cli/mmcli-output.c:1451 | a strict JSON string scanner refuses the escaped text of every string that has a NUL or 0x1f, whatever follows |
| JsonString.EscapeIsRfc | cli/mmcli-output.c:1451 | for NUL-free strings the escaped text meets the grammar of RFC 8259 section 7 if and only if the value has no 0x1f |
| JsonString.UnitSeparatorIsRaw | cli/mmcli-output.c:1451 | the one-character string 0x1f: its text is refused by the grammar and by a strict scanner and taken by a lenient one |
| JsonString.EscapeInjective | cli/mmcli-output.c:1435-1476 | different strings have different escaped texts |
| JsonString.EscapeConcat | cli/mmcli-output.c:1435-1476 | escaping distributes over concatenation |
| JsonString.EscapeLength | cli/mmcli-output.c:1435-1476 | the escaped text is at least as long as the value and at most six times as long |
| JsonString.EscapeForms | cli/mmcli-output.c:1447-1473 | which form each character is written in: the two backslash forms, the five short forms, and all characters outside the guard as they are |
| JsonString.LongForms | cli/mmcli-output.c:1468 | the other control characters are written with their code in four lower-case hexadecimal digits |
| Json.ParsePrint | cli/mmcli-output.c:1532-1561 | a parser for RFC 8259 values reads every printed value back, at any nesting, and stops right after it |
| Json.ParseRefuses | cli/mmcli-output.c:1451 | a strict parser refuses the printed text of every value that has such a character in a string or a name, at any nesting |
| JsonStrict.CleanPrint | cli/mmcli-output.c:1435-1476 | a printed value has a NUL or 0x1f among its bytes if and only if one of its strings or names has |
| JsonStrict.ItemsClean | cli/mmcli-output.c:1485-1571 | the tree of some items is free of those characters if and only if every key and every text of an item is, ready-made texts included |
| JsonTree.FlattenBuild | cli/mmcli-output.c:1493-1564 | the nested object of a list of dotted keys loses, adds and moves nothing: flattening it gives the list back, in order, repeated keys included |
| JsonTree.GetFlatten | cli/mmcli-output.c:1493-1564 | in an object without repeated names, looking up the path of a value leads to that value |
| JsonKeys.PrefixOfKeys | cli/mmcli-output.c:1504-1511 | a split key starts with another split key if and only if, as dotted strings, they are equal or the longer one starts with the shorter one and a dot |
| Text.PrefixContiguous | cli/mmcli-output.c:1478-1483 | in strcmp order everything between two strings with a common prefix has that prefix |
| Text.StrLeMeans | cli/mmcli-output.c:1478-1483 | the recursive order is that of bytes: a string that starts the other one, or has the smaller byte where they first differ |
| JsonKeys.DirectoryContiguous | cli/mmcli-output.c:1478-1483 | in sorted lists of keys that do not clash, a directory that occurs later at all is the very next member: keys of one directory are contiguous |
| JsonKeys.UniqueIffNoClash | cli/mmcli-output.c:1478-1527 | for sorted keys, no object at any depth has two members of one name (so each directory is opened once) if and only if no two keys are equal and none is a dot-prefix of another |
| JsonStream.PrintPrepend | cli/mmcli-output.c:1521-1527 | opening all directories of the first entry prints what the recursive printer prints for it in the tree |
| JsonStream.TailPrepend | cli/mmcli-output.c:1506-1523 | closing and opening directories by the common prefix of two neighbouring paths prints exactly what the recursive printer has between their values |
| JsonStream.StreamIsPrint | cli/mmcli-output.c:1493-1568 | the streamed text, closed down to the root, equals the recursive print of the tree built from the same entries, for every order of entries |
| JsonBraces.BracesMatchDirs | cli/mmcli-output.c:1493-1530 | read off the characters alone: after every entry the open objects are the root and exactly the directories of that entry, and the root was never closed, for any order and repeated fields |
| JsonBraces.BracesCloseAll | cli/mmcli-output.c:1566-1568 | the final loop closes every directory but the root, and the last brace closes the root, once; no white space outside strings but the newline |
| JsonOutput.PrintSwitch | cli/mmcli-output.c:1499-1524 | the loop over the common prefix with its conditional closing loop does what the remembered path and depth call for |
| JsonOutput.PrintLeaf | cli/mmcli-output.c:1532-1561 | a single or multiple item prints its name and the recursive print of its value: a missing single value reads "--", a missing array is empty, ready-made objects are copied |
| JsonOutput.ItemShows | cli/mmcli-output.c:1532-1561 | the value printed for an item shows it: a missing single is the string "--", a present one its text, a missing array is empty, a plain array has its texts as strings in order, an object array has its ready-made texts as they are |
| JsonOutput.PrintItem | cli/mmcli-output.c:1493-1564 | one turn of the loop prints the text of one entry and restores the invariant on field, path and depth |
| JsonOutput.PrintDocument | cli/mmcli-output.c:1495-1568 | the whole loop prints the streamed document of its items |
| JsonDocument.DocumentIsPrint | cli/mmcli-output.c:1495-1568 | the document is the printed tree of its entries, whatever their order |
| JsonDocument.DocumentRoundTrip | cli/mmcli-output.c:1485-1571 | the document parses as one object, and flattening it gives the items in list order, each with the parts of its key between dots and a value that shows it ("--" for a missing single, [] for a missing array); a strict RFC 8259 reader takes it if and only if no key and no text has a NUL or 0x1f |
| JsonDocument.StrictExactly | cli/mmcli-output.c:1485-1571 | the same condition read off the bytes of the document |
| JsonDocument.SortedDocument | cli/mmcli-output.c:1478-1571 | the sorted document has its keys in byte order; no object repeats a name if and only if no two keys clash, and then looking up the dot-free parts of any key leads to a value that shows its item |
| JsonDocument.DocumentBraces | cli/mmcli-output.c:1493-1568 | the brace invariant for items: after each one, in any order, the open objects are the root and the directories of its key; the document closes all, and has no white space outside strings but its final newline |
| JsonDocument.ByKeyPreorder | cli/mmcli-output.c:1478-1483 | the comparison is a total preorder, as a sort needs |
| JsonDocument.ClashAnyOrder | cli/mmcli-output.c:1493 | whether keys clash does not depend on the order of collection |
| JsonDocument.CollectedDocument | cli/mmcli-output.c:1485-1571 | from collected items in any order to the reader: the sorted document is one object that shows exactly the collected items under their keys, in byte order of the keys, without repeated names if and only if no collected keys clash, and a strict reader takes it if and only if no collected key or text has a NUL or 0x1f |
| NetworkInfo.BuildNetworkInfo | cli/mmcli-output.c:732-782 | the ready-made text of a scanned network is valid JSON and stands for an object with the code under "operator-code", the long or else the short name under "operator-name", and the two others under "access-technologies" and "availability"; the program fails if and only if the code, both names or the availability is missing |
| NetworkInfo.UnnamedNetwork | cli/mmcli-output.c:766 | a network without a name, on which the program fails |
| StableSort.SortCorrect | cli/mmcli-output.c:1493 | the sort returns an ordered permutation that keeps the order of equal elements, which is g_list_sort's contract |
| StableSort.StableSortUnique | cli/mmcli-output.c:1493 | that contract determines the result, so any stable sort gives the same dump |
| OutputItems.StripParts | cli/mmcli-output.c:487-491 | the loop strips every part in place and touches nothing else |
| OutputItems.StripMeans | cli/mmcli-output.c:490 | stripping takes characters 9, 10, 12, 13 and 32 off both ends of a text, and all of them |
| OutputItems.VerticalTabStays | cli/mmcli-output.c:490 | a vertical tab is not stripped, so its list is stored as it is |
| OutputItems.ListFieldRoundTrip | cli/mmcli-output.c:416-494 | a non-empty list joined by ", " is stored as the same list if and only if its values are trimmed and free of commas and it is not one of the single values "", "unknown", "none" |
| Output.Engine.constructor | cli/mmcli-output.c:344 | an engine starts with no output type, no items and no text |
| OutputItems.KeptMeans | cli/mmcli-output.c:416-457 | exactly a missing value, "unknown" and "none" are dropped, and exactly a missing list and the lists of one of these alone |
| Output.Engine.Set | cli/mmcli-output.c:346-350 | selects the output type and changes nothing else |
| Output.Engine.TakeSingle | cli/mmcli-output.c:422-438 | prepends the value, or a missing one for "unknown" and "none" |
| Output.Engine.TakeMultiple | cli/mmcli-output.c:440-460 | prepends the values with their flags, or missing ones for the single value "unknown" or "none" |
| Output.Engine.TakeListItem | cli/mmcli-output.c:462-478 | prepends a list item |
| Output.Engine.StringList | cli/mmcli-output.c:480-494 | splits at commas, strips each part, prepends the list |
| Output.Engine.DumpJson | cli/mmcli-output.c:1485-1571 | sorts the list in place by key and appends its document |
| Output.Engine.DumpHuman | cli/mmcli-output.c:1120-1238 | sorts the list in place by section and field and appends its table |
| Output.Engine.DumpKeyValue | cli/mmcli-output.c:1288-1380 | sorts the list in place by field and appends its lines |
| Output.Engine.Dump | cli/mmcli-output.c:1605-1628 | prints with the selected printer exactly the text of the sorted old items, or nothing, and empties the list |
| HumanOutput.BySectionPreorder | cli/mmcli-output.c:1109-1118 | the comparison by section, then field, is a total preorder |
| HumanOutput.MeasureNames | cli/mmcli-output.c:1130-1160 | pass one finds exactly the longest section name and the longest field name of the items with a value |
| HumanOutput.PrintLines | cli/mmcli-output.c:1200-1213 | a text value prints its lines, all but the first behind the indentation |
| HumanOutput.PrintRow | cli/mmcli-output.c:1181-1236 | one item prints its section header or blanks, its name and its value column |
| HumanOutput.PrintItems | cli/mmcli-output.c:1130-1238 | both passes print the rows of the visible items with columns as wide as the longest measured names |
| HumanOutput.RowsOfItems | cli/mmcli-output.c:1176-1196 | one row for each visible item in order, with a header exactly where the section changes |
| HumanMeaning.RowsAscend | cli/mmcli-output.c:1109-1118 | of two rows of the sorted items the first has the smaller section, or the same section and no greater field |
| HumanMeaning.HumanDumpMeans | cli/mmcli-output.c:1120-1238 | the whole dump: its text is one part for each item with content, each as often as collected, by section and field, with a rule of dashes and the section name exactly at each change of section, in columns as wide as the longest names of items with a value |
| HumanMeaning.RowTextMeans | cli/mmcli-output.c:1181-1198 | what stands before a value, letter by letter: at most sixty dashes, the section name and blanks, or blanks alone, then blanks and the field name |
| HumanMeaning.WidthsMean | cli/mmcli-output.c:1130-1160 | the columns are as wide as the longest names of items whose value is there, even if empty |
| HumanMeaning.BodyMeans | cli/mmcli-output.c:1200-1236 | the value column: a text with its lines below each other, a list wrapped and otherwise joined by ", ", a multiline list with one value on each line |
| HumanOutput.SectionAnnouncedOnce | cli/mmcli-output.c:1180-1196 | every section with a visible item has its header on exactly one of its rows |
| HumanOutput.HeaderIsFirst | cli/mmcli-output.c:1180-1196 | that row is the first of the section |
| HumanOutput.ColumnsAlign | cli/mmcli-output.c:1181-1210 | the value column starts where continuation lines are indented to, and the name columns lie at fixed places |
| HumanOutput.NamesNotCut | cli/mmcli-output.c:1154-1198 | no section or field name is truncated: every item printed in pass two was measured in pass one |
| HumanReading.SingleReadsBack | cli/mmcli-output.c:1200-1213 | splitting the printed value column and taking the indentation off gives the lines of the value |
| HumanReading.ListReadsBack | cli/mmcli-output.c:1214-1236 | the printed list without its breaks is stored as the same list if and only if its values are trimmed, comma-free and not a lost single value |
| HumanReading.PrintedLinesBounded | cli/mmcli-output.c:1214-1236 | the printed list split at newlines is its lines behind the indentation, with that bound on their lengths |
| Wrapping.PrintValues | cli/mmcli-output.c:1214-1234 | the wrapping loop prints the layout that the lemmas below characterise |
| Wrapping.WrappingLosesNothing | cli/mmcli-output.c:1214-1234 | the layout without its inserted breaks is exactly the values joined by ", ", for all values |
| Wrapping.DeletingBreaks | cli/mmcli-output.c:1214-1234 | a reader of the text alone who deletes the breaks gets the values joined by ", ", for values without newlines |
| Wrapping.BreakExactly | cli/mmcli-output.c:1225 | in a non-multiline list a break comes before a value if and only if the counted length since the last break, without the value right after that break, would pass 60 |
| Wrapping.LayoutIsLines | cli/mmcli-output.c:1214-1234 | the printed text is its lines joined by the break text |
| Wrapping.LinesBounded | cli/mmcli-output.c:1225-1233 | the first printed line has at most 60 characters, each later line at most 60 more than the value after its break with its ", " |
| Wrapping.LineBegins | cli/mmcli-output.c:1225-1233 | every line but the first begins with the value after its break |
| Wrapping.BoundReached | cli/mmcli-output.c:1226 | that bound is reached for a value of any length: a list whose second line is exactly 60 longer than its first value |
| Wrapping.MultilineIsOnePerLine | cli/mmcli-output.c:1225-1233 | a multiline list prints one value on each line, after one break if the first value alone counts more than 60 |
| KeyValueOutput.ExtraDigits | cli/mmcli-output.c:1316-1323 | the divide-by-ten loop counts the decimal digits less one |
| KeyValueOutput.ArrayWidth | cli/mmcli-output.c:1312-1324 | the width computed from the length of an array is the length of its longest printed key |
| KeyValueOutput.MeasureKeys | cli/mmcli-output.c:1297-1328 | pass one finds exactly the length of the longest key that pass two prints |
| KeyValueOutput.KeysNotCut | cli/mmcli-output.c:1347-1377 | with that width the printf precision truncates no key, and only blanks follow it |
| KeyValueOutput.PrintArray | cli/mmcli-output.c:1351-1377 | an array prints its length line and its values with one-based indices, or "--" |
| KeyValueOutput.PrintItems | cli/mmcli-output.c:1297-1379 | both passes print the lines of all items in order, with a key column as wide as the longest key |
| KeyValueOutput.PrintList | cli/mmcli-output.c:1382-1430 | the list form prints its length line and its values with the width computed from their number |
| KeyValueOutput.ListWidthExact | cli/mmcli-output.c:1407-1416 | the width of the list form is the longest key if and only if there is an item; without one the ".length" is cut off |
| KeyValueReading.ReadTextBack | cli/mmcli-output.c:1331-1379 | cutting the printed text at newlines and at the column gives the keys and values back |
| KeyValueReading.KeyValueReadsBack | cli/mmcli-output.c:1288-1380 | the dump is read back as exactly the lines of its items, with whole keys |
| KeyValueMeaning.KeyValueDumpMeans | cli/mmcli-output.c:1288-1380 | the whole dump: one block for each item, each as often as collected, by field; one line with the key and the escaped text or "--", or the length and the values with indices from one on; every line is a key, blanks, " : " and a value, in a column as wide as the longest key; it reads back as these blocks |
| KeyValueMeaning.BlockMeans | cli/mmcli-output.c:1344-1377 | the block of a single item: what is printed for a present, missing, empty or filled value |
| KeyValueMeaning.OrderOfSort | cli/mmcli-output.c:1281-1286 | the sorted items come with their fields ascending |
| KeyValueMeaning.ListDumpMeans | cli/mmcli-output.c:1382-1430 | the list form, letter by letter; for the empty list the bare key and a zero |
| Text.DecimalMeans | cli/mmcli-output.c:1362-1369 | printed numbers have the value of the number and no zero in front |
| ObjectSearch.FindInList | cli/mmcli-common.c:417-433 | the first object of a list with the path, and none exactly when no object has it |
| ObjectSearch.FirstIs | cli/mmcli-common.c:646-693 | modems without a verdict at the front do not matter, the first verdict is the end |
| ObjectSearch.FirstAgrees | cli/mmcli-common.c:646-693 | two searches that agree on every modem up to the first verdict agree |
| ObjectSearch.SearchIs | cli/mmcli-common.c:646-699 | a search ends in exactly one of three ways: without modems, with nothing found when no modem has a verdict, or with the first verdict |
| ObjectSearch.HoldingMeans | cli/mmcli-common.c:417-433 | what is found in a list is the first object with the path, and none exactly when no object has it |
| ListSearch.GetSync | cli/mmcli-common.c:1252-1320 | the loop ends as the specification says, list errors included; stands for the call (1515-1583) and CBM (1778-1846) loops too |
| ListSearch.Task.ManagerReady | cli/mmcli-common.c:1209-1227 | leaves without modems, otherwise starts the chain |
| ListSearch.Task.LookInModem | cli/mmcli-common.c:1174-1207 | keeps the invariant: the queue is a suffix of the original list, every modem dropped lacks the interface or does not hold the path, the task completed at most once and with the specified outcome |
| ListSearch.Task.ListReady | cli/mmcli-common.c:1135-1172 | the reply keeps the same invariant, and the queue shrinks when another reply is awaited |
| ListSearch.Task.Run | cli/mmcli-common.c:1135-1227 | every run of the chain ends, with one completion, as the specification says |
| ListSearch.SearchBothWays | cli/mmcli-common.c:1135-1320 | the loop and the chain end the same way on every list of modems and every path |
| ListSearch.SearchMeans | cli/mmcli-common.c:1275-1309 | how the search ends, for every end: found or failed to list at the first modem that has the interface and does not just lack the object, not found exactly when every modem lacks one of the two |
| BearerSearch.GetSync | cli/mmcli-common.c:622-710 | the loop ends as its specification says |
| BearerSearch.Task.ManagerReady | cli/mmcli-common.c:578-596 | starts a search that is heading for the specified end |
| BearerSearch.Task.LookInModem | cli/mmcli-common.c:542-576 | taking the next modems keeps the end the search is heading for |
| BearerSearch.Task.LookInInitialBearer | cli/mmcli-common.c:517-540 | asks for the initial bearer or the list, so that the verdict of the current modem comes before those of the queue |
| BearerSearch.Task.InitialBearerReady | cli/mmcli-common.c:491-515 | the reply keeps the end the search is heading for, also when the fetch failed, and leaves less to ask |
| BearerSearch.Task.ListReady | cli/mmcli-common.c:435-472 | the reply keeps the end the search is heading for and leaves less to ask |
| BearerSearch.Task.Run | cli/mmcli-common.c:435-596 | every run of the chain ends, with one completion, as its specification says |
| BearerSearch.ChainFinds | cli/mmcli-common.c:435-596 | how the chain ends, for every end: as the first modem says whose state is 3 or more and which has the bearer as a fetched initial one, or first in its list, or fails to list; modems with a state below 3 and modems without the bearer are passed over |
| BearerSearch.LoopFinds | cli/mmcli-common.c:646-699 | the same for the loop, which also ends at a modem whose matching initial bearer cannot be fetched |
| BearerSearch.UninitialisedIsSkipped | cli/mmcli-common.c:562-568 | a modem whose state is below 3 can be taken out of the list without changing either end, when another modem remains |
| BearerSearch.SearchesAgree | cli/mmcli-common.c:435-710 | chain and loop end with the same owner and bearer, or the same failure, if and only if no modem is reached whose matching initial bearer cannot be fetched |
| BearerSearch.SearchesDiffer | cli/mmcli-common.c:503-505 | a concrete modem on which the loop leaves with an error and the chain finds the bearer |
| BearerSearch.VerdictsAgree | cli/mmcli-common.c:664-671 | the two verdicts on a modem differ if and only if its matching initial bearer cannot be fetched |
| SimSearch.PickLast | cli/mmcli-common.c:1025-1034 | the loop over slot objects ends with the last one that has the path |
| SimSearch.AskSlots | cli/mmcli-common.c:1009-1037 | asking at every equal slot path until something is found gives the same verdict as asking once, and none when no slot path is equal |
| SimSearch.GetSync | cli/mmcli-common.c:945-1057 | the loop ends as its specification says, and the asserted empty path holds at every iteration for "any" and UID targets; a missing device or path that is compared is an end of its own |
| SimSearch.Task.ManagerReady | cli/mmcli-common.c:846-919 | chooses the first modem that matches by UID, primary path or slot path and launches one request of the matching kind, or ends |
| SimSearch.Task.TakePath | cli/mmcli-common.c:875-891 | settles the path, or skips the modem, or is about to compare a missing string; the asserted empty path holds at every iteration for "any" and UID targets |
| SimSearch.Task.LookInSlots | cli/mmcli-common.c:897-910 | the first equal slot path makes the modem the chosen one and launches one request |
| SimSearch.Task.SimReady | cli/mmcli-common.c:816-844 | completes the task once, with the verdict of the chosen modem |
| SimSearch.Task.SlotsReady | cli/mmcli-common.c:769-814 | completes the task once, with the first slot object that has the path, or a failure |
| SimSearch.Task.Run | cli/mmcli-common.c:769-919 | a whole run completes once, with at most one request, as its specification says |
| SimMeaning.ChainMeans | cli/mmcli-common.c:846-919 | how the chain ends, for every target and every end: the first modem for "any", the first with the UID, the first whose SIM has the path or which lists it as a slot, with its reply; not found exactly when no modem matches |
| SimMeaning.LoopMeans | cli/mmcli-common.c:945-1057 | the same for the loop, which takes the last slot object and goes on when no slot has the path |
| SimMeaning.UidFinds | cli/mmcli-common.c:880-896 | for a UID both searches find a SIM if and only if it is the reply of the first modem with that UID and every earlier modem has another one |
| SimMeaning.AnyFinds | cli/mmcli-common.c:875-896 | for "any" both searches end at the first modem, with its SIM or its failure |
| SimMeaning.OtherUidIsSkipped | cli/mmcli-common.c:881-889 | a modem with another UID can be taken out of the list without changing either end |
| SimMeaning.SlotsMean | cli/mmcli-common.c:790-802 | of the slot objects with the path the chain takes the first and the loop the last |
| SimSearch.AgreeUnlessUnclear | cli/mmcli-common.c:769-1057 | for any replies, also those that do not fit the slot paths, chain and loop end the same way unless the first modem that matches has slot objects on which they part |
| SimSearch.AnyAndUidAgree | cli/mmcli-common.c:876-889 | for "any" and UID targets they always agree |
| SimSearch.FirstAndLast | cli/mmcli-common.c:790-802 | a slot list has a first object with a path if and only if it has a last one |
| SimSlots.ListSimSlots | libmm-glib/mm-modem.c:3199-3245 | the library loop builds one object for each slot path in its place, nothing for "/", a new object each time, and fails exactly when an object cannot be created |
| SimSlots.SlotObjects | cli/mmcli-common.c:790-802 | for such objects and a listed path other than "/", chain and loop both have an object of that path, and the same one if and only if the path is listed once; for "/" neither has one |
| SimSlots.SearchesAgree | cli/mmcli-common.c:769-1057 | chain and loop end exactly alike, down to the object, if and only if the first modem that matches is not one that answers for a slot path it lists twice or for "/" |
| SimSlots.SearchesEndAlike | cli/mmcli-common.c:769-1057 | they end with the same owner and SIM path, or the same failure, if and only if what matches first is not the "/" of an empty slot |
| SimSlots.UserSearchesEndAlike | cli/mmcli-common.c:921-961 | no string of the user names "/", so the two commands always end with the same owner and SIM path, or the same failure |
| SimSlots.SearchesDiffer | cli/mmcli-common.c:1025-1034 | a concrete modem with one path in two slots, where the loop takes the second object and the chain the first |
| SimSlots.EmptySlotDiffers | cli/mmcli-common.c:804-813 | a concrete modem with an empty slot, where for "/" the chain leaves at once and the loop goes on |
| ObjectLookup.GetLookupInfo | cli/mmcli-common.c:118-198 | classifies every string for every caller by its shape: prefixed path, index, abbreviation of "any", physical device, UID, refusal; writes through a missing pointer if and only if the string starts with "/", lacks the prefix, and the caller has no room for a physical device |
| ObjectLookup.ReadingUnique | cli/mmcli-common.c:118-198 | the readings are exclusive: what a string stands for is unique |
| ObjectLookup.ReadingMeans | cli/mmcli-common.c:130-197 | the reading of every string for every caller, step by step in the order of the branches |
| ObjectLookup.AnyMeans | cli/mmcli-common.c:173-179 | the length-limited comparison accepts exactly "a", "an" and "any" in any case, and the empty string |
| ObjectLookup.IndexNamesPath | cli/mmcli-common.c:152-171 | an index and the path with that index name the same object |
| ObjectLookup.FailsExactly | cli/mmcli-common.c:181-197 | a caller that takes UIDs refuses the empty string and nothing else, and writes through a missing pointer exactly on paths without its prefix if it has no room for a physical device |
| ObjectLookup.PathOfNothing | cli/mmcli-common.c:182-185 | "/foo" is such a string for a bearer command, and a physical device for a modem command |
| ObjectLookup.FindModem | cli/mmcli-common.c:203-242 | the first modem that matches, unless a modem before it lacks the identifier that is compared; none exactly when no object does either |
| ObjectLookup.ReachesMeans | cli/mmcli-common.c:215-231 | what may stand in front of the modem that is found: modems at other paths, or with another UID or physical device that is there |
| ObjectLookup.FoundMeans | cli/mmcli-common.c:224-227 | which modem matches: the one at the path, with the UID, with the physical device, or any |
| ObjectLookup.ChoiceUnique | cli/mmcli-common.c:215-231 | where the search stops, and for which reason, is unique |
| PrefixNewlines.PrefixLines | cli/mmcli-common.c:1955-1995 | the scanning loop gives the non-empty lines, each without one final CR, joined by newline and prefix, or the text itself when there is none, whatever byte lies before the text |
| PrefixNewlines.KeptMeans | cli/mmcli-common.c:1966-1987 | a line is kept if and only if it is not empty and is there with one byte 13 at its end, or without |
| PrefixNewlines.KeptConcat | cli/mmcli-common.c:1963-1990 | lines are kept in order and as often as they are there |
| PrefixNewlines.LinesReadBack | cli/mmcli-common.c:1955-1995 | for a prefix without newline, splitting the result and taking the prefix off gives those lines back |
| Text.PiecesOfJoin | cli/mmcli-output.c:1504 | splitting undoes joining of parts that hold no separator |
| Text.JoinOfPieces | cli/mmcli-output.c:1504 | joining undoes splitting |
| BearerIpConfig.IpConfig.constructor | libmm-glib/mm-bearer-ip-config.c:419-435 | a new object has no value set and an unknown method |
| BearerIpConfig.IpConfig.SetMethod | libmm-glib/mm-bearer-ip-config.c:84-91 | changes the method and nothing else |
| BearerIpConfig.IpConfig.SetAddress | libmm-glib/mm-bearer-ip-config.c:117-125 | changes the address and nothing else |
| BearerIpConfig.IpConfig.SetPrefix | libmm-glib/mm-bearer-ip-config.c:150-157 | changes the prefix and nothing else |
| BearerIpConfig.IpConfig.SetDns | libmm-glib/mm-bearer-ip-config.c:183-191 | changes the servers and nothing else |
| BearerIpConfig.IpConfig.SetGateway | libmm-glib/mm-bearer-ip-config.c:217-225 | changes the gateway and nothing else |
| BearerIpConfig.IpConfig.SetMtu | libmm-glib/mm-bearer-ip-config.c:250-257 | changes the MTU and nothing else |
| BearerIpConfig.GetDictionary | libmm-glib/mm-bearer-ip-config.c:265-327 | the entries in their order, absent values left out, at most three servers; without an object only an unknown method |
| IpConfigMeaning.DictionaryMeans | libmm-glib/mm-bearer-ip-config.c:265-327 | exactly these entries are written: "method" always, "address", "dns1" to "dns3" and "gateway" when there, "prefix" and "mtu" when not zero |
| BearerIpConfig.NewFromDictionary | libmm-glib/mm-bearer-ip-config.c:335-412 | the reading loop gives the configuration that the last values of the known keys stand for, the default for no dictionary, and an error for another type or a missing method, whatever types the values have |
| IpConfigMeaning.MeaningMeans | libmm-glib/mm-bearer-ip-config.c:335-412 | what is read: each part is the last value under its key, as it is spelled, and the servers are the longest run from "dns1" on; refused exactly without "method" |
| IpConfigMeaning.DescribesOne | libmm-glib/mm-bearer-ip-config.c:335-412 | that describes one configuration only |
| BearerIpConfig.DictionaryRoundTrip | libmm-glib/mm-bearer-ip-config.c:265-412 | rebuilding from the dictionary of any configuration gives it back, with the servers cut to three and an empty array read as absent |
| BearerIpConfig.WriteAndRead | libmm-glib/mm-bearer-ip-config.c:265-412 | the same for the two methods run on an object |
| BearerIpConfig.RebuildIdempotent | libmm-glib/mm-bearer-ip-config.c:335-412 | on every accepted dictionary, writing after rebuilding and rebuilding again changes nothing |
| BearerIpConfig.OrderIndependent | libmm-glib/mm-bearer-ip-config.c:359-395 | with distinct keys neither the order of the entries nor unknown keys matter |
| BearerIpConfig.LastEntryWins | libmm-glib/mm-bearer-ip-config.c:359-395 | an entry whose key is repeated later can be left out |
| BearerIpConfig.MeaningFailsAndRun | libmm-glib/mm-bearer-ip-config.c:397-405 | the reader refuses exactly the dictionaries without a method, and takes the longest run of servers without a gap from dns1 on |
| PreferredNetworks.CheckMccMnc | libmm-glib/mm-common-helpers.c:2150-2168 | accepts exactly five or six decimal digits |
| PreferredNetworks.CodeMeans | libmm-glib/mm-common-helpers.c:2150-2168 | a code is exactly a number written with five or six decimal places, with zeros in front |
| PreferredNetworks.Parse | cli/mmcli-sim.c:332-374 | the index loop with lookahead reads the tokens as the grammar does, with the technology of each network, or leaves |
| PreferredNetworks.ReadsExactlyGrammar | cli/mmcli-sim.c:341-368 | the parser accepts exactly the token sequences of operator codes with optional valid technologies, uses every token once, and there is one reading |
| PreferredNetworks.RenderRead | cli/mmcli-sim.c:338-368 | parsing the comma rendering of any list of networks reads that list |
| PreferredNetworks.RenderMeans | cli/mmcli-sim.c:338 | how a list of networks is written, for one example |
| PreferredNetworks.RoundTrip | cli/mmcli-sim.c:332-374 | for every list of codes and optional technologies, running the parser on its text returns the same list |

## Left out

- D-Bus, GTask, GObject and GVariant machinery, reference counting and freeing.
- The per-group action files, the option dispatch in `cli/mmcli.c`, enum, error and tag headers: option parsing, one remote call and a print each.
- ANSI colours, signals, timeouts, logging, flushing, file reading; leaving the process is an outcome, and text already printed before that is not tracked.
- `dump_output_list_human`, `dump_output_list_json`, `mmcli_output_string_multiline` and the builders of single fields: one loop with one print or one strip each.
- The field and section tables are parameters; a printer asks of them what the source does (a field of the table, a key that is not empty, a real section for people). That JSON keys are written unescaped is a condition on keys (`PlainKeys`) of the reading lemmas.
- The JSON parser reads strings, arrays and objects; the printers emit no numbers or literals. It refuses `\u` escapes of 0x80 and above, which need an encoding; the printers emit none.
- Ready-made JSON pieces must be the compact print of one value; only those of scanned networks are built in the model.
- The human and key-value branches of `build_network_info`.
- `g_strescape` is a parameter of the key-value printer; reading back asks only that it leaves no newline.
- `g_list_sort` is external; the model sorts by insertion, and `StableSort.StableSortUnique` shows that its stable-sort contract leaves no other result.
- Lengths and counts are unbounded; the source has `guint`.
- `ListSearch` is one model for three searches that differ only in the interface they ask and the words of their messages.
- The action of fetching the list of modems, and a reply that changes between two requests to one modem; slot paths that change before the slots are listed are covered by `SimSearch.AgreeUnlessUnclear` alone.
- The paths of objects of the object manager are never missing; devices, physical devices and SIM paths may be.
- The reader of access-technology names is a parameter of `PreferredNetworks`, with the condition that the names read back and hold no comma where a text is written.
- Numbers in `BearerIpConfig` are not limited to 32 bits. For a value of another type GLib's getters also write a warning, which is left out.
