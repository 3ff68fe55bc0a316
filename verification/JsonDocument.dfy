/** What a JSON reader gets from the printed document. */
module JsonDocument {
  import opened Wrappers
  import opened Text
  import opened StableSort
  import opened JsonString
  import opened Json
  import opened JsonTree
  import opened JsonKeys
  import opened JsonStream
  import opened JsonBraces
  import opened OutputItems
  import opened JsonOutput
  import opened JsonStrict

  /** The document for items that are already in order. */
  function Document(fields: seq<FieldInfo>, items: seq<Item>): string
    requires AllPrintable(fields, items)
  {
    var es := Entries(fields, items);
    "{" + Emitted(es, |es|) + Close(|OpenDirs(es, |es|)|) + "}\n"
  }

  /** Keys are written as they are, so they must hold nothing that a JSON string has to escape. */
  predicate PlainKey(key: string) { forall c :: c in key ==> EscapeChar(c) == [c] }

  ghost predicate PlainKeys(fields: seq<FieldInfo>, items: seq<Item>) {
    forall it :: it in items ==> PlainKey(KeyOf(fields, it))
  }

  lemma PlainEntry(fields: seq<FieldInfo>, it: Item)
    requires Printable(fields, it) && PlainKey(KeyOf(fields, it))
    ensures var e := EntryOf(fields, it);
            PlainPath(e.Path()) && DotFree(e.Path()) && e.Key() == KeyOf(fields, it) && !e.value.Obj?
  {
    var e, key := EntryOf(fields, it), KeyOf(fields, it);
    EntryPath(fields, it);
    JoinOfPieces(key, '.');
    PiecesFree(key, '.');
    forall c | c in e.Path() ensures Escape(c) == c {
      PieceChars(key, '.', c);
      EscapeOfPlain(c);
    }
  }

  lemma PlainEntries(fields: seq<FieldInfo>, items: seq<Item>)
    requires AllPrintable(fields, items) && PlainKeys(fields, items)
    ensures var es := Entries(fields, items);
            && AllPlain(es) && AllLeaves(es) && AllDotFree(es)
            && forall i :: 0 <= i < |es| ==> es[i].Key() == KeyOf(fields, items[i])
  {
    forall i | 0 <= i < |items|
      ensures var e := Entries(fields, items)[i];
              PlainPath(e.Path()) && DotFree(e.Path()) && e.Key() == KeyOf(fields, items[i]) && !e.value.Obj?
    {
      assert items[i] in items;
      PlainEntry(fields, items[i]);
    }
  }

  /** The entries are the items in order: each has the parts of the key in the table between dots, and shows what
      its item holds. */
  ghost predicate GivesBack(fields: seq<FieldInfo>, items: seq<Item>, es: seq<Entry>) {
    && |es| == |items|
    && forall i :: 0 <= i < |es| ==>
         && items[i].field < |fields|
         && (forall c :: c in es[i].Path() ==> '.' !in c) && Join(es[i].Path(), ".") == fields[items[i].field].key
         && Shows(items[i], es[i].value)
  }

  lemma EntriesGiveBack(fields: seq<FieldInfo>, items: seq<Item>)
    requires AllPrintable(fields, items) && PlainKeys(fields, items)
    ensures GivesBack(fields, items, Entries(fields, items))
  {
    hide Shows, ItemJson;
    forall i | 0 <= i < |items|
      ensures var e := Entries(fields, items)[i];
              && items[i].field < |fields|
              && (forall c :: c in e.Path() ==> '.' !in c) && Join(e.Path(), ".") == fields[items[i].field].key
              && Shows(items[i], e.value)
    {
      assert items[i] in items;
      PlainEntry(fields, items[i]);
      ItemShows(fields, items[i]);
    }
  }

  /** The streamed document is the printed tree of its entries, in whatever order they come. */
  lemma DocumentIsPrint(fields: seq<FieldInfo>, items: seq<Item>)
    requires AllPrintable(fields, items) && PlainKeys(fields, items)
    ensures Document(fields, items) == Print(Obj(Build(Entries(fields, items)))) + "\n"
  {
    var es := Entries(fields, items);
    PlainEntries(fields, items);
    StreamIsPrint(es);
    Framed(Emitted(es, |es|), Close(|OpenDirs(es, |es|)|), PrintMembers(Build(es)));
  }

  lemma Framed(a: string, b: string, text: string)
    requires a + b == text
    ensures "{" + a + b + "}\n" == "{" + text + "}" + "\n"
  {
  }

  /** The document is one JSON object, and flattening that object gives back every key and value in list order.
      A strict reader takes it exactly when no key and no text holds a character that is written raw. */
  lemma DocumentRoundTrip(fields: seq<FieldInfo>, items: seq<Item>, strict: bool)
    requires AllPrintable(fields, items) && PlainKeys(fields, items)
    ensures var ms := Build(Entries(fields, items));
            && Parse(Document(fields, items), strict) == (if strict && !AllClean(fields, items) then None else Some(Obj(ms)))
            && Flatten(ms) == Entries(fields, items) && GivesBack(fields, items, Flatten(ms))
  {
    hide GivesBack;
    var es := Entries(fields, items);
    PlainEntries(fields, items);
    EntriesGiveBack(fields, items);
    DocumentIsPrint(fields, items);
    FlattenBuild(es);
    if strict { ItemsClean(fields, items); }
    ParseDocument(Obj(Build(es)), strict);
  }

  /** A strict reader takes the document exactly when its bytes have neither NUL nor 0x1f. */
  lemma StrictExactly(fields: seq<FieldInfo>, items: seq<Item>)
    requires AllPrintable(fields, items) && PlainKeys(fields, items)
    ensures Parse(Document(fields, items), true).Some? <==> Clean(Document(fields, items))
  {
    var j := Obj(Build(Entries(fields, items)));
    DocumentIsPrint(fields, items);
    ParseDocument(j, true);
    CleanPrint(j);
    CleanConcat(Print(j), "\n");
  }

  // ---------- the sorted document

  /** list_sort_by_keys: strcmp on the keys. */
  function ByKey(fields: seq<FieldInfo>): (Item, Item) -> bool {
    (a, b) => StrLe(KeyOf(fields, a), KeyOf(fields, b))
  }

  lemma ByKeyPreorder(fields: seq<FieldInfo>)
    ensures TotalPreorder(ByKey(fields))
  {
    var le := ByKey(fields);
    forall a, b ensures le(a, b) || le(b, a) { StrLeTotal(KeyOf(fields, a), KeyOf(fields, b)); }
    forall a, b, c | le(a, b) && le(b, c) ensures le(a, c) {
      StrLeTrans(KeyOf(fields, a), KeyOf(fields, b), KeyOf(fields, c));
    }
  }

  ghost predicate NoClash(fields: seq<FieldInfo>, items: seq<Item>) {
    forall i, j :: 0 <= i < j < |items| ==> !KeysClash(KeyOf(fields, items[i]), KeyOf(fields, items[j]))
  }

  /** Looking the key of an item up, by its parts between dots, leads to a value that shows the item. */
  ghost predicate FoundUnderKeys(fields: seq<FieldInfo>, items: seq<Item>, ms: seq<Member>) {
    forall it, path: seq<string> ::
      it in items && it.field < |fields| && path != [] && (forall c :: c in path ==> '.' !in c)
      && Join(path, ".") == fields[it.field].key ==>
        Get(ms, path).Some? && Shows(it, Get(ms, path).value)
  }

  lemma OnePath(key: string, path: seq<string>)
    requires path != [] && DotFree(path) && key == Join(path, ".") && key != ""
    ensures path == PathOf(key)
  {
    PiecesOfJoin(path, '.');
  }

  /** The keys of the items are in byte order. */
  ghost predicate KeysAscend(fields: seq<FieldInfo>, items: seq<Item>) {
    forall i, j :: 0 <= i < j < |items| && items[i].field < |fields| && items[j].field < |fields| ==>
      ByteLe(fields[items[i].field].key, fields[items[j].field].key)
  }

  lemma ItemFound(fields: seq<FieldInfo>, items: seq<Item>, it: Item, path: seq<string>)
    requires AllPrintable(fields, items) && PlainKeys(fields, items) && UniqueNames(Build(Entries(fields, items)))
    requires it in items && path != [] && DotFree(path) && Join(path, ".") == fields[it.field].key
    ensures var ms := Build(Entries(fields, items)); Get(ms, path).Some? && Shows(it, Get(ms, path).value)
  {
    hide Shows, ItemJson, Get, UniqueNames, Build;
    var es := Entries(fields, items);
    var i :| 0 <= i < |items| && items[i] == it;
    assert es[i] in es;
    PlainEntries(fields, items);
    FlattenBuild(es);
    OnePath(fields[it.field].key, path);
    GetFlatten(Build(es), es[i]);
    EntryPath(fields, it);
    ItemShows(fields, it);
  }

  lemma SortedAscends(fields: seq<FieldInfo>, items: seq<Item>)
    requires Sorted(items, ByKey(fields))
    ensures KeysAscend(fields, items)
  {
    forall i, j | 0 <= i < j < |items| && items[i].field < |fields| && items[j].field < |fields|
      ensures ByteLe(fields[items[i].field].key, fields[items[j].field].key)
    {
      assert ByKey(fields)(items[i], items[j]);
      StrLeMeans(fields[items[i].field].key, fields[items[j].field].key);
    }
  }

  /** In the sorted document no object repeats a name exactly when no two keys clash;
      then every value is found by looking its key up, part by part. */
  lemma SortedDocument(fields: seq<FieldInfo>, items: seq<Item>)
    requires AllPrintable(fields, items) && PlainKeys(fields, items)
    requires Sorted(items, ByKey(fields))
    ensures var ms := Build(Entries(fields, items));
            && KeysAscend(fields, items)
            && (UniqueNames(ms) <==> NoClash(fields, items))
            && (NoClash(fields, items) ==> FoundUnderKeys(fields, items, ms))
  {
    SortedAscends(fields, items);
    var es := Entries(fields, items);
    PlainEntries(fields, items);
    forall i, j | 0 <= i < j < |es| ensures StrLe(es[i].Key(), es[j].Key()) {
      assert ByKey(fields)(items[i], items[j]);
    }
    UniqueIffNoClash(es);
    FlattenBuild(es);
    if NoClash(fields, items) {
      hide Shows, ItemJson, Get, UniqueNames, Build;
      forall it, path: seq<string> |
          it in items && it.field < |fields| && path != [] && (forall c :: c in path ==> '.' !in c)
          && Join(path, ".") == fields[it.field].key
        ensures Get(Build(es), path).Some? && Shows(it, Get(Build(es), path).value)
      {
        ItemFound(fields, items, it, path);
      }
    }
  }

  /** After each item, in any order and with repeated fields, the open objects are the root and the directories
      of that item; the document closes all of them, and the root once, with its last brace. There is no white space
      outside strings but the final newline. */
  lemma DocumentBraces(fields: seq<FieldInfo>, items: seq<Item>, l: nat)
    requires AllPrintable(fields, items) && PlainKeys(fields, items) && l <= |items|
    ensures var es := Entries(fields, items);
            Start.ReadAll("{" + Emitted(es, l)).Between(OpenDirs(es, l))
    ensures var r := Start.ReadAll(Document(fields, items));
            r.mode == Outside && r.open == [] && r.closed == 1 && r.blanks == 1
  {
    var es := Entries(fields, items);
    PlainEntries(fields, items);
    BracesMatchDirs(es, l);
    BracesCloseAll(es, "{" + Emitted(es, |es|) + Close(|OpenDirs(es, |es|)|));
  }

  // ---------- from the collected items to the reader

  lemma {:induction false} TwoPlaces(s: seq<Item>, x: Item) returns (i: nat, j: nat)
    requires multiset(s)[x] >= 2
    ensures i < j < |s| && s[i] == x && s[j] == x
  {
    assert s == [s[0]] + s[1..];
    if s[0] == x {
      assert x in multiset(s[1..]);
      i := 0;
      j :| 1 <= j < |s| && s[j] == x;
    } else {
      i, j := TwoPlaces(s[1..], x);
      i, j := i + 1, j + 1;
    }
  }

  lemma TwiceIn(s: seq<Item>, i: nat, j: nat)
    requires i < j < |s| && s[i] == s[j]
    ensures multiset(s)[s[i]] >= 2
  {
    assert s == s[..j] + [s[j]] + s[j + 1..];
    assert s[i] in multiset(s[..j]);
  }

  /** Whether keys clash does not depend on the order of the items. */
  lemma ClashAnyOrder(fields: seq<FieldInfo>, s: seq<Item>, r: seq<Item>)
    requires multiset(s) == multiset(r) && NoClash(fields, s)
    ensures NoClash(fields, r)
  {
    forall i, j | 0 <= i < j < |r| ensures !KeysClash(KeyOf(fields, r[i]), KeyOf(fields, r[j])) {
      if r[i] == r[j] {
        TwiceIn(r, i, j);
        var a, b := TwoPlaces(s, r[i]);
      } else {
        assert r[i] in multiset(s) && r[j] in multiset(s);
        var a :| 0 <= a < |s| && s[a] == r[i];
        var b :| 0 <= b < |s| && s[b] == r[j];
      }
    }
  }

  lemma SameMembers(s: seq<Item>, r: seq<Item>)
    requires multiset(s) == multiset(r)
    ensures forall it :: it in s <==> it in r
  {
    forall it ensures it in s <==> it in r {
      assert (it in s <==> it in multiset(s)) && (it in r <==> it in multiset(r));
    }
  }

  lemma SortedCollection(fields: seq<FieldInfo>, items: seq<Item>)
    requires AllPrintable(fields, items) && PlainKeys(fields, items)
    ensures var sorted := Sort(items, ByKey(fields));
            && AllPrintable(fields, sorted) && PlainKeys(fields, sorted) && Sorted(sorted, ByKey(fields))
            && multiset(sorted) == multiset(items) && (NoClash(fields, sorted) <==> NoClash(fields, items))
            && (AllClean(fields, sorted) <==> AllClean(fields, items))
  {
    var sorted := Sort(items, ByKey(fields));
    ByKeyPreorder(fields);
    SortCorrect(items, ByKey(fields));
    SameMembers(items, sorted);
    if NoClash(fields, items) {
      ClashAnyOrder(fields, items, sorted);
    } else if NoClash(fields, sorted) {
      ClashAnyOrder(fields, sorted, items);
    }
  }

  /** Whatever was collected, in whatever order: the sorted document is one JSON object with exactly the
      collected values under their keys; it repeats a name exactly when two collected keys clash, and when
      none do, each value is found under its key. */
  lemma CollectedDocument(fields: seq<FieldInfo>, items: seq<Item>, sorted: seq<Item>, strict: bool)
    requires AllPrintable(fields, items) && PlainKeys(fields, items)
    requires sorted == Sort(items, ByKey(fields))
    ensures AllPrintable(fields, sorted) && multiset(sorted) == multiset(items)
    ensures var ms := Build(Entries(fields, sorted));
            && Parse(Document(fields, sorted), strict) == (if strict && !AllClean(fields, items) then None else Some(Obj(ms)))
            && Flatten(ms) == Entries(fields, sorted)
            && GivesBack(fields, sorted, Flatten(ms)) && KeysAscend(fields, sorted)
            && (UniqueNames(ms) <==> NoClash(fields, items))
            && (NoClash(fields, items) ==> FoundUnderKeys(fields, sorted, ms))
  {
    hide Build, Flatten, UniqueNames, Document, Parse, CleanJson, GivesBack, FoundUnderKeys, KeysAscend, AllClean, NoClash;
    SortedCollection(fields, items);
    DocumentRoundTrip(fields, sorted, strict);
    SortedDocument(fields, sorted);
  }
}
