/** The output engine: one list of items, filled by the commands and dumped once. */
module Output {
  import opened Wrappers
  import opened Text
  import opened StableSort
  import opened OutputItems
  import JsonOutput
  import JsonDocument
  import opened HumanOutput
  import KeyValueOutput

  datatype OutputType = TypeNone | TypeHuman | TypeKeyValue | TypeJson

  lemma SortKeeps(s: seq<Item>, le: (Item, Item) -> bool)
    requires TotalPreorder(le)
    ensures forall it :: it in Sort(s, le) <==> it in s
    ensures Sorted(Sort(s, le), le) && |Sort(s, le)| == |s|
  {
    SortCorrect(s, le);
    forall it ensures it in Sort(s, le) <==> it in s {
      assert it in Sort(s, le) <==> it in multiset(Sort(s, le));
      assert it in s <==> it in multiset(s);
    }
  }

  class Engine {
    const table: Table
    /** GLib's g_strescape. */
    const strescape: string -> string
    var selectedType: OutputType
    var items: seq<Item>
    var stdout: string

    constructor (table: Table, strescape: string -> string)
      ensures this.table == table && this.strescape == strescape
      ensures selectedType == TypeNone && items == [] && stdout == ""
    {
      this.table := table;
      this.strescape := strescape;
      selectedType := TypeNone;
      items := [];
      stdout := "";
    }

    method Set(t: OutputType)
      modifies this`selectedType
      ensures selectedType == t
    {
      selectedType := t;
    }

    // ---------- collecting

    method TakeSingle(field: nat, value: Option<string>)
      modifies this`items
      ensures items == [Single(field, KeptSingle(value))] + old(items)
    {
      var kept := value;
      if value.Some? && FilterOut(value.value) {
        kept := None;
      }
      items := [Single(field, kept)] + items;
    }

    method TakeMultiple(field: nat, values: Option<seq<string>>, multiline: bool, isObject: bool)
      modifies this`items
      ensures items == [Multiple(field, KeptMultiple(values), multiline, isObject)] + old(items)
    {
      var kept := values;
      if values.Some? && |values.value| == 1 && FilterOut(values.value[0]) {
        kept := None;
      }
      items := [Multiple(field, kept, multiline, isObject)] + items;
    }

    method TakeListItem(field: nat, prefix: string, text: string, extra: string)
      modifies this`items
      ensures items == [ListItem(field, prefix, text, extra)] + old(items)
    {
      items := [ListItem(field, prefix, text, extra)] + items;
    }

    /** mmcli_output_string_list: a comma-separated string becomes a list of stripped values. */
    method StringList(field: nat, str: Option<string>)
      modifies this`items
      ensures items == [Multiple(field, ListOf(str), false, false)] + old(items)
    {
      var values: Option<seq<string>> := None;
      if str.Some? {
        var split := Split(str.value, ',');
        var parts := new string[|split|](i requires 0 <= i < |split| => split[i]);
        assert parts[..] == split;
        StripParts(parts);
        values := Some(parts[..]);
      }
      TakeMultiple(field, values, false, false);
    }

    // ---------- dumping

    method DumpJson()
      requires JsonOutput.AllPrintable(table.fields, items)
      modifies this`items, this`stdout
      ensures items == Sort(old(items), JsonDocument.ByKey(table.fields))
      ensures JsonOutput.AllPrintable(table.fields, items)
      ensures stdout == old(stdout) + JsonDocument.Document(table.fields, items)
    {
      JsonDocument.ByKeyPreorder(table.fields);
      SortKeeps(items, JsonDocument.ByKey(table.fields));
      items := Sort(items, JsonDocument.ByKey(table.fields));
      var text := JsonOutput.PrintDocument(table.fields, items);
      stdout := stdout + text;
    }

    method DumpHuman()
      requires table.AllShown(items)
      modifies this`items, this`stdout
      ensures items == Sort(old(items), BySection(table))
      ensures old(stdout) <= stdout && IsHumanText(table, items, stdout[|old(stdout)|..])
    {
      BySectionPreorder(table);
      SortKeeps(items, BySection(table));
      items := Sort(items, BySection(table));
      var text := HumanOutput.PrintItems(table, items);
      stdout := stdout + text;
      assert stdout[|old(stdout)|..] == text;
    }

    method DumpKeyValue()
      requires KeyValueOutput.AllKeyed(table.fields, items)
      modifies this`items, this`stdout
      ensures items == Sort(old(items), KeyValueOutput.ByField())
      ensures old(stdout) <= stdout
      ensures KeyValueOutput.IsKeyValueText(table.fields, items, strescape, stdout[|old(stdout)|..])
    {
      SortKeeps(items, KeyValueOutput.ByField());
      items := Sort(items, KeyValueOutput.ByField());
      var text := KeyValueOutput.PrintItems(table.fields, items, strescape);
      stdout := stdout + text;
      assert stdout[|old(stdout)|..] == text;
    }

    /** What the selected printer asks of the items. */
    ghost predicate Ready()
      reads this
    {
      match selectedType
      case TypeNone => true
      case TypeHuman => table.AllShown(items)
      case TypeKeyValue => KeyValueOutput.AllKeyed(table.fields, items)
      case TypeJson => JsonOutput.AllPrintable(table.fields, items)
    }

    /** mmcli_output_dump: prints with the selected printer and empties the list. */
    method Dump()
      requires Ready()
      modifies this`items, this`stdout
      ensures items == []
      ensures selectedType == TypeNone ==> stdout == old(stdout)
      ensures selectedType == TypeJson ==>
                var sorted := Sort(old(items), JsonDocument.ByKey(table.fields));
                && JsonOutput.AllPrintable(table.fields, sorted)
                && stdout == old(stdout) + JsonDocument.Document(table.fields, sorted)
      ensures old(stdout) <= stdout
      ensures selectedType == TypeHuman ==>
                IsHumanText(table, Sort(old(items), BySection(table)), stdout[|old(stdout)|..])
      ensures selectedType == TypeKeyValue ==>
                KeyValueOutput.IsKeyValueText(table.fields, Sort(old(items), KeyValueOutput.ByField()), strescape,
                                              stdout[|old(stdout)|..])
    {
      match selectedType {
        case TypeNone =>
        case TypeHuman => DumpHuman();
        case TypeKeyValue => DumpKeyValue();
        case TypeJson => DumpJson();
      }
      items := [];
    }
  }
}
