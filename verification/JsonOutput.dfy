/** The JSON printer: the streaming loop, and what a reader gets from its output. */
module JsonOutput {
  import opened Wrappers
  import opened Text
  import opened JsonString
  import opened Json
  import opened JsonTree
  import opened JsonStream
  import opened OutputItems

  // ---------- the value of an item

  /** The value that a ready-made piece of JSON text stands for. */
  function RawJson(t: string): Json {
    match ParseValue(t, false)
    case Some((j, _)) => j
    case None => Str("")
  }

  /** Ready-made text must be one printed value. */
  predicate IsJsonText(t: string) { Print(RawJson(t)) == t }

  function ElemsOf(vs: seq<string>, isObject: bool): (r: seq<Json>)
    ensures |r| == |vs|
    ensures forall i :: 0 <= i < |r| ==> r[i] == if isObject then RawJson(vs[i]) else Str(vs[i])
  {
    seq(|vs|, i requires 0 <= i < |vs| => if isObject then RawJson(vs[i]) else Str(vs[i]))
  }

  /** A missing single value reads "--", a missing array is empty. */
  function ItemJson(it: Item): Json
    requires !it.ListItem?
  {
    match it
    case Single(_, None) => Str("--")
    case Single(_, Some(v)) => Str(v)
    case Multiple(_, None, _, _) => Arr([])
    case Multiple(_, Some(vs), _, isObject) => Arr(ElemsOf(vs, isObject))
  }

  /** `j` is what a reader must see of an item. */
  ghost predicate Shows(it: Item, j: Json) {
    match it
    case Single(_, None) => j == Str("--")
    case Single(_, Some(v)) => j == Str(v)
    case Multiple(_, None, _, _) => j == Arr([])
    case Multiple(_, Some(vs), _, isObject) =>
      && j.Arr? && |j.elems| == |vs|
      && forall i :: 0 <= i < |vs| ==> if isObject then Print(j.elems[i]) == vs[i] else j.elems[i] == Str(vs[i])
    case ListItem(_, _, _, _) => false
  }

  lemma ItemShows(fields: seq<FieldInfo>, it: Item)
    requires Printable(fields, it)
    ensures Shows(it, ItemJson(it))
  {
    if it.Multiple? && it.values.Some? {
      assert forall i :: 0 <= i < |it.values.value| ==> it.values.value[i] in it.values.value;
    }
  }

  /** What the source asks of every item: a field of the table with a key, no list item, and ready-made
      values only where they are JSON. */
  predicate Printable(fields: seq<FieldInfo>, it: Item) {
    && it.field < |fields| && fields[it.field].key != ""
    && !it.ListItem?
    && (it.Multiple? && it.isObject && it.values.Some? ==> forall v :: v in it.values.value ==> IsJsonText(v))
  }

  ghost predicate AllPrintable(fields: seq<FieldInfo>, items: seq<Item>) {
    forall it :: it in items ==> Printable(fields, it)
  }

  function KeyOf(fields: seq<FieldInfo>, it: Item): string {
    if it.field < |fields| then fields[it.field].key else ""
  }

  function PathOf(key: string): (r: seq<string>)
    requires key != ""
    ensures r != []
  {
    Split(key, '.')
  }

  function EntryOf(fields: seq<FieldInfo>, it: Item): Entry
    requires Printable(fields, it)
  {
    var path := PathOf(fields[it.field].key);
    Entry(path[..|path| - 1], path[|path| - 1], ItemJson(it))
  }

  function Entries(fields: seq<FieldInfo>, items: seq<Item>): (r: seq<Entry>)
    requires AllPrintable(fields, items)
    ensures |r| == |items| && forall i :: 0 <= i < |r| ==> r[i] == EntryOf(fields, items[i])
  {
    seq(|items|, i requires 0 <= i < |items| => EntryOf(fields, items[i]))
  }

  // ---------- the streaming loop

  lemma CommonIs(a: seq<string>, b: seq<string>, k: nat)
    requires k <= |a| && k <= |b| && a[..k] == b[..k]
    requires k < |a| && k < |b| ==> a[k] != b[k]
    ensures Common(a, b) == k
  {
    var c := Common(a, b);
    forall i | 0 <= i < k ensures a[i] == b[i] { assert a[..k][i] == a[i] && b[..k][i] == b[i]; }
    forall i | 0 <= i < c ensures a[i] == b[i] { assert a[..c][i] == a[i] && b[..c][i] == b[i]; }
  }

  /** Leaves the directories of the previous key that the new key is not in, and enters the others. */
  method PrintSwitch(currentPath: seq<string>, curDlen: nat, newPath: seq<string>, newDlen: nat)
    returns (out: string)
    requires |newPath| == newDlen + 1
    requires if currentPath == [] then curDlen == 0 else |currentPath| == curDlen + 1
    ensures out == if currentPath == [] then Open(newPath[..newDlen])
                   else Switch(currentPath[..curDlen], newPath[..newDlen])
  {
    hide Open;
    out := "";
    var iter := 0;
    ghost var cur, next := currentPath[..curDlen], newPath[..newDlen];
    if currentPath != [] {
      var minDlen := Min(curDlen, newDlen);
      while iter < minDlen && currentPath[iter] == newPath[iter]
        invariant iter <= minDlen && cur[..iter] == next[..iter]
      {
        iter := iter + 1;
      }
      CommonIs(cur, next, iter);
      if iter < minDlen || newDlen < curDlen {
        out := CloseFrom(iter, curDlen);
      }
      out := out + ",";
    }
    var entered := OpenFrom(newPath[..newDlen], iter);
    assert next[0..] == next && "" + entered == entered;
    out := out + entered;
  }

  method CloseFrom(iter: nat, curDlen: nat) returns (out: string)
    requires iter <= curDlen
    ensures out == Close(curDlen - iter)
  {
    out := "";
    for min := iter to curDlen
      invariant out == Close(min - iter)
    {
      out := out + "}";
    }
  }

  method OpenFrom(dirs: seq<string>, start: nat) returns (out: string)
    requires start <= |dirs|
    ensures out == Open(dirs[start..])
  {
    out := "";
    var iter := start;
    while iter < |dirs|
      invariant start <= iter <= |dirs|
      invariant out + Open(dirs[iter..]) == Open(dirs[start..])
    {
      assert dirs[iter..][1..] == dirs[iter + 1..];
      StepOpen(out, dirs[iter], Open(dirs[iter + 1..]));
      out := out + "\"" + dirs[iter] + "\":{";
      iter := iter + 1;
    }
    assert out + "" == out;
  }

  lemma StepOpen(out: string, name: string, rest: string)
    ensures out + ("\"" + name + "\":{" + rest) == (out + "\"" + name + "\":{") + rest
  {
  }

  /** Prints one name with its value. */
  method PrintLeaf(name: string, item: Item) returns (out: string)
    requires !item.ListItem?
    requires item.Multiple? && item.isObject && item.values.Some? ==> forall v :: v in item.values.value ==> IsJsonText(v)
    ensures out == LeafText(name, ItemJson(item))
  {
    hide Escape, PrintElems;
    match item {
      case Single(_, value) =>
        var escaped := "--";
        if value.Some? {
          escaped := JsonStrescape(value.value);
        } else {
          DashesArePlain();
        }
        out := "\"" + name + "\":\"" + escaped + "\"";
        SingleText(name, escaped);
      case Multiple(_, values, _, isObject) =>
        var vs := if values.Some? then values.value else [];
        var elems := PrintValues(vs, isObject);
        out := "\"" + name + "\":[" + elems + "]";
        assert ItemJson(item) == Arr(ElemsOf(vs, isObject));
        ArrayText(name, elems);
    }
  }

  lemma SingleText(name: string, value: string)
    ensures "\"" + name + "\":\"" + value + "\"" == "\"" + name + "\":" + ("\"" + value + "\"")
  {
  }

  lemma ArrayText(name: string, elems: string)
    ensures "\"" + name + "\":[" + elems + "]" == "\"" + name + "\":" + ("[" + elems + "]")
  {
  }

  lemma DashesArePlain()
    ensures Escape("--") == "--"
  {
    EscapeOfPlain("--");
  }

  method PrintValues(vs: seq<string>, isObject: bool) returns (out: string)
    requires isObject ==> forall v :: v in vs ==> IsJsonText(v)
    ensures out == PrintElems(ElemsOf(vs, isObject))
  {
    out := "";
    ghost var es := ElemsOf(vs, isObject);
    var i := 0;
    while i < |vs|
      invariant 0 <= i <= |vs|
      invariant out + PrintElems(es[i..]) == PrintElems(es)
    {
      assert es[i..][1..] == es[i + 1..];
      assert vs[i] in vs;
      var text;
      if isObject {
        text := vs[i];
      } else {
        var escaped := JsonStrescape(vs[i]);
        text := "\"" + escaped + "\"";
      }
      assert text == Print(es[i]);
      ElemStep(out, text, if i < |vs| - 1 then "," else "", PrintElems(es[i + 1..]));
      out := out + text;
      if i < |vs| - 1 {
        out := out + ",";
      }
      i := i + 1;
    }
  }

  lemma ElemStep(out: string, text: string, comma: string, rest: string)
    ensures out + (text + (comma + rest)) == ((out + text) + comma) + rest
    ensures comma == "" ==> (out + text) + comma == out + text
  {
  }

  /** What is remembered of the item before `items[l]`: its field, its path, and how many directories that has. */
  ghost predicate Remembers(items: seq<Item>, es: seq<Entry>, l: nat, field: int, path: seq<string>, dlen: nat)
    requires |es| == |items| && l <= |items|
  {
    if l == 0 then field == -1 && path == [] && dlen == 0
    else field == items[l - 1].field && path == es[l - 1].Path() && dlen == |es[l - 1].dirs|
  }

  lemma EntryPath(fields: seq<FieldInfo>, it: Item)
    requires Printable(fields, it)
    ensures EntryOf(fields, it).Path() == PathOf(fields[it.field].key)
  {
  }

  /** One turn of the loop. */
  method PrintItem(fields: seq<FieldInfo>, items: seq<Item>, l: nat,
                   currentField: int, currentPath: seq<string>, curDlen: nat)
    returns (out: string, newPath: seq<string>, newDlen: nat)
    requires AllPrintable(fields, items) && l < |items|
    requires Remembers(items, Entries(fields, items), l, currentField, currentPath, curDlen)
    ensures out == Chunk(Entries(fields, items), l)
    ensures Remembers(items, Entries(fields, items), l + 1, items[l].field, newPath, newDlen)
  {
    var item := items[l];
    ghost var es, e := Entries(fields, items), EntryOf(fields, item);
    EntryPath(fields, item);
    newPath, newDlen := currentPath, curDlen;
    if currentField != item.field {
      newPath := PathOf(fields[item.field].key);
      newDlen := |newPath| - 1;
      out := PrintSwitch(currentPath, curDlen, newPath, newDlen);
      assert newPath[..newDlen] == e.dirs;
      assert l > 0 ==> currentPath[..curDlen] == OpenDirs(es, l);
    } else {
      out := ",";
      EntryPath(fields, items[l - 1]);
      assert e.dirs == currentPath[..curDlen] == OpenDirs(es, l);
      SwitchInPlace(e.dirs);
    }
    var leaf := PrintLeaf(newPath[newDlen], item);
    assert e.name == newPath[newDlen] && e.value == ItemJson(item);
    ChunkText(es, l, out, leaf);
    out := out + leaf;
  }

  lemma ChunkText(es: seq<Entry>, l: nat, move: string, leaf: string)
    requires l < |es|
    requires move == if l == 0 then Open(es[l].dirs) else Switch(OpenDirs(es, l), es[l].dirs)
    requires leaf == LeafText(es[l].name, es[l].value)
    ensures move + leaf == Chunk(es, l)
  {
  }

  /** The loop of dump_output_json, after the sort; `dlen` directories are still open. */
  method StreamItems(fields: seq<FieldInfo>, items: seq<Item>) returns (out: string, dlen: nat)
    requires AllPrintable(fields, items)
    ensures out == Emitted(Entries(fields, items), |items|)
    ensures dlen == |OpenDirs(Entries(fields, items), |items|)|
  {
    hide Chunk, Printable, EntryOf;
    ghost var es := Entries(fields, items);
    var currentField: int, currentPath: seq<string> := -1, [];
    dlen := 0;
    out := "";
    var l := 0;
    while l < |items|
      invariant 0 <= l <= |items|
      invariant out == Emitted(es, l)
      invariant Remembers(items, es, l, currentField, currentPath, dlen)
    {
      var chunk;
      chunk, currentPath, dlen := PrintItem(fields, items, l, currentField, currentPath, dlen);
      currentField := items[l].field;
      out := out + chunk;
      l := l + 1;
    }
    assert l == |items|;
  }

  method PrintDocument(fields: seq<FieldInfo>, items: seq<Item>) returns (out: string)
    requires AllPrintable(fields, items)
    ensures var es := Entries(fields, items);
            out == "{" + Emitted(es, |es|) + Close(|OpenDirs(es, |es|)|) + "}\n"
  {
    out := "{";
    var text, dlen := StreamItems(fields, items);
    var end := CloseAll(dlen);
    out := out + text + end + "}\n";
  }

  method CloseAll(dlen: nat) returns (out: string)
    ensures out == Close(dlen)
  {
    out := "";
    var curDlen := dlen;
    while curDlen > 0
      invariant 0 <= curDlen <= dlen
      invariant out == Close(dlen - curDlen)
    {
      curDlen := curDlen - 1;
      out := out + "}";
    }
  }

  lemma SwitchInPlace(dirs: seq<string>)
    ensures Switch(dirs, dirs) == ","
  {
    CommonIs(dirs, dirs, |dirs|);
    assert dirs[|dirs|..] == [];
  }
}
