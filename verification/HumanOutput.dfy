/** The human printer: two passes over the items in section order. */
module HumanOutput {
  import opened Text
  import opened StableSort
  import opened OutputItems
  import Wrapping

  const TEN_DASHES := "----------"
  const DASHES := TEN_DASHES + TEN_DASHES + TEN_DASHES + TEN_DASHES + TEN_DASHES + TEN_DASHES

  /** The table of fields and the names of the sections. */
  datatype Table = Table(fields: seq<FieldInfo>, sections: seq<string>) {
    function SectionOf(it: Item): int {
      if it.field < |fields| then fields[it.field].section else -1
    }

    function SectionName(it: Item): string
      requires Shown(it)
    {
      sections[SectionOf(it)]
    }

    function FieldName(it: Item): string
      requires Shown(it)
    {
      fields[it.field].name
    }

    /** A field with a real section: what the source needs to look the names up. */
    predicate Shown(it: Item) {
      it.field < |fields| && 0 <= fields[it.field].section < |sections| && !it.ListItem?
    }

    ghost predicate AllShown(items: seq<Item>) {
      forall it :: it in items ==> Shown(it)
    }
  }

  /** list_sort_human: by section, then by field. */
  function BySection(t: Table): (Item, Item) -> bool {
    (a, b) => t.SectionOf(a) < t.SectionOf(b) || (t.SectionOf(a) == t.SectionOf(b) && a.field <= b.field)
  }

  lemma BySectionPreorder(t: Table)
    ensures TotalPreorder(BySection(t))
  {
  }

  /** Pass one leaves out what has no value at all. */
  predicate Measured(it: Item) {
    match it
    case Single(_, value) => value.Some?
    case Multiple(_, values, _, _) => values.Some?
    case ListItem(_, _, _, _) => true
  }

  /** Pass two also leaves out what has an empty value. */
  predicate Visible(it: Item) {
    match it
    case Single(_, value) => value.Some? && value.value != ""
    case Multiple(_, values, _, _) => values.Some? && values.value != []
    case ListItem(_, _, _, _) => true
  }

  // ---------- pass one

  /** `w` is the length of the longest of the measured names, and 0 if there is none. */
  ghost predicate IsLongest(items: seq<Item>, length: Item -> nat, w: nat) {
    && (forall it :: it in items && Measured(it) ==> length(it) <= w)
    && (w > 0 ==> exists it :: it in items && Measured(it) && length(it) == w)
  }

  ghost function SectionLength(t: Table): Item -> nat {
    it => if t.Shown(it) then |t.SectionName(it)| else 0
  }

  ghost function FieldLength(t: Table): Item -> nat {
    it => if t.Shown(it) then |t.FieldName(it)| else 0
  }

  method MeasureNames(t: Table, items: seq<Item>) returns (longestSection: nat, longestField: nat)
    requires t.AllShown(items)
    ensures IsLongest(items, SectionLength(t), longestSection)
    ensures IsLongest(items, FieldLength(t), longestField)
  {
    longestSection, longestField := 0, 0;
    for l := 0 to |items|
      invariant IsLongest(items[..l], SectionLength(t), longestSection)
      invariant IsLongest(items[..l], FieldLength(t), longestField)
    {
      var it := items[l];
      assert items[..l + 1] == items[..l] + [it];
      var ignore := (it.Single? && it.value.None?) || (it.Multiple? && it.values.None?);
      if !ignore {
        assert it in items;
        var aux := |t.SectionName(it)|;
        ghost var s, f := longestSection, longestField;
        if aux > longestSection { longestSection := aux; }
        Widen(items[..l], it, SectionLength(t), s, longestSection);
        aux := |t.FieldName(it)|;
        if aux > longestField { longestField := aux; }
        Widen(items[..l], it, FieldLength(t), f, longestField);
      } else {
        Ignore(items[..l], it, SectionLength(t), longestSection);
        Ignore(items[..l], it, FieldLength(t), longestField);
      }
    }
    assert items[..|items|] == items;
  }

  lemma Widen(items: seq<Item>, it: Item, length: Item -> nat, w: nat, w': nat)
    requires IsLongest(items, length, w) && Measured(it) && w' == Max(w, length(it))
    ensures IsLongest(items + [it], length, w')
  {
    assert it in items + [it];
    if w' == w && w > 0 {
      var x :| x in items && Measured(x) && length(x) == w;
      assert x in items + [it];
    }
  }

  lemma Ignore(items: seq<Item>, it: Item, length: Item -> nat, w: nat)
    requires IsLongest(items, length, w) && !Measured(it)
    ensures IsLongest(items + [it], length, w)
  {
    if w > 0 {
      var x :| x in items && Measured(x) && length(x) == w;
      assert x in items + [it];
    }
  }

  // ---------- pass two

  /** One printed field; `header` when its section is announced first. */
  datatype Row = Row(header: bool, item: Item)

  function Rows(t: Table, items: seq<Item>, current: int): seq<Row> {
    if items == [] then []
    else if !Visible(items[0]) then Rows(t, items[1..], current)
    else [Row(t.SectionOf(items[0]) != current, items[0])] + Rows(t, items[1..], t.SectionOf(items[0]))
  }

  function Indent(ws: nat, wf: nat): string {
    "  " + PadLeft("", ws) + " | " + PadLeft("", wf) + "  "
  }

  /** The value column: a text with its lines, or a wrapped list. */
  function Body(it: Item, ws: nat, wf: nat): string
    requires Visible(it) && !it.ListItem?
  {
    match it
    case Single(_, value) => Join(Pieces(value.value, '\n'), "\n" + Indent(ws, wf)) + "\n"
    case Multiple(_, values, multiline, _) =>
      Wrapping.Layout(values.value, multiline, "\n" + Indent(ws, wf), |values.value|) + "\n"
  }

  /** The rule above a section. */
  function Rule(row: Row, ws: nat, wf: nat): string {
    if row.header then "  " + Cut(DASHES, ws + wf + 4) + "\n" else ""
  }

  /** The two name columns. */
  function Lead(t: Table, row: Row, ws: nat, wf: nat): string
    requires t.Shown(row.item)
  {
    "  " + (if row.header then PadRight(t.SectionName(row.item), ws) else PadLeft("", ws))
    + " | " + PadLeft(t.FieldName(row.item), wf) + ": "
  }

  function RowText(t: Table, row: Row, ws: nat, wf: nat): string
    requires t.Shown(row.item) && Visible(row.item)
  {
    Rule(row, ws, wf) + Lead(t, row, ws, wf) + Body(row.item, ws, wf)
  }

  ghost predicate AllRowsShown(t: Table, rows: seq<Row>) {
    forall r :: r in rows ==> t.Shown(r.item) && Visible(r.item)
  }

  function RowsText(t: Table, rows: seq<Row>, ws: nat, wf: nat): string
    requires AllRowsShown(t, rows)
  {
    if rows == [] then "" else RowText(t, rows[0], ws, wf) + RowsText(t, rows[1..], ws, wf)
  }

  lemma {:induction false} RowsAreShown(t: Table, items: seq<Item>, current: int)
    requires t.AllShown(items)
    ensures AllRowsShown(t, Rows(t, items, current))
  {
    if items != [] {
      assert items[0] in items;
      RowsAreShown(t, items[1..], if Visible(items[0]) then t.SectionOf(items[0]) else current);
    }
  }

  method PrintLines(value: string, ws: nat, wf: nat) returns (out: string)
    ensures out == Join(Pieces(value, '\n'), "\n" + Indent(ws, wf)) + "\n"
  {
    var splitLines := Pieces(value, '\n');
    var n := |splitLines|;
    ghost var sep := "\n" + Indent(ws, wf);
    out := "";
    var i := 0;
    while i < n
      invariant 0 <= i <= n
      invariant out + LinesFrom(splitLines, i, Indent(ws, wf)) == LinesFrom(splitLines, 0, Indent(ws, wf))
    {
      LineStep(out, if i != 0 then Indent(ws, wf) else "", splitLines[i], LinesFrom(splitLines, i + 1, Indent(ws, wf)));
      if i != 0 {
        out := out + Indent(ws, wf);
      }
      out := out + splitLines[i] + "\n";
      i := i + 1;
    }
    LinesAreJoined(splitLines, 0, Indent(ws, wf));
    assert splitLines[0..] == splitLines && out + "" == out;
    assert "" + (Join(splitLines, sep) + "\n") == Join(splitLines, sep) + "\n";
  }

  /** The lines printed from number `i` on, each with its newline; all but the first are indented. */
  function LinesFrom(lines: seq<string>, i: nat, indent: string): string
    requires i <= |lines|
    decreases |lines| - i
  {
    if i == |lines| then ""
    else (if i != 0 then indent else "") + (lines[i] + "\n") + LinesFrom(lines, i + 1, indent)
  }

  lemma LineStep(out: string, indent: string, line: string, rest: string)
    ensures out + (indent + (line + "\n") + rest) == (out + indent + line + "\n") + rest
    ensures indent == "" ==> out + indent == out
  {
  }

  lemma {:induction false} LinesAreJoined(lines: seq<string>, i: nat, indent: string)
    requires i < |lines|
    ensures LinesFrom(lines, i, indent)
         == (if i != 0 then indent else "") + (Join(lines[i..], "\n" + indent) + "\n")
    decreases |lines| - i
  {
    if i + 1 < |lines| {
      LinesAreJoined(lines, i + 1, indent);
      assert lines[i..][1..] == lines[i + 1..];
    } else {
      assert lines[i..] == [lines[i]];
    }
  }

  method PrintRow(t: Table, row: Row, ws: nat, wf: nat) returns (out: string)
    requires t.Shown(row.item) && Visible(row.item)
    ensures out == RowText(t, row, ws, wf)
  {
    var it := row.item;
    if row.header {
      out := "  " + Cut(DASHES, ws + wf + 4) + "\n";
      out := out + ("  " + PadRight(t.SectionName(it), ws) + " | " + PadLeft(t.FieldName(it), wf) + ": ");
    } else {
      out := "  " + PadLeft("", ws) + " | " + PadLeft(t.FieldName(it), wf) + ": ";
      assert "" + out == out;
    }
    var body;
    if it.Single? {
      body := PrintLines(it.value.value, ws, wf);
    } else {
      body := Wrapping.PrintValues(it.values.value, it.multiline, "\n" + Indent(ws, wf));
      body := body + "\n";
    }
    out := out + body;
  }

  /** What is printed for items in order, with columns as wide as the longest names. */
  ghost predicate IsHumanText(t: Table, items: seq<Item>, text: string) {
    && AllRowsShown(t, Rows(t, items, -1))
    && exists ws: nat, wf: nat ::
         && IsLongest(items, SectionLength(t), ws) && IsLongest(items, FieldLength(t), wf)
         && text == RowsText(t, Rows(t, items, -1), ws, wf)
  }

  /** Both passes of dump_output_human, after the sort. */
  method PrintItems(t: Table, items: seq<Item>) returns (out: string)
    requires t.AllShown(items)
    ensures IsHumanText(t, items, out)
  {
    var ws, wf := MeasureNames(t, items);
    out := "";
    var currentSection := -1;
    RowsAreShown(t, items, -1);
    ghost var all := Rows(t, items, -1);
    for l := 0 to |items|
      invariant AllRowsShown(t, Rows(t, items[l..], currentSection))
      invariant out + RowsText(t, Rows(t, items[l..], currentSection), ws, wf) == RowsText(t, all, ws, wf)
    {
      var it := items[l];
      assert items[l..][0] == it && items[l..][1..] == items[l + 1..];
      ghost var rows := Rows(t, items[l..], currentSection);
      if (it.Single? && (it.value.None? || it.value.value == "")) ||
         (it.Multiple? && (it.values.None? || |it.values.value| == 0)) {
        assert !Visible(it) && rows == Rows(t, items[l + 1..], currentSection);
      } else {
        assert it in items;
        var row := Row(t.SectionOf(it) != currentSection, it);
        currentSection := t.SectionOf(it);
        ghost var rest := Rows(t, items[l + 1..], currentSection);
        assert rows == [row] + rest;
        RowStep(t, row, rest, ws, wf);
        var text := PrintRow(t, row, ws, wf);
        Assoc(out, text, RowsText(t, rest, ws, wf));
        out := out + text;
      }
    }
  }

  lemma RowStep(t: Table, row: Row, rest: seq<Row>, ws: nat, wf: nat)
    requires AllRowsShown(t, [row] + rest)
    ensures row in [row] + rest && AllRowsShown(t, rest)
    ensures RowsText(t, [row] + rest, ws, wf) == RowText(t, row, ws, wf) + RowsText(t, rest, ws, wf)
  {
    assert ([row] + rest)[0] == row && ([row] + rest)[1..] == rest;
    assert forall r :: r in rest ==> r in [row] + rest;
  }

  // ---------- what the reader sees

  function VisibleOf(items: seq<Item>): (r: seq<Item>)
    ensures forall it :: it in r <==> it in items && Visible(it)
  {
    if items == [] then []
    else if Visible(items[0]) then [items[0]] + VisibleOf(items[1..]) else VisibleOf(items[1..])
  }

  function SectionBefore(t: Table, seen: seq<Item>, i: nat, current: int): int
    requires i < |seen|
  {
    if i == 0 then current else t.SectionOf(seen[i - 1])
  }

  /** One row for each item of `seen`, with a header exactly when its section differs from the one before. */
  ghost predicate RowsMatch(t: Table, rows: seq<Row>, seen: seq<Item>, current: int) {
    && |rows| == |seen|
    && forall i {:trigger rows[i]} :: 0 <= i < |rows| ==>
         rows[i] == Row(t.SectionOf(seen[i]) != SectionBefore(t, seen, i, current), seen[i])
  }

  /** The rows are the visible items in order, and a header is printed at each change of section. */
  lemma {:induction false} RowsOfItems(t: Table, items: seq<Item>, current: int)
    ensures RowsMatch(t, Rows(t, items, current), VisibleOf(items), current)
  {
    if items != [] {
      var next := if Visible(items[0]) then t.SectionOf(items[0]) else current;
      RowsOfItems(t, items[1..], next);
      if Visible(items[0]) {
        MatchCons(t, items[0], Rows(t, items[1..], next), VisibleOf(items[1..]), current);
      }
    }
  }

  lemma MatchCons(t: Table, it: Item, rows: seq<Row>, seen: seq<Item>, current: int)
    requires RowsMatch(t, rows, seen, t.SectionOf(it))
    ensures RowsMatch(t, [Row(t.SectionOf(it) != current, it)] + rows, [it] + seen, current)
  {
    forall i | 1 <= i < |rows| + 1
      ensures SectionBefore(t, [it] + seen, i, current) == SectionBefore(t, seen, i - 1, t.SectionOf(it))
    {
    }
  }

  lemma {:induction false} VisibleSorted(t: Table, items: seq<Item>)
    requires Sorted(items, BySection(t))
    ensures Sorted(VisibleOf(items), BySection(t))
  {
    if items != [] {
      VisibleSorted(t, items[1..]);
      var seen := VisibleOf(items[1..]);
      forall j | 0 <= j < |seen| ensures BySection(t)(items[0], seen[j]) { assert seen[j] in items[1..]; }
    }
  }

  /** In rows that ascend, the first row of a section is the only one with a header. */
  lemma HeaderIsFirst(t: Table, rows: seq<Row>, seen: seq<Item>, h: nat, i: nat)
    requires RowsMatch(t, rows, seen, -1) && Sorted(seen, BySection(t))
    requires h < |rows| && i < |rows| && t.SectionOf(seen[h]) == t.SectionOf(seen[i]) >= 0
    requires h > 0 ==> t.SectionOf(seen[h - 1]) != t.SectionOf(seen[h])
    requires h <= i
    ensures rows[i].header <==> i == h
  {
    assert SectionBefore(t, seen, i, -1) == if i == 0 then -1 else t.SectionOf(seen[i - 1]);
    if h < i - 1 {
      assert BySection(t)(seen[h], seen[i - 1]) && BySection(t)(seen[i - 1], seen[i]);
    }
  }

  lemma FirstOfSection(t: Table, seen: seq<Item>, k: nat) returns (h: nat)
    requires k < |seen|
    ensures h <= k && t.SectionOf(seen[h]) == t.SectionOf(seen[k])
    ensures forall i :: 0 <= i < h ==> t.SectionOf(seen[i]) != t.SectionOf(seen[k])
  {
    h := 0;
    while t.SectionOf(seen[h]) != t.SectionOf(seen[k])
      invariant h <= k && forall i :: 0 <= i < h ==> t.SectionOf(seen[i]) != t.SectionOf(seen[k])
      decreases k - h
    {
      h := h + 1;
    }
  }

  /** Every section with a visible item is announced by exactly one row. */
  lemma SectionAnnouncedOnce(t: Table, items: seq<Item>, it: Item) returns (h: nat)
    requires Sorted(items, BySection(t)) && t.AllShown(items)
    requires it in items && Visible(it)
    ensures var rows := Rows(t, items, -1);
            && h < |rows| && t.SectionOf(rows[h].item) == t.SectionOf(it)
            && forall i :: 0 <= i < |rows| && t.SectionOf(rows[i].item) == t.SectionOf(it) ==>
                 (rows[i].header <==> i == h)
  {
    var rows, seen := Rows(t, items, -1), VisibleOf(items);
    RowsOfItems(t, items, -1);
    VisibleSorted(t, items);
    assert it in seen && t.Shown(it);
    var k :| 0 <= k < |seen| && seen[k] == it;
    h := FirstOfSection(t, seen, k);
    assert h > 0 ==> t.SectionOf(seen[h - 1]) != t.SectionOf(seen[h]);
    forall i | 0 <= i < |rows| && t.SectionOf(rows[i].item) == t.SectionOf(it)
      ensures rows[i].header <==> i == h
    {
      assert rows[i].item == seen[i];
      HeaderIsFirst(t, rows, seen, h, i);
    }
  }

  /** Whatever the names, the value column starts where its continuation lines are indented to. */
  lemma ColumnsAlign(t: Table, row: Row, ws: nat, wf: nat)
    requires t.Shown(row.item)
    ensures |Lead(t, row, ws, wf)| == |Indent(ws, wf)| == ws + wf + 7
    ensures var lead := Lead(t, row, ws, wf);
            && lead[2..2 + ws] == (if row.header then PadRight(t.SectionName(row.item), ws) else PadLeft("", ws))
            && lead[ws + 5..ws + 5 + wf] == PadLeft(t.FieldName(row.item), wf)
  {
  }

  /** No name is cut: every item of pass two was measured in pass one. */
  lemma NamesNotCut(t: Table, items: seq<Item>, it: Item, ws: nat, wf: nat)
    requires t.AllShown(items) && it in items && Visible(it)
    requires IsLongest(items, SectionLength(t), ws) && IsLongest(items, FieldLength(t), wf)
    ensures t.SectionName(it) <= PadRight(t.SectionName(it), ws)
    ensures |t.FieldName(it)| <= wf && PadLeft(t.FieldName(it), wf)[wf - |t.FieldName(it)|..] == t.FieldName(it)
  {
    assert Measured(it) && t.Shown(it);
    assert SectionLength(t)(it) <= ws && FieldLength(t)(it) <= wf;
  }
}
