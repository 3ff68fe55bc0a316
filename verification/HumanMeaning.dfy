/** What the human dump is, said of its text alone. */
module HumanMeaning {
  import opened Wrappers
  import opened Text
  import opened StableSort
  import opened OutputItems
  import opened HumanOutput
  import Wrapping

  /** An item with something to show: a text that is not empty, or at least one value. */
  predicate HasContent(it: Item) {
    match it
    case Single(_, Some(v)) => v != ""
    case Multiple(_, Some(vs), _, _) => |vs| > 0
    case _ => false
  }

  /** An item with a value, even an empty one; its names count for the columns. */
  predicate HasValue(it: Item) {
    match it
    case Single(_, value) => value != None
    case Multiple(_, values, _, _) => values != None
    case ListItem(_, _, _, _) => true
  }

  /** The section of an item and the two names, looked up in the tables. */
  function Section(t: Table, it: Item): int
    requires it.field < |t.fields|
  {
    t.fields[it.field].section
  }

  /** The columns are as wide as the longest names of items with a value, and empty without any. */
  ghost predicate AreWidths(t: Table, items: seq<Item>, ws: nat, wf: nat)
    requires t.AllShown(items)
  {
    && (forall it :: it in items && HasValue(it) ==>
          |t.sections[Section(t, it)]| <= ws && |t.fields[it.field].name| <= wf)
    && (ws > 0 ==> exists it :: it in items && HasValue(it) && |t.sections[Section(t, it)]| == ws)
    && (wf > 0 ==> exists it :: it in items && HasValue(it) && |t.fields[it.field].name| == wf)
  }

  lemma WidthsMean(t: Table, items: seq<Item>, ws: nat, wf: nat)
    requires t.AllShown(items) && IsLongest(items, SectionLength(t), ws) && IsLongest(items, FieldLength(t), wf)
    ensures AreWidths(t, items, ws, wf)
  {
    forall it | it in items
      ensures SectionLength(t)(it) == |t.sections[Section(t, it)]| && FieldLength(t)(it) == |t.fields[it.field].name|
    {
      assert t.Shown(it);
    }
  }

  /** What stands before the value of an item. At the start of a section a rule of at most sixty dashes and the
      name of the section, elsewhere blanks; then the name of the field, moved to the right. */
  function Front(t: Table, it: Item, header: bool, ws: nat, wf: nat): string
    requires it.field < |t.fields| && 0 <= Section(t, it) < |t.sections|
    requires |t.sections[Section(t, it)]| <= ws && |t.fields[it.field].name| <= wf
  {
    var section, name := t.sections[Section(t, it)], t.fields[it.field].name;
    (if header then "  " + Repeat('-', Min(60, ws + wf + 4)) + "\n  " + section + Repeat(' ', ws - |section|)
     else "  " + Repeat(' ', ws))
    + " | " + Repeat(' ', wf - |name|) + name + ": "
  }

  lemma DashesAre(n: nat)
    ensures Cut(DASHES, n) == Repeat('-', Min(60, n))
  {
    assert forall i :: 0 <= i < 10 ==> TEN_DASHES[i] == '-';
    assert |DASHES| == 60 && forall i :: 0 <= i < 60 ==> DASHES[i] == '-';
  }

  lemma RowTextMeans(t: Table, row: Row, ws: nat, wf: nat)
    requires t.Shown(row.item) && Visible(row.item)
    requires |t.SectionName(row.item)| <= ws && |t.FieldName(row.item)| <= wf
    ensures RowText(t, row, ws, wf) == Front(t, row.item, row.header, ws, wf) + Body(row.item, ws, wf)
  {
    hide Body, Rule, Lead, Front;
    FrontMeans(t, row, ws, wf);
  }

  lemma FrontMeans(t: Table, row: Row, ws: nat, wf: nat)
    requires t.Shown(row.item)
    requires |t.SectionName(row.item)| <= ws && |t.FieldName(row.item)| <= wf
    ensures Rule(row, ws, wf) + Lead(t, row, ws, wf) == Front(t, row.item, row.header, ws, wf)
  {
    hide DASHES, TEN_DASHES, PadRight, PadLeft, Cut, Repeat;
    var section, name := t.SectionName(row.item), t.FieldName(row.item);
    Padded(section, ws);
    Padded(name, wf);
    Padded("", ws);
    DashesAre(ws + wf + 4);
    HeaderText(Repeat('-', Min(60, ws + wf + 4)), section, Repeat(' ', ws - |section|), Repeat(' ', wf - |name|), name);
    PlainText(Repeat(' ', ws), Repeat(' ', wf - |name|), name);
  }

  lemma Padded(s: string, w: nat)
    requires |s| <= w
    ensures PadRight(s, w) == s + Repeat(' ', w - |s|)
    ensures PadLeft(s, w) == Repeat(' ', w - |s|) + s
    ensures s == "" ==> PadLeft(s, w) == Repeat(' ', w)
  {
    assert Cut(s, w) == s;
  }

  lemma HeaderText(rule: string, section: string, blanks: string, left: string, name: string)
    ensures ("  " + rule + "\n") + ("  " + (section + blanks) + " | " + (left + name) + ": ")
         == ("  " + rule + "\n  " + section + blanks) + " | " + left + name + ": "
  {
    assert "\n" + "  " == "\n  ";
  }

  lemma PlainText(blanks: string, left: string, name: string)
    ensures "" + ("  " + blanks + " | " + (left + name) + ": ") == ("  " + blanks) + " | " + left + name + ": "
  {
  }

  // ---------- the rows of a dump

  /** `order` are the items with content, each as often as in `items`, by section and by field inside a section. */
  ghost predicate IsOrder(t: Table, items: seq<Item>, order: seq<Item>) {
    && (forall it :: multiset(order)[it] == if HasContent(it) then multiset(items)[it] else 0)
    && (forall it :: it in order ==> it.field < |t.fields|)
    && forall i, j :: 0 <= i < j < |order| ==>
         || Section(t, order[i]) < Section(t, order[j])
         || (Section(t, order[i]) == Section(t, order[j]) && order[i].field <= order[j].field)
  }

  lemma {:induction false} RowItems(t: Table, items: seq<Item>, it: Item)
    requires forall x :: x in items ==> !x.ListItem?
    ensures multiset(VisibleOf(items))[it] == if HasContent(it) then multiset(items)[it] else 0
  {
    hide Visible, HasContent;
    if items != [] {
      ContentIsVisible(items[0]);
      RowItems(t, items[1..], it);
      assert items == [items[0]] + items[1..];
      assert Visible(items[0]) ==> VisibleOf(items) == [items[0]] + VisibleOf(items[1..]);
    }
  }

  lemma ContentIsVisible(it: Item)
    requires !it.ListItem?
    ensures Visible(it) <==> HasContent(it)
  {
  }

  lemma OrderOfRows(t: Table, items: seq<Item>)
    requires t.AllShown(items)
    ensures IsOrder(t, items, VisibleOf(Sort(items, BySection(t))))
  {
    var sorted := Sort(items, BySection(t));
    BySectionPreorder(t);
    SortCorrect(items, BySection(t));
    VisibleSorted(t, sorted);
    forall it | it in sorted ensures t.Shown(it) { assert it in multiset(sorted); }
    forall it ensures multiset(VisibleOf(sorted))[it] == if HasContent(it) then multiset(items)[it] else 0 {
      RowItems(t, sorted, it);
    }
    var order := VisibleOf(sorted);
    forall i, j | 0 <= i < j < |order|
      ensures order[i].field < |t.fields| && order[j].field < |t.fields|
      ensures Section(t, order[i]) < Section(t, order[j])
           || (Section(t, order[i]) == Section(t, order[j]) && order[i].field <= order[j].field)
    {
      assert order[i] in sorted && order[j] in sorted;
      assert BySection(t)(order[i], order[j]);
    }
  }

  /** The rows come by section, and by field inside a section. */
  lemma RowsAscend(t: Table, items: seq<Item>, i: nat, j: nat)
    requires t.AllShown(items) && i < j < |Rows(t, Sort(items, BySection(t)), -1)|
    ensures var rows := Rows(t, Sort(items, BySection(t)), -1);
            && rows[i].item.field < |t.fields| && rows[j].item.field < |t.fields|
            && (|| Section(t, rows[i].item) < Section(t, rows[j].item)
                || (Section(t, rows[i].item) == Section(t, rows[j].item) && rows[i].item.field <= rows[j].item.field))
  {
    var sorted := Sort(items, BySection(t));
    OrderOfRows(t, items);
    RowsOfItems(t, sorted, -1);
    var order := VisibleOf(sorted);
    assert order[i] in order && order[j] in order;
  }

  // ---------- the whole text

  /** A part is the text of one item: the front, with a header exactly at the first item and at each change of
      section, and the value column. */
  ghost predicate IsPart(t: Table, order: seq<Item>, ws: nat, wf: nat, k: nat, part: string)
    requires k < |order|
  {
    && t.Shown(order[k]) && Visible(order[k])
    && |t.sections[Section(t, order[k])]| <= ws && |t.fields[order[k].field].name| <= wf
    && part == Front(t, order[k], HeaderAt(t, order, k), ws, wf) + Body(order[k], ws, wf)
  }

  ghost predicate AreParts(t: Table, order: seq<Item>, ws: nat, wf: nat, parts: seq<string>) {
    |parts| == |order| && forall k :: 0 <= k < |order| ==> IsPart(t, order, ws, wf, k, parts[k])
  }

  predicate HeaderAt(t: Table, order: seq<Item>, k: nat)
    requires k < |order|
  {
    k == 0 || order[k].field >= |t.fields| || order[k - 1].field >= |t.fields|
    || Section(t, order[k]) != Section(t, order[k - 1])
  }

  lemma {:induction false} TextOfRows(t: Table, rows: seq<Row>, ws: nat, wf: nat, parts: seq<string>)
    requires AllRowsShown(t, rows) && |parts| == |rows|
    requires forall k :: 0 <= k < |rows| ==> parts[k] == RowText(t, rows[k], ws, wf)
    ensures RowsText(t, rows, ws, wf) == Join(parts, "")
  {
    hide RowText;
    if rows != [] {
      TextOfRows(t, rows[1..], ws, wf, parts[1..]);
      assert parts[0] + "" == parts[0];
      if |rows| == 1 { assert rows[1..] == [] && RowsText(t, rows[1..], ws, wf) == ""; }
    }
  }

  lemma RowIsPart(t: Table, items: seq<Item>, ws: nat, wf: nat, k: nat)
    requires t.AllShown(items) && AreWidths(t, items, ws, wf) && k < |VisibleOf(items)|
    ensures |Rows(t, items, -1)| == |VisibleOf(items)| && Rows(t, items, -1)[k].item == VisibleOf(items)[k]
    ensures t.Shown(VisibleOf(items)[k]) && Visible(VisibleOf(items)[k])
    ensures IsPart(t, VisibleOf(items), ws, wf, k, RowText(t, Rows(t, items, -1)[k], ws, wf))
  {
    hide RowText, Front, Body, Rows, AreWidths, VisibleOf;
    var rows, order := Rows(t, items, -1), VisibleOf(items);
    RowsOfItems(t, items, -1);
    assert rows[k].item == order[k];
    assert order[k] in order && order[k] in items && t.Shown(order[k]);
    WidthsOf(t, items, ws, wf, order[k]);
    assert rows[k].header == HeaderAt(t, order, k) by {
      if k > 0 { assert order[k - 1] in order && order[k - 1] in items && t.Shown(order[k - 1]); }
    }
    RowTextMeans(t, rows[k], ws, wf);
  }

  lemma WidthsOf(t: Table, items: seq<Item>, ws: nat, wf: nat, it: Item)
    requires t.AllShown(items) && AreWidths(t, items, ws, wf) && it in items && Visible(it)
    ensures |t.SectionName(it)| <= ws && |t.FieldName(it)| <= wf
  {
    assert t.Shown(it) && HasValue(it);
  }

  /** The whole dump of collected items: `text` is its parts one after the other, one for each item with content, by
      section and field, with columns as wide as the longest names. */
  lemma HumanDumpMeans(t: Table, items: seq<Item>, text: string)
    returns (ws: nat, wf: nat, order: seq<Item>, parts: seq<string>)
    requires t.AllShown(items) && IsHumanText(t, Sort(items, BySection(t)), text)
    ensures AreWidths(t, items, ws, wf)
    ensures IsOrder(t, items, order)
    ensures AreParts(t, order, ws, wf, parts)
    ensures text == Join(parts, "")
  {
    hide RowText, IsPart, Rows, VisibleOf, RowsText, Sort, IsOrder, IsLongest;
    var sorted := Sort(items, BySection(t));
    var rows := Rows(t, sorted, -1);
    order := VisibleOf(sorted);
    ws, wf :| IsLongest(sorted, SectionLength(t), ws) && IsLongest(sorted, FieldLength(t), wf)
              && text == RowsText(t, rows, ws, wf);
    SameItems(t, items);
    WidthsMean(t, sorted, ws, wf);
    OrderOfRows(t, items);
    RowsOfItems(t, sorted, -1);
    parts := seq(|rows|, k requires 0 <= k < |rows| => assert rows[k] in rows; RowText(t, rows[k], ws, wf));
    TextOfRows(t, rows, ws, wf, parts);
    forall k | 0 <= k < |order| ensures IsPart(t, order, ws, wf, k, parts[k]) {
      RowIsPart(t, sorted, ws, wf, k);
    }
  }

  lemma SameItems(t: Table, items: seq<Item>)
    requires t.AllShown(items)
    ensures var sorted := Sort(items, BySection(t));
            t.AllShown(sorted) && forall it :: it in items <==> it in sorted
  {
    var sorted := Sort(items, BySection(t));
    BySectionPreorder(t);
    SortCorrect(items, BySection(t));
    forall it ensures it in items <==> it in sorted {
      assert (it in items <==> it in multiset(items)) && (it in sorted <==> it in multiset(sorted));
    }
  }

  // ---------- the value column

  /** Continuation lines are indented to the value column. */
  function Margin(ws: nat, wf: nat): string {
    "  " + Repeat(' ', ws) + " | " + Repeat(' ', wf) + "  "
  }

  lemma IndentIsMargin(ws: nat, wf: nat)
    ensures Indent(ws, wf) == Margin(ws, wf)
  {
    assert Cut("", ws) == "" && Cut("", wf) == "";
  }

  /** A text has its lines below each other; a list is wrapped, and without its breaks is the values with ", " between
      them; a multiline list has one value on each line. */
  lemma BodyMeans(it: Item, ws: nat, wf: nat)
    requires Visible(it) && !it.ListItem?
    ensures var newLine := "\n" + Margin(ws, wf);
            match it
            case Single(_, value) => Body(it, ws, wf) == Join(Pieces(value.value, '\n'), newLine) + "\n"
            case Multiple(_, values, multiline, _) =>
              var vs := values.value;
              if multiline then
                Body(it, ws, wf) == (if Wrapping.Counted(vs, 0) > 60 then newLine else "") + Join(vs, newLine) + "\n"
              else
                Body(it, ws, wf) == Join(Wrapping.Lines(vs, |vs|), newLine) + "\n"
                && Join(Wrapping.Lines(vs, |vs|), "") == Join(vs, ", ")
  {
    IndentIsMargin(ws, wf);
    if it.Multiple? {
      var vs := it.values.value;
      if it.multiline {
        Wrapping.MultilineIsOnePerLine(vs, "\n" + Indent(ws, wf), |vs|);
        assert vs[..|vs|] == vs;
      } else {
        Wrapping.LayoutIsLines(vs, "\n" + Indent(ws, wf), |vs|);
        Wrapping.LayoutIsLines(vs, "", |vs|);
        Wrapping.WrappingLosesNothing(vs);
      }
    }
  }
}
