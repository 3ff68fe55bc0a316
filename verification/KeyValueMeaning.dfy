/** What the key-value dump is, said of its text alone. */
module KeyValueMeaning {
  import opened Wrappers
  import opened Text
  import opened StableSort
  import opened OutputItems
  import opened KeyValueOutput
  import opened KeyValueReading

  /** The lines of one item: a present text under its key, "--" for a missing one; for an array its length and its
      values with indices from one on; "--" for an array that is empty or missing. */
  ghost predicate IsBlock(fields: seq<FieldInfo>, it: Item, escape: string -> string, ls: seq<Line>)
    requires it.field < |fields|
  {
    var key := fields[it.field].key;
    match it
    case Single(_, Some(v)) => ls == [Line(key, escape(v))]
    case Single(_, None) => ls == [Line(key, "--")]
    case Multiple(_, None, _, _) => ls == [Line(key, "--")]
    case Multiple(_, Some(vs), _, _) =>
      if |vs| == 0 then ls == [Line(key, "--")]
      else
        && |ls| == |vs| + 1
        && ls[0] == Line(key + ".length", Decimal(|vs|))
        && forall i :: 1 <= i <= |vs| ==> ls[i] == Line(key + ".value[" + Decimal(i) + "]", escape(vs[i - 1]))
    case ListItem(_, _, _, _) => false
  }

  lemma BlockMeans(fields: seq<FieldInfo>, it: Item, escape: string -> string)
    requires it.field < |fields| && !it.ListItem?
    ensures IsBlock(fields, it, escape, ItemLines(fields, it, escape))
  {
    if it.Multiple? && it.values.Some? && |it.values.value| > 0 {
      var key, vs, ls := fields[it.field].key, it.values.value, ItemLines(fields, it, escape);
      forall i | 1 <= i <= |vs| ensures ls[i] == Line(key + ".value[" + Decimal(i) + "]", escape(vs[i - 1])) {
        ValueKeyMeans(key, i);
        assert ls[i] == ValueLines(key, vs, escape)[i - 1];
      }
    }
  }

  lemma ValueKeyMeans(key: string, i: nat)
    ensures ValueKey(key, i) == key + ".value[" + Decimal(i) + "]"
  {
    assert ".value" + "[" == ".value[";
  }

  function Flat(blocks: seq<seq<Line>>): seq<Line> {
    if blocks == [] then [] else Flat(blocks[..|blocks| - 1]) + blocks[|blocks| - 1]
  }

  /** One block for each item, in the order of the items. */
  ghost predicate AreBlocks(fields: seq<FieldInfo>, order: seq<Item>, escape: string -> string, blocks: seq<seq<Line>>) {
    && |blocks| == |order|
    && forall k :: 0 <= k < |order| ==> order[k].field < |fields| && IsBlock(fields, order[k], escape, blocks[k])
  }

  lemma {:induction false} BlocksOfLines(fields: seq<FieldInfo>, items: seq<Item>, escape: string -> string)
    returns (blocks: seq<seq<Line>>)
    requires AllKeyed(fields, items)
    ensures AreBlocks(fields, items, escape, blocks)
    ensures Lines(fields, items, escape) == Flat(blocks)
  {
    hide IsBlock, ItemLines;
    blocks := [];
    if items != [] {
      var n := |items| - 1;
      assert items[n] in items && forall it :: it in items[..n] ==> it in items;
      var front := BlocksOfLines(fields, items[..n], escape);
      BlockMeans(fields, items[n], escape);
      blocks := front + [ItemLines(fields, items[n], escape)];
      assert blocks[..n] == front;
    }
  }

  /** The items, each as often as it was collected, in the order of their fields. */
  ghost predicate IsOrder(items: seq<Item>, order: seq<Item>) {
    multiset(order) == multiset(items) && forall i, j :: 0 <= i < j < |order| ==> order[i].field <= order[j].field
  }

  lemma OrderOfSort(items: seq<Item>)
    ensures IsOrder(items, Sort(items, ByField()))
    ensures forall it :: it in Sort(items, ByField()) <==> it in items
  {
    var order := Sort(items, ByField());
    SortCorrect(items, ByField());
    forall i, j | 0 <= i < j < |order| ensures order[i].field <= order[j].field {
      assert ByField()(order[i], order[j]);
    }
    forall it ensures it in order <==> it in items {
      assert (it in items <==> it in multiset(items)) && (it in order <==> it in multiset(order));
    }
  }

  /** The column is as wide as its longest key. */
  ghost predicate IsColumn(ls: seq<Line>, w: nat) {
    && (forall i :: 0 <= i < |ls| ==> |ls[i].key| <= w)
    && (w > 0 ==> exists i :: 0 <= i < |ls| && |ls[i].key| == w)
  }

  /** Each printed line is a key, blanks up to the column, " : " and a value. */
  ghost predicate AreTexts(ls: seq<Line>, w: nat, texts: seq<string>) {
    && |texts| == |ls|
    && forall i :: 0 <= i < |ls| ==>
         |ls[i].key| <= w && texts[i] == ls[i].key + Repeat(' ', w - |ls[i].key|) + " : " + ls[i].value + "\n"
  }

  lemma {:induction false} TextsOfLines(ls: seq<Line>, w: nat) returns (texts: seq<string>)
    requires forall i :: 0 <= i < |ls| ==> |ls[i].key| <= w
    ensures AreTexts(ls, w, texts) && LinesText(ls, w) == Join(texts, "")
  {
    hide LineText, LinesText, Join, Repeat;
    texts := [];
    if ls == [] {
      NoText(w);
    } else {
      var n := |ls| - 1;
      var front := TextsOfLines(ls[..n], w);
      var last := LineText(ls[n], w);
      LineMeans(ls[n], w);
      LinesTextStep(ls, n, w);
      assert ls[..n + 1] == ls;
      texts := front + [last];
      OneMoreText(front, last);
    }
  }

  lemma NoText(w: nat)
    ensures LinesText([], w) == Join([], "")
  {
  }

  lemma LineMeans(l: Line, w: nat)
    requires |l.key| <= w
    ensures LineText(l, w) == l.key + Repeat(' ', w - |l.key|) + " : " + l.value + "\n"
  {
    assert Cut(l.key, w) == l.key;
  }

  lemma OneMoreText(front: seq<string>, last: string)
    ensures Join(front + [last], "") == Join(front, "") + last
  {
    if front != [] {
      JoinSnoc(front, last, "");
      assert Join(front, "") + "" == Join(front, "");
    } else {
      assert [] + [last] == [last] && "" + last == last;
    }
  }

  /** The list form: a length line and a line for each value; with no value only the bare key and a zero. */
  lemma ListDumpMeans(key: string, vs: seq<string>, w: nat) returns (texts: seq<string>)
    requires w == if |vs| > 0 then |ValueKey(key, |vs|)| else |key|
    ensures vs == [] ==> LinesText(ListLines(key, vs), w) == key + " : 0\n"
    ensures vs != [] ==> IsColumn(ListLines(key, vs), w) && AreTexts(ListLines(key, vs), w, texts)
    ensures vs != [] ==> LinesText(ListLines(key, vs), w) == Join(texts, "")
    ensures var ls := ListLines(key, vs);
            && |ls| == |vs| + 1 && ls[0] == Line(key + ".length", Decimal(|vs|))
            && forall i :: 1 <= i <= |vs| ==> ls[i] == Line(key + ".value[" + Decimal(i) + "]", vs[i - 1])
  {
    var ls := ListLines(key, vs);
    ListWidthExact(key, vs, w);
    texts := [];
    if vs == [] {
      assert Decimal(0) == "0" by { assert DIGITS[0] == '0'; }
      assert ls == [ls[0]] && ls[..0] == [];
      assert LinesText(ls, w) == "" + LineText(ls[0], w);
    } else {
      texts := TextsOfLines(ls, w);
    }
    forall i | 1 <= i <= |vs| ensures ls[i] == Line(key + ".value[" + Decimal(i) + "]", vs[i - 1]) {
      ValueKeyMeans(key, i);
    }
  }

  /** The whole dump of collected items: their blocks in the order of the fields, with nothing else, in a column as
      wide as the longest key. */
  lemma KeyValueDumpMeans(fields: seq<FieldInfo>, items: seq<Item>, escape: string -> string, text: string)
    returns (order: seq<Item>, blocks: seq<seq<Line>>, w: nat, texts: seq<string>)
    requires AllKeyed(fields, items) && IsKeyValueText(fields, Sort(items, ByField()), escape, text)
    ensures IsOrder(items, order) && AreBlocks(fields, order, escape, blocks)
    ensures IsColumn(Flat(blocks), w) && AreTexts(Flat(blocks), w, texts)
    ensures text == Join(texts, "")
    ensures (forall it :: it in items ==> Readable(Line(fields[it.field].key, ""))) && (forall s :: '\n' !in escape(s)) ==>
              ReadText(text, w) == Flat(blocks)
  {
    hide IsBlock, LinesText, Lines, ReadText, Sort;
    order := Sort(items, ByField());
    OrderOfSort(items);
    var ls := Lines(fields, order, escape);
    w :| IsWidth(ls, w) && text == LinesText(ls, w);
    blocks := BlocksOfLines(fields, order, escape);
    texts := TextsOfLines(ls, w);
    if (forall it :: it in items ==> Readable(Line(fields[it.field].key, ""))) && (forall s :: '\n' !in escape(s)) {
      KeyValueReadsBack(fields, order, escape, w);
    }
  }
}
