/** The key-value printer: a first pass for the width of the key column, a second one that prints. */
module KeyValueOutput {
  import opened Text
  import opened OutputItems

  const KEY_ARRAY_LENGTH_SUFFIX := ".length"
  const KEY_ARRAY_VALUE_SUFFIX := ".value"

  /** list_sort_keyvalue: by field. */
  function ByField(): (Item, Item) -> bool {
    (a: Item, b: Item) => a.field <= b.field
  }

  ghost predicate AllKeyed(fields: seq<FieldInfo>, items: seq<Item>) {
    forall it :: it in items ==> it.field < |fields| && !it.ListItem?
  }

  // ---------- pass one

  /** The loop that divides by ten counts the decimal digits, less one. */
  method ExtraDigits(n: nat) returns (extra: nat)
    ensures extra == |Decimal(n)| - 1
  {
    extra := 0;
    var aux := n / 10;
    while aux > 0
      invariant 0 <= aux
      invariant |Decimal(n)| - 1 == extra + if aux > 0 then |Decimal(aux)| else 0
      decreases aux
    {
      extra := extra + 1;
      aux := aux / 10;
    }
  }

  /** The room that pass one reserves for the keys of an array of `n` values. */
  method ArrayKeyLength(key: string, n: nat) returns (keyLength: nat)
    ensures keyLength == if n > 0 then |ValueKey(key, n)| else |key|
  {
    keyLength := |key|;
    if n > 0 {
      var extra := ExtraDigits(n);
      keyLength := keyLength + |KEY_ARRAY_VALUE_SUFFIX| + 3 + extra;
    }
  }

  // ---------- pass two

  /** The key of the value with (one-based) index `index`. */
  function ValueKey(key: string, index: nat): string {
    key + KEY_ARRAY_VALUE_SUFFIX + "[" + Decimal(index) + "]"
  }

  datatype Line = Line(key: string, value: string)

  function ValueLines(key: string, vs: seq<string>, escape: string -> string): (r: seq<Line>)
    ensures |r| == |vs|
    ensures forall i :: 0 <= i < |r| ==> r[i] == Line(ValueKey(key, i + 1), escape(vs[i]))
  {
    seq(|vs|, i requires 0 <= i < |vs| => Line(ValueKey(key, i + 1), escape(vs[i])))
  }

  /** The lines of an array: its length, then its values; a single "--" when there is none. */
  function ArrayLines(key: string, vs: seq<string>, escape: string -> string): (r: seq<Line>)
    ensures r != []
  {
    if vs == [] then [Line(key, "--")]
    else [Line(key + KEY_ARRAY_LENGTH_SUFFIX, Decimal(|vs|))] + ValueLines(key, vs, escape)
  }

  function KeyOf(fields: seq<FieldInfo>, it: Item): string {
    if it.field < |fields| then fields[it.field].key else ""
  }

  function ItemLines(fields: seq<FieldInfo>, it: Item, escape: string -> string): (r: seq<Line>)
    ensures !it.ListItem? ==> r != []
  {
    match it
    case Single(_, value) => [Line(KeyOf(fields, it), if value.Some? then escape(value.value) else "--")]
    case Multiple(_, values, _, _) =>
      ArrayLines(KeyOf(fields, it), if values.Some? then values.value else [], escape)
    case ListItem(_, _, _, _) => []
  }

  function Lines(fields: seq<FieldInfo>, items: seq<Item>, escape: string -> string): seq<Line> {
    if items == [] then []
    else
      var l := |items| - 1;
      Lines(fields, items[..l], escape) + ItemLines(fields, items[l], escape)
  }

  function LineText(l: Line, width: nat): string {
    PadRight(l.key, width) + " : " + l.value + "\n"
  }

  function LinesText(ls: seq<Line>, width: nat): string {
    if ls == [] then "" else LinesText(ls[..|ls| - 1], width) + LineText(ls[|ls| - 1], width)
  }

  // ---------- the width is exact

  /** `w` is the length of the longest key of `ls`. */
  ghost predicate IsWidth(ls: seq<Line>, w: nat) {
    && (forall i :: 0 <= i < |ls| ==> |ls[i].key| <= w)
    && (if ls == [] then w == 0 else exists i :: 0 <= i < |ls| && |ls[i].key| == w)
  }

  lemma WidthOfBoth(a: seq<Line>, b: seq<Line>, wa: nat, wb: nat)
    requires IsWidth(a, wa) && IsWidth(b, wb) && b != []
    ensures IsWidth(a + b, Max(wa, wb))
  {
    if wa > wb {
      assert a != [];
      var i :| 0 <= i < |a| && |a[i].key| == wa;
      assert (a + b)[i] == a[i];
    } else {
      var i :| 0 <= i < |b| && |b[i].key| == wb;
      assert (a + b)[|a| + i] == b[i];
    }
  }

  /** The last value key is the longest key of an array. */
  lemma ArrayWidth(key: string, vs: seq<string>, escape: string -> string, w: nat)
    requires w == if |vs| > 0 then |ValueKey(key, |vs|)| else |key|
    ensures IsWidth(ArrayLines(key, vs, escape), w)
  {
    var ls := ArrayLines(key, vs, escape);
    if vs == [] {
      assert |ls[0].key| == w;
    } else {
      forall i | 1 <= i < |ls| ensures |ls[i].key| <= w { DecimalLengthMonotone(i, |vs|); }
      assert ls[|vs|].key == ValueKey(key, |vs|);
    }
  }

  lemma LinesSnoc(fields: seq<FieldInfo>, items: seq<Item>, l: nat, escape: string -> string)
    requires l < |items|
    ensures Lines(fields, items[..l + 1], escape)
         == Lines(fields, items[..l], escape) + ItemLines(fields, items[l], escape)
  {
    assert items[..l + 1][..l] == items[..l];
  }

  /** Pass one finds exactly the length of the longest key that pass two prints. */
  method MeasureKeys(fields: seq<FieldInfo>, items: seq<Item>, ghost escape: string -> string)
    returns (longestFieldKey: nat)
    requires AllKeyed(fields, items)
    ensures IsWidth(Lines(fields, items, escape), longestFieldKey)
  {
    longestFieldKey := 0;
    for l := 0 to |items|
      invariant IsWidth(Lines(fields, items[..l], escape), longestFieldKey)
    {
      var it := items[l];
      LinesSnoc(fields, items, l, escape);
      var vs := if it.Multiple? && it.values.Some? then it.values.value else [];
      var keyLength := ArrayKeyLength(fields[it.field].key, |vs|);
      ArrayWidth(fields[it.field].key, vs, escape, keyLength);
      assert IsWidth(ItemLines(fields, it, escape), keyLength) by {
        if it.Single? { assert |ItemLines(fields, it, escape)[0].key| == keyLength; }
      }
      WidthOfBoth(Lines(fields, items[..l], escape), ItemLines(fields, it, escape), longestFieldKey, keyLength);
      if keyLength > longestFieldKey {
        longestFieldKey := keyLength;
      }
    }
    assert items[..|items|] == items;
  }

  /** With the measured width no key is cut, and each is followed by blanks only. */
  lemma KeysNotCut(ls: seq<Line>, w: nat, i: nat)
    requires IsWidth(ls, w) && i < |ls|
    ensures PadRight(ls[i].key, w) == ls[i].key + Repeat(' ', w - |ls[i].key|)
  {
    assert Cut(ls[i].key, w) == ls[i].key;
  }

  // ---------- printing

  lemma LinesTextSnoc(ls: seq<Line>, l: Line, w: nat)
    ensures LinesText(ls + [l], w) == LinesText(ls, w) + LineText(l, w)
  {
    assert (ls + [l])[..|ls|] == ls;
  }

  lemma {:induction false} LinesTextConcat(a: seq<Line>, b: seq<Line>, w: nat)
    ensures LinesText(a + b, w) == LinesText(a, w) + LinesText(b, w)
  {
    if b == [] {
      assert a + b == a;
    } else {
      hide LineText, LinesText;
      var front, last := b[..|b| - 1], b[|b| - 1];
      LinesTextConcat(a, front, w);
      assert b == front + [last] && a + b == (a + front) + [last];
      LinesTextSnoc(a + front, last, w);
      LinesTextSnoc(front, last, w);
      Assoc(LinesText(a, w), LinesText(front, w), LineText(last, w));
    }
  }

  /** One more line of `ls` is printed. */
  lemma LinesTextStep(ls: seq<Line>, i: nat, w: nat)
    requires i < |ls|
    ensures LinesText(ls[..i + 1], w) == LinesText(ls[..i], w) + LineText(ls[i], w)
  {
    assert ls[..i + 1][..i] == ls[..i];
  }

  lemma LinesTextFirst(ls: seq<Line>, w: nat)
    requires ls != []
    ensures LinesText(ls[..1], w) == LineText(ls[0], w)
  {
    assert ls[..1] == [ls[0]];
    LinesTextSnoc([], ls[0], w);
    assert [] + [ls[0]] == [ls[0]] && "" + LineText(ls[0], w) == LineText(ls[0], w);
  }

  method PrintArray(key: string, vs: seq<string>, escape: string -> string, width: nat) returns (out: string)
    ensures out == LinesText(ArrayLines(key, vs, escape), width)
  {
    hide LinesText, LineText, ValueKey, Decimal;
    var n := |vs|;
    ghost var ls := ArrayLines(key, vs, escape);
    LinesTextFirst(ls, width);
    if n > 0 {
      out := LineText(Line(key + KEY_ARRAY_LENGTH_SUFFIX, Decimal(n)), width);
      for i := 0 to n
        invariant out == LinesText(ls[..i + 1], width)
      {
        LinesTextStep(ls, i + 1, width);
        out := out + LineText(Line(ValueKey(key, i + 1), escape(vs[i])), width);
      }
    } else {
      out := LineText(Line(key, "--"), width);
    }
    assert ls[..|ls|] == ls;
  }

  /** What is printed for items in order, with a key column as wide as the longest key. */
  ghost predicate IsKeyValueText(fields: seq<FieldInfo>, items: seq<Item>, escape: string -> string, text: string) {
    exists w: nat :: IsWidth(Lines(fields, items, escape), w) && text == LinesText(Lines(fields, items, escape), w)
  }

  /** Both passes of dump_output_keyvalue, after the sort. */
  method PrintItems(fields: seq<FieldInfo>, items: seq<Item>, escape: string -> string) returns (out: string)
    requires AllKeyed(fields, items)
    ensures IsKeyValueText(fields, items, escape, out)
  {
    var width := MeasureKeys(fields, items, escape);
    out := "";
    for l := 0 to |items|
      invariant out == LinesText(Lines(fields, items[..l], escape), width)
    {
      var it := items[l];
      LinesSnoc(fields, items, l, escape);
      LinesTextConcat(Lines(fields, items[..l], escape), ItemLines(fields, it, escape), width);
      var key := fields[it.field].key;
      var text;
      if it.Single? {
        var line := Line(key, if it.value.Some? then escape(it.value.value) else "--");
        LinesTextSnoc([], line, width);
        assert [] + [line] == [line];
        text := LineText(line, width);
      } else {
        text := PrintArray(key, if it.values.Some? then it.values.value else [], escape, width);
      }
      out := out + text;
    }
    assert items[..|items|] == items;
  }

  // ---------- the list form

  /** The lines of dump_output_list_keyvalue: the length is always printed. */
  function ListLines(key: string, vs: seq<string>): (r: seq<Line>)
    ensures |r| == |vs| + 1
    ensures r[0] == Line(key + KEY_ARRAY_LENGTH_SUFFIX, Decimal(|vs|))
    ensures forall i :: 1 <= i < |r| ==> r[i] == Line(ValueKey(key, i), vs[i - 1])
  {
    [Line(key + KEY_ARRAY_LENGTH_SUFFIX, Decimal(|vs|))] +
    seq(|vs|, i requires 0 <= i < |vs| => Line(ValueKey(key, i + 1), vs[i]))
  }

  method PrintList(key: string, vs: seq<string>) returns (out: string, width: nat)
    ensures width == if |vs| > 0 then |ValueKey(key, |vs|)| else |key|
    ensures out == LinesText(ListLines(key, vs), width)
  {
    hide LinesText, LineText, ListLines, ValueKey, Decimal;
    width := ArrayKeyLength(key, |vs|);
    ghost var ls := ListLines(key, vs);
    LinesTextFirst(ls, width);
    out := LineText(Line(key + KEY_ARRAY_LENGTH_SUFFIX, Decimal(|vs|)), width);
    for n := 0 to |vs|
      invariant out == LinesText(ls[..n + 1], width)
    {
      var line := Line(ValueKey(key, n + 1), vs[n]);
      assert ls[n + 1] == line;
      LinesTextStep(ls, n + 1, width);
      out := out + LineText(line, width);
    }
    assert ls[..|vs| + 1] == ls;
  }

  /** In the list form the width is exact exactly when the list is not empty; the empty list has its
      ".length" cut off. */
  lemma ListWidthExact(key: string, vs: seq<string>, w: nat)
    requires w == if |vs| > 0 then |ValueKey(key, |vs|)| else |key|
    ensures IsWidth(ListLines(key, vs), w) <==> vs != []
    ensures vs == [] ==> PadRight(ListLines(key, vs)[0].key, w) == key
  {
    var ls := ListLines(key, vs);
    if vs == [] {
      assert |ls[0].key| > w;
    } else {
      forall i | 1 <= i < |ls| ensures |ls[i].key| <= w { DecimalLengthMonotone(i, |vs|); }
      assert |ls[|vs|].key| == w;
      assert |ls[0].key| <= w;
    }
  }
}
