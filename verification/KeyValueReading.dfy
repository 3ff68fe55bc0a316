/** Reading the key-value output back: with the width of the key column known, every line gives its key and value. */
module KeyValueReading {
  import opened Text
  import opened OutputItems
  import opened KeyValueOutput

  function TrimBlanks(s: string): string {
    if s != "" && s[|s| - 1] == ' ' then TrimBlanks(s[..|s| - 1]) else s
  }

  /** The first `width` characters without trailing blanks, and what follows " : "; other lines have no value. */
  function ReadLine(t: string, width: nat): Line {
    if |t| < width + 3 || t[width..width + 3] != " : " then Line(t, "")
    else Line(TrimBlanks(t[..width]), t[width + 3..])
  }

  function ReadLines(ts: seq<string>, width: nat): (r: seq<Line>)
    ensures |r| == |ts| && forall i :: 0 <= i < |r| ==> r[i] == ReadLine(ts[i], width)
  {
    seq(|ts|, i requires 0 <= i < |ts| => ReadLine(ts[i], width))
  }

  /** The lines of a text that ends with a newline. */
  function ReadText(t: string, width: nat): seq<Line> {
    var ps := Pieces(t, '\n');
    ReadLines(ps[..|ps| - 1], width)
  }

  /** A line that can be read back: one line of text, with a key that does not end with a blank. */
  predicate Readable(l: Line) {
    '\n' !in l.key && '\n' !in l.value && l.key != "" && l.key[|l.key| - 1] != ' '
  }

  lemma {:induction false} TrimPadding(key: string, n: nat)
    requires key != "" && key[|key| - 1] != ' '
    ensures TrimBlanks(key + Repeat(' ', n)) == key
  {
    if n == 0 {
      assert key + Repeat(' ', 0) == key;
    } else {
      var s := key + Repeat(' ', n);
      assert s[..|s| - 1] == key + Repeat(' ', n - 1);
      TrimPadding(key, n - 1);
    }
  }

  lemma ReadLineBack(l: Line, w: nat)
    requires Readable(l) && |l.key| <= w
    ensures ReadLine(PadRight(l.key, w) + " : " + l.value, w) == l
    ensures '\n' !in PadRight(l.key, w) + " : " + l.value
  {
    var t := PadRight(l.key, w) + " : " + l.value;
    assert Cut(l.key, w) == l.key;
    TrimPadding(l.key, w - |l.key|);
    assert t[..w] == PadRight(l.key, w) && t[w..w + 3] == " : " && t[w + 3..] == l.value;
  }

  /** The printed lines are read back as they were. */
  lemma {:induction false} ReadTextBack(ls: seq<Line>, w: nat)
    requires forall l :: l in ls ==> Readable(l) && |l.key| <= w
    ensures ReadText(LinesText(ls, w), w) == ls
  {
    hide ReadText, ReadLine, LinesText, PadRight;
    if ls == [] {
      ReadNothing(w);
    } else {
      var l, rest := ls[0], ls[1..];
      assert l in ls && forall x :: x in rest ==> x in ls;
      ReadTextBack(rest, w);
      ReadLineBack(l, w);
      assert ls == [l] + rest;
      TextOfCons(l, rest, w);
      ReadFirstLine(PadRight(l.key, w) + " : " + l.value, LinesText(rest, w), w);
    }
  }

  lemma ReadNothing(w: nat)
    ensures ReadText(LinesText([], w), w) == []
  {
  }

  lemma TextOfCons(l: Line, rest: seq<Line>, w: nat)
    ensures LinesText([l] + rest, w) == (PadRight(l.key, w) + " : " + l.value) + ['\n'] + LinesText(rest, w)
  {
    LinesTextConcat([l], rest, w);
    LinesTextSnoc([], l, w);
    assert [] + [l] == [l] && "" + LineText(l, w) == LineText(l, w);
  }

  lemma ReadFirstLine(line: string, tail: string, w: nat)
    requires '\n' !in line
    ensures ReadText(line + ['\n'] + tail, w) == [ReadLine(line, w)] + ReadText(tail, w)
  {
    PiecesCons(line, tail, '\n');
    var ps := Pieces(tail, '\n');
    assert ([line] + ps)[..|ps|] == [line] + ps[..|ps| - 1];
  }

  // ---------- the lines of the printer are readable

  lemma {:induction false} DecimalIsOneLine(n: nat)
    ensures '\n' !in Decimal(n)
  {
    if n >= 10 {
      DecimalIsOneLine(n / 10);
      assert DIGITS[n % 10] != '\n' by { assert forall i :: 0 <= i < 10 ==> DIGITS[i] != '\n'; }
    } else {
      assert forall i :: 0 <= i < 10 ==> DIGITS[i] != '\n';
    }
  }

  lemma ValueKeyReadable(key: string, n: nat, value: string)
    requires '\n' !in key && '\n' !in value
    ensures Readable(Line(ValueKey(key, n), value))
  {
    DecimalIsOneLine(n);
    assert '\n' !in KEY_ARRAY_VALUE_SUFFIX;
  }

  lemma ItemLinesReadable(fields: seq<FieldInfo>, it: Item, escape: string -> string)
    requires Readable(Line(KeyOf(fields, it), "")) && forall s :: '\n' !in escape(s)
    ensures forall l :: l in ItemLines(fields, it, escape) ==> Readable(l)
  {
    var key := KeyOf(fields, it);
    var ls := ItemLines(fields, it, escape);
    forall i | 0 <= i < |ls| ensures Readable(ls[i]) {
      if it.Multiple? && it.values.Some? && it.values.value != [] {
        var vs := it.values.value;
        if i == 0 {
          DecimalIsOneLine(|vs|);
          assert '\n' !in KEY_ARRAY_LENGTH_SUFFIX;
        } else {
          ValueKeyReadable(key, i, escape(vs[i - 1]));
          assert ls[i] == Line(ValueKey(key, i), escape(vs[i - 1]));
        }
      }
    }
  }

  lemma {:induction false} AllLinesReadable(fields: seq<FieldInfo>, items: seq<Item>, escape: string -> string)
    requires forall it :: it in items ==> Readable(Line(KeyOf(fields, it), ""))
    requires forall s :: '\n' !in escape(s)
    ensures forall l :: l in Lines(fields, items, escape) ==> Readable(l)
  {
    if items != [] {
      var n := |items| - 1;
      assert items[n] in items && forall it :: it in items[..n] ==> it in items;
      AllLinesReadable(fields, items[..n], escape);
      ItemLinesReadable(fields, items[n], escape);
    }
  }

  /** The key-value dump is read back as the lines of its items, with whole keys, for the width the printer
      measured. */
  lemma KeyValueReadsBack(fields: seq<FieldInfo>, items: seq<Item>, escape: string -> string, w: nat)
    requires forall it :: it in items ==> Readable(Line(KeyOf(fields, it), ""))
    requires forall s :: '\n' !in escape(s)
    requires IsWidth(Lines(fields, items, escape), w)
    ensures ReadText(LinesText(Lines(fields, items, escape), w), w) == Lines(fields, items, escape)
  {
    AllLinesReadable(fields, items, escape);
    var ls := Lines(fields, items, escape);
    assert forall l :: l in ls ==> exists i :: 0 <= i < |ls| && ls[i] == l;
    ReadTextBack(ls, w);
  }
}
