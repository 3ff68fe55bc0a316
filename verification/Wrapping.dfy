/** The wrapping loop of the human printer. */
module Wrapping {
  import opened Text

  const HUMAN_MAX_VALUE_LENGTH := 60

  /** The length a value is counted with: itself and the ", " after it, if any. */
  function Counted(vs: seq<string>, i: nat): nat
    requires i < |vs|
  {
    |vs[i]| + if i < |vs| - 1 then 2 else 0
  }

  /** The variable `line_length` before the turn for `vs[i]`. */
  function LineLength(vs: seq<string>, multiline: bool, i: nat): nat
    requires i <= |vs|
    decreases i, 0
  {
    if i == 0 || Break(vs, multiline, i - 1) then 0
    else LineLength(vs, multiline, i - 1) + Counted(vs, i - 1)
  }

  /** Whether a line break is printed before `vs[i]`. */
  predicate Break(vs: seq<string>, multiline: bool, i: nat)
    requires i < |vs|
    decreases i, 1
  {
    (multiline && i != 0) || LineLength(vs, multiline, i) + Counted(vs, i) > HUMAN_MAX_VALUE_LENGTH
  }

  function Separator(vs: seq<string>, multiline: bool, i: nat): string
    requires i < |vs|
  {
    if !multiline && i < |vs| - 1 then ", " else ""
  }

  /** The text of the first `i` values, with `newLine` printed for each break. */
  function Layout(vs: seq<string>, multiline: bool, newLine: string, i: nat): string
    requires i <= |vs|
  {
    if i == 0 then ""
    else
      Layout(vs, multiline, newLine, i - 1)
      + (if Break(vs, multiline, i - 1) then newLine else "") + vs[i - 1] + Separator(vs, multiline, i - 1)
  }

  method PrintValues(vs: seq<string>, multiline: bool, newLine: string) returns (out: string)
    ensures out == Layout(vs, multiline, newLine, |vs|)
  {
    out := "";
    var lineLength := 0;
    var n := |vs|;
    for i := 0 to n
      invariant lineLength == LineLength(vs, multiline, i)
      invariant out == Layout(vs, multiline, newLine, i)
    {
      var value := vs[i];
      var valueLength := |value| + if i < n - 1 then 2 else 0;
      if (multiline && i != 0) || lineLength + valueLength > HUMAN_MAX_VALUE_LENGTH {
        lineLength := 0;
        out := out + newLine;
      } else {
        lineLength := lineLength + valueLength;
      }
      out := out + value + if !multiline && i < n - 1 then ", " else "";
    }
  }

  // ---------- nothing is lost

  /** Removes every occurrence of `b`, from the left. */
  function Delete(t: string, b: string): string
    requires b != ""
    decreases |t|
  {
    if b <= t then Delete(t[|b|..], b)
    else if t == "" then ""
    else [t[0]] + Delete(t[1..], b)
  }

  lemma {:induction false} DeleteKeeps(v: string, t: string, b: string)
    requires b != "" && b[0] !in v
    ensures Delete(v + t, b) == v + Delete(t, b)
  {
    if v == "" {
      assert v + t == t && v + Delete(t, b) == Delete(t, b);
    } else {
      assert (v + t)[0] == v[0] && (v + t)[1..] == v[1..] + t;
      DeleteKeeps(v[1..], t, b);
      assert v == [v[0]] + v[1..];
    }
  }

  lemma DeleteBreak(t: string, b: string)
    requires b != ""
    ensures Delete(b + t, b) == Delete(t, b)
  {
    assert (b + t)[|b|..] == t;
  }

  /** The values from `i` on, as one list without breaks; empty when none is left. */
  function JoinFrom(vs: seq<string>, i: nat): string
    requires i <= |vs|
  {
    Join(vs[i..], ", ")
  }

  /** The part of the layout printed from `i` on. */
  function LayoutFrom(vs: seq<string>, newLine: string, i: nat): string
    requires i <= |vs|
    decreases |vs| - i
  {
    if i == |vs| then ""
    else
      (if Break(vs, false, i) then newLine else "")
      + (vs[i] + Separator(vs, false, i)) + LayoutFrom(vs, newLine, i + 1)
  }

  lemma {:induction false} LayoutSplit(vs: seq<string>, newLine: string, i: nat)
    requires i <= |vs|
    ensures Layout(vs, false, newLine, |vs|) == Layout(vs, false, newLine, i) + LayoutFrom(vs, newLine, i)
    decreases |vs| - i
  {
    if i < |vs| {
      LayoutSplit(vs, newLine, i + 1);
      Glue(Layout(vs, false, newLine, i), if Break(vs, false, i) then newLine else "",
           vs[i], Separator(vs, false, i), LayoutFrom(vs, newLine, i + 1));
    }
  }

  lemma Glue(a: string, b: string, v: string, s: string, t: string)
    ensures (a + b + v + s) + t == a + (b + (v + s) + t)
  {
  }

  lemma {:induction false} DeleteBreaksFrom(vs: seq<string>, newLine: string, i: nat)
    requires i <= |vs| && newLine != "" && newLine[0] == '\n'
    requires forall v :: v in vs ==> '\n' !in v
    ensures Delete(LayoutFrom(vs, newLine, i), newLine) == JoinFrom(vs, i)
    decreases |vs| - i
  {
    if i < |vs| {
      var shown, t := vs[i] + Separator(vs, false, i), LayoutFrom(vs, newLine, i + 1);
      DeleteBreaksFrom(vs, newLine, i + 1);
      DeleteKeeps(shown, t, newLine);
      if Break(vs, false, i) {
        DeleteBreak(shown + t, newLine);
        Assoc(newLine, shown, t);
      } else {
        assert "" + shown == shown;
      }
      JoinStep(vs, i);
    }
  }

  lemma JoinStep(vs: seq<string>, i: nat)
    requires i < |vs|
    ensures JoinFrom(vs, i) == (vs[i] + Separator(vs, false, i)) + JoinFrom(vs, i + 1)
  {
    assert vs[i..][1..] == vs[i + 1..];
  }

  /** The layout without its breaks is the values joined by ", ", whatever the values are. */
  lemma WrappingLosesNothing(vs: seq<string>)
    ensures Layout(vs, false, "", |vs|) == Join(vs, ", ")
  {
    LayoutSplit(vs, "", 0);
    LayoutFromJoins(vs, 0);
    assert vs[0..] == vs && "" + LayoutFrom(vs, "", 0) == LayoutFrom(vs, "", 0);
  }

  lemma {:induction false} LayoutFromJoins(vs: seq<string>, i: nat)
    requires i <= |vs|
    ensures LayoutFrom(vs, "", i) == JoinFrom(vs, i)
    decreases |vs| - i
  {
    if i < |vs| {
      LayoutFromJoins(vs, i + 1);
      JoinStep(vs, i);
      assert "" + (vs[i] + Separator(vs, false, i)) == vs[i] + Separator(vs, false, i);
    }
  }

  /** A reader who sees the text alone can delete the breaks, if no value has a newline. */
  lemma DeletingBreaks(vs: seq<string>, newLine: string)
    requires newLine != "" && newLine[0] == '\n' && forall v :: v in vs ==> '\n' !in v
    ensures Delete(Layout(vs, false, newLine, |vs|), newLine) == Join(vs, ", ")
  {
    LayoutSplit(vs, newLine, 0);
    DeleteBreaksFrom(vs, newLine, 0);
    assert vs[0..] == vs && "" + LayoutFrom(vs, newLine, 0) == LayoutFrom(vs, newLine, 0);
  }

  lemma OneMore(a: string, b: string, c: string, d: string)
    ensures (a + b) + c + d + "" == a + (b + c + d)
  {
  }

  /** A multiline list has one value on each line, after a break if the first value alone counts more than 60. */
  lemma {:induction false} MultilineIsOnePerLine(vs: seq<string>, newLine: string, i: nat)
    requires 1 <= i <= |vs|
    ensures Layout(vs, true, newLine, i)
         == (if Counted(vs, 0) > HUMAN_MAX_VALUE_LENGTH then newLine else "") + Join(vs[..i], newLine)
  {
    if i == 1 {
      assert vs[..1] == [vs[0]];
      assert Layout(vs, true, newLine, 0) == "";
    } else {
      var lead, front := if Counted(vs, 0) > HUMAN_MAX_VALUE_LENGTH then newLine else "", vs[..i - 1];
      MultilineIsOnePerLine(vs, newLine, i - 1);
      JoinSnoc(front, vs[i - 1], newLine);
      assert vs[..i] == front + [vs[i - 1]];
      hide Join;
      OneMore(lead, Join(front, newLine), newLine, vs[i - 1]);
    }
  }

  // ---------- where the breaks are

  /** The counted length of `vs[a..b]`. */
  function Total(vs: seq<string>, a: nat, b: nat): nat
    requires a <= b <= |vs|
    decreases b
  {
    if a == b then 0 else Total(vs, a, b - 1) + Counted(vs, b - 1)
  }

  /** The last break before `vs[i]`, if any. */
  function LastBreak(vs: seq<string>, i: nat): (s: int)
    requires i <= |vs|
    ensures -1 <= s < i
    ensures s >= 0 ==> Break(vs, false, s)
    ensures forall k :: s < k < i ==> !Break(vs, false, k)
  {
    if i == 0 then -1 else if Break(vs, false, i - 1) then i - 1 else LastBreak(vs, i - 1)
  }

  lemma {:induction false} LengthSinceBreak(vs: seq<string>, i: nat)
    requires i <= |vs|
    ensures LineLength(vs, false, i) == Total(vs, LastBreak(vs, i) + 1, i)
  {
    if i > 0 && !Break(vs, false, i - 1) { LengthSinceBreak(vs, i - 1); }
  }

  /** A break is printed before a value exactly when the values since the last break, without the one that
      follows that break, would pass 60 with it. */
  lemma BreakExactly(vs: seq<string>, i: nat)
    requires i < |vs|
    ensures Break(vs, false, i) <==> Total(vs, LastBreak(vs, i) + 1, i + 1) > HUMAN_MAX_VALUE_LENGTH
  {
    LengthSinceBreak(vs, i);
  }

  // ---------- the printed lines

  function Shown(vs: seq<string>, i: nat): (r: string)
    requires i < |vs|
    ensures |r| == Counted(vs, i)
  {
    vs[i] + Separator(vs, false, i)
  }

  /** The lines of the first `i` values. */
  function Lines(vs: seq<string>, i: nat): (r: seq<string>)
    requires i <= |vs|
    ensures r != []
  {
    if i == 0 then [""]
    else
      var ls := Lines(vs, i - 1);
      if Break(vs, false, i - 1) then ls + [Shown(vs, i - 1)]
      else
        var n := |ls| - 1;
        ls[..n] + [ls[n] + Shown(vs, i - 1)]
  }

  /** The place of the value each line begins with. */
  function Starts(vs: seq<string>, i: nat): (r: seq<nat>)
    requires i <= |vs|
    ensures |r| == |Lines(vs, i)| && forall k :: 1 <= k < |r| ==> r[k] < i && Break(vs, false, r[k])
  {
    if i == 0 then [0]
    else if Break(vs, false, i - 1) then Starts(vs, i - 1) + [i - 1] else Starts(vs, i - 1)
  }

  lemma NoLines(vs: seq<string>, newLine: string)
    ensures Lines(vs, 0) == [""] && Starts(vs, 0) == [0] && LineLength(vs, false, 0) == 0
    ensures Layout(vs, false, newLine, 0) == Join([""], newLine)
  {
  }

  /** One more value starts a line after a break, and otherwise goes to the end of the last line. */
  lemma LinesStep(vs: seq<string>, i: nat)
    requires i < |vs|
    ensures var ls, ls' := Lines(vs, i), Lines(vs, i + 1);
            && |ls| <= |ls'|
            && (forall k :: 0 <= k < |ls| - 1 ==> ls'[k] == ls[k])
            && (forall k :: 0 <= k < |ls| ==> Starts(vs, i + 1)[k] == Starts(vs, i)[k])
            && if Break(vs, false, i) then ls' == ls + [Shown(vs, i)] && Starts(vs, i + 1)[|ls|] == i
               else |ls'| == |ls| && ls' == ls[..|ls| - 1] + [ls[|ls| - 1] + Shown(vs, i)]
    ensures LineLength(vs, false, i + 1) == if Break(vs, false, i) then 0 else LineLength(vs, false, i) + Counted(vs, i)
    ensures !Break(vs, false, i) ==> LineLength(vs, false, i + 1) <= HUMAN_MAX_VALUE_LENGTH
  {
    hide Shown, Counted;
  }

  lemma JoinExtend(front: seq<string>, a: string, b: string, sep: string)
    ensures Join(front + [a + b], sep) == Join(front + [a], sep) + b
  {
    if front != [] {
      JoinSnoc(front, a + b, sep);
      JoinSnoc(front, a, sep);
      Assoc(Join(front, sep) + sep, a, b);
    }
  }

  /** The printed text is its lines, with a break between them. */
  lemma {:induction false} LayoutIsLines(vs: seq<string>, newLine: string, i: nat)
    requires i <= |vs|
    ensures Layout(vs, false, newLine, i) == Join(Lines(vs, i), newLine)
  {
    hide Join, Shown, Layout, Lines, Break, LineLength, Starts, Counted;
    if i == 0 {
      NoLines(vs, newLine);
    } else {
      LayoutIsLines(vs, newLine, i - 1);
      LayoutStep(vs, newLine, i - 1);
      LinesStep(vs, i - 1);
      var ls, shown := Lines(vs, i - 1), Shown(vs, i - 1);
      var n := |ls| - 1;
      assert ls == ls[..n] + [ls[n]];
      if Break(vs, false, i - 1) {
        JoinSnoc(ls, shown, newLine);
      } else {
        JoinExtend(ls[..n], ls[n], shown, newLine);
      }
    }
  }

  lemma LayoutStep(vs: seq<string>, newLine: string, i: nat)
    requires i < |vs|
    ensures Layout(vs, false, newLine, i + 1)
         == if Break(vs, false, i) then Layout(vs, false, newLine, i) + newLine + Shown(vs, i)
            else Layout(vs, false, newLine, i) + Shown(vs, i)
  {
    var text, b := Layout(vs, false, newLine, i), if Break(vs, false, i) then newLine else "";
    Assoc(text + b, vs[i], Separator(vs, false, i));
    assert text + "" == text;
  }

  /** The counter is the length of the last line, without the value that the line begins with after a break. */
  lemma {:induction false} LastLine(vs: seq<string>, i: nat)
    requires i <= |vs|
    ensures LineLength(vs, false, i) <= HUMAN_MAX_VALUE_LENGTH
    ensures var n := |Lines(vs, i)| - 1;
            |Lines(vs, i)[n]| == LineLength(vs, false, i) + if n == 0 then 0 else Counted(vs, Starts(vs, i)[n])
  {
    hide Shown, Counted, Lines, Starts, LineLength, Break, Layout;
    if i > 0 {
      LastLine(vs, i - 1);
      LinesStep(vs, i - 1);
    } else {
      NoLines(vs, "");
    }
  }

  /** Every line but the first begins with the value after its break. */
  lemma {:induction false} LineBegins(vs: seq<string>, i: nat, k: nat)
    requires i <= |vs| && 1 <= k < |Lines(vs, i)|
    ensures Shown(vs, Starts(vs, i)[k]) <= Lines(vs, i)[k]
  {
    hide Shown, Counted, Lines, Starts, LineLength, Break, Layout;
    NoLines(vs, "");
    LinesStep(vs, i - 1);
    if k < |Lines(vs, i - 1)| { LineBegins(vs, i - 1, k); }
  }

  /** The first line is at most 60 long; every later line is at most 60 longer than the value after its break is
      counted. */
  lemma {:induction false} LinesBounded(vs: seq<string>, i: nat, k: nat)
    requires i <= |vs| && k < |Lines(vs, i)|
    ensures |Lines(vs, i)[k]| <= HUMAN_MAX_VALUE_LENGTH + if k == 0 then 0 else Counted(vs, Starts(vs, i)[k])
  {
    hide Counted, Lines, Starts, LineLength, Break, Layout;
    NoLines(vs, "");
    if k == |Lines(vs, i)| - 1 {
      LastLine(vs, i);
    } else {
      LinesStep(vs, i - 1);
      LinesBounded(vs, i - 1, k);
    }
  }

  lemma NoNewlineInLines(vs: seq<string>, i: nat)
    requires i <= |vs| && forall v :: v in vs ==> '\n' !in v
    ensures forall l :: l in Lines(vs, i) ==> '\n' !in l
  {
    if i > 0 {
      NoNewlineInLines(vs, i - 1);
      assert vs[i - 1] in vs;
    }
  }

  /** The bound is reached for a value of any length: here the second line begins with a value of length `n`
      and is exactly 60 longer than that is counted. */
  lemma BoundReached(n: nat)
    ensures var vs := [Repeat('a', 58), Repeat('b', n), Repeat('c', 60)];
            && |Lines(vs, 3)| == 2 && Starts(vs, 3)[1] == 1
            && |Lines(vs, 3)[0]| == HUMAN_MAX_VALUE_LENGTH
            && |Lines(vs, 3)[1]| == HUMAN_MAX_VALUE_LENGTH + Counted(vs, 1)
  {
    var vs := [Repeat('a', 58), Repeat('b', n), Repeat('c', 60)];
    assert !Break(vs, false, 0) && LineLength(vs, false, 1) == 60;
    assert Break(vs, false, 1) && LineLength(vs, false, 2) == 0;
    assert !Break(vs, false, 2);
    assert |Lines(vs, 0)| == 1 && |Lines(vs, 1)| == 1 && |Lines(vs, 1)[0]| == 60;
    assert Lines(vs, 2) == Lines(vs, 1) + [Shown(vs, 1)];
    assert Starts(vs, 2) == Starts(vs, 1) + [1];
  }
}
