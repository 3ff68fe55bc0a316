/** Prefixing the lines of a text that is shown in a column. */
module PrefixNewlines {
  import opened Wrappers
  import opened Text

  /** A line without the one carriage return that may end it. */
  function ChopCr(line: string): (r: string)
    ensures r <= line
  {
    if line != "" && line[|line| - 1] == '\r' then line[..|line| - 1] else line
  }

  /** The lines that are kept: chopped, and not empty then. */
  function Kept(lines: seq<string>): (r: seq<string>)
    ensures forall l :: l in r ==> l != ""
  {
    if lines == [] then []
    else if ChopCr(lines[0]) == "" then Kept(lines[1..])
    else [ChopCr(lines[0])] + Kept(lines[1..])
  }

  /** What the result is: the kept lines joined by a newline and the prefix, or the text itself if there is none. */
  function Prefixed(prefix: string, str: string): string {
    var kept := Kept(Pieces(str, '\n'));
    if kept == [] then str else Join(kept, "\n" + prefix)
  }

  /** strchr: the first newline from `start` on, or the end of the text. */
  method FindNewline(str: string, start: nat) returns (end: nat)
    requires start <= |str|
    ensures start <= end <= |str| && '\n' !in str[start..end]
    ensures end < |str| ==> str[end] == '\n'
  {
    end := start;
    while end < |str| && str[end] != '\n'
      invariant start <= end <= |str| && '\n' !in str[start..end]
    {
      assert str[start..end + 1] == str[start..end] + [str[end]];
      end := end + 1;
    }
  }

  lemma PiecesAt(str: string, start: nat, end: nat)
    requires start <= end <= |str| && '\n' !in str[start..end]
    requires end < |str| ==> str[end] == '\n'
    ensures Pieces(str[start..], '\n')
         == if end < |str| then [str[start..end]] + Pieces(str[end + 1..], '\n') else [str[start..end]]
  {
    if end < |str| {
      assert str[start..] == str[start..end] + ['\n'] + str[end + 1..];
      PiecesCons(str[start..end], str[end + 1..], '\n');
    } else {
      assert str[start..] == str[start..end];
      PiecesOfFree(str[start..end], '\n');
    }
  }

  lemma KeptCons(line: string, lines: seq<string>)
    ensures Kept([line] + lines) == if ChopCr(line) == "" then Kept(lines) else [ChopCr(line)] + Kept(lines)
  {
    assert ([line] + lines)[1..] == lines;
  }

  /** The kept lines of the text from `start` on; none when the last line has been read. */
  function KeptFrom(str: string, start: nat): seq<string> {
    if start > |str| then [] else Kept(Pieces(str[start..], '\n'))
  }

  lemma KeptStep(str: string, start: nat, end: nat)
    requires start <= end <= |str| && '\n' !in str[start..end]
    requires end < |str| ==> str[end] == '\n'
    ensures var line := ChopCr(str[start..end]);
            KeptFrom(str, start) == (if line == "" then [] else [line]) + KeptFrom(str, end + 1)
  {
    hide Pieces, ChopCr;
    var piece := str[start..end];
    var rest := if end < |str| then Pieces(str[end + 1..], '\n') else [];
    PiecesAt(str, start, end);
    KeptCons(piece, rest);
    assert [piece] + [] == [piece];
    assert Kept(rest) == KeptFrom(str, end + 1);
    assert [] + Kept(rest) == Kept(rest);
  }

  lemma KeptBounds(str: string)
    ensures KeptFrom(str, 0) == Kept(Pieces(str, '\n'))
    ensures forall end: nat :: end > |str| ==> KeptFrom(str, end) == []
  {
    assert str[0..] == str;
  }

  lemma TakeLine(done: seq<string>, line: string, rest: seq<string>)
    ensures done + ([line] + rest) == (done + [line]) + rest
  {
  }

  /** mmcli_prefix_newlines. For an empty line the source looks at the byte before it; `before` is the byte
      before the text, and the result does not depend on it. */
  method PrefixLines(prefix: string, str: string, before: char) returns (result: string)
    ensures result == Prefixed(prefix, str)
  {
    hide KeptFrom, ChopCr, Join;
    var prefixedString: Option<string> := None;
    var lineStart, more := 0, true;
    ghost var done: seq<string> := [];
    KeptBounds(str);
    while more
      invariant 0 <= lineStart && (more <==> lineStart <= |str|)
      invariant KeptFrom(str, 0) == done + KeptFrom(str, lineStart)
      invariant prefixedString == if done == [] then None else Some(Join(done, "\n" + prefix))
      decreases |str| + 1 - lineStart
    {
      var lineEnd := FindNewline(str, lineStart);
      KeptStep(str, lineStart, lineEnd);
      var lineLength := ChoppedLength(str, lineStart, lineEnd, before);
      if lineLength > 0 {
        prefixedString := AppendLine(prefixedString, prefix, str[lineStart..lineStart + lineLength], done);
        TakeLine(done, str[lineStart..lineStart + lineLength], KeptFrom(str, lineEnd + 1));
        done := done + [str[lineStart..lineStart + lineLength]];
      } else {
        assert [] + KeptFrom(str, lineEnd + 1) == KeptFrom(str, lineEnd + 1);
      }
      more := lineEnd < |str|;
      lineStart := lineEnd + 1;
    }
    assert done + [] == done;
    result := if prefixedString.Some? then prefixedString.value else str;
  }

  /** The length of a line without a final carriage return; not positive when nothing is left. */
  method ChoppedLength(str: string, lineStart: nat, lineEnd: nat, before: char) returns (lineLength: int)
    requires lineStart <= lineEnd <= |str|
    ensures lineLength <= lineEnd - lineStart
    ensures lineLength > 0 ==> str[lineStart..lineStart + lineLength] == ChopCr(str[lineStart..lineEnd])
    ensures lineLength <= 0 ==> ChopCr(str[lineStart..lineEnd]) == ""
  {
    lineLength := lineEnd - lineStart;
    var last := if lineEnd > 0 then str[lineEnd - 1] else before;
    if last == '\r' {
      lineLength := lineLength - 1;
    }
  }

  /** Appends one line to the buffer, which the first line creates. */
  method AppendLine(buffer: Option<string>, prefix: string, line: string, ghost done: seq<string>)
    returns (r: Option<string>)
    requires buffer == if done == [] then None else Some(Join(done, "\n" + prefix))
    ensures r == Some(Join(done + [line], "\n" + prefix))
  {
    var text := "";
    if buffer.Some? {
      text := buffer.value + ("\n" + prefix);
      JoinSnoc(done, line, "\n" + prefix);
    } else {
      assert done + [line] == [line];
    }
    assert "" + line == line;
    r := Some(text + line);
  }

  // ---------- which lines are kept

  /** One carriage return (byte 13) at the end of a line is cut off, and nothing else. */
  lemma ChopMeans(line: string)
    ensures ChopCr(line + [13 as char]) == line
    ensures (line == "" || line[|line| - 1] as int != 13) ==> ChopCr(line) == line
  {
  }

  /** A line is kept exactly when it is not empty and is there with a carriage return, or without one at its end. */
  lemma {:induction false} KeptMeans(lines: seq<string>, l: string)
    ensures l in Kept(lines) <==>
              l != "" && (l + [13 as char] in lines || (l in lines && l[|l| - 1] as int != 13))
  {
    if lines != [] {
      var line := lines[0];
      KeptMeans(lines[1..], l);
      assert forall x :: x in lines <==> x == line || x in lines[1..];
      if line != "" && line[|line| - 1] as int == 13 {
        assert line == line[..|line| - 1] + [13 as char];
        ChopMeans(line[..|line| - 1]);
      }
      ChopMeans(l);
    }
  }

  /** Lines are kept in order and as often as they are there. */
  lemma {:induction false} KeptConcat(a: seq<string>, b: seq<string>)
    ensures Kept(a + b) == Kept(a) + Kept(b)
  {
    if a == [] {
      assert a + b == b;
    } else {
      assert (a + b)[1..] == a[1..] + b;
      KeptConcat(a[1..], b);
    }
  }

  // ---------- reading the lines back

  /** Takes the prefix off a line. */
  function Unprefix(prefix: string, line: string): string {
    if prefix <= line then line[|prefix|..] else line
  }

  function UnprefixRest(prefix: string, lines: seq<string>): (r: seq<string>)
    ensures |r| == |lines|
    ensures forall i :: 0 <= i < |r| ==> r[i] == if i == 0 then lines[0] else Unprefix(prefix, lines[i])
  {
    seq(|lines|, i requires 0 <= i < |lines| => if i == 0 then lines[0] else Unprefix(prefix, lines[i]))
  }

  lemma {:induction false} SplitPrefixed(prefix: string, lines: seq<string>)
    requires lines != [] && '\n' !in prefix && forall l :: l in lines ==> '\n' !in l
    ensures var ps := Pieces(Join(lines, "\n" + prefix), '\n');
            |ps| == |lines| && ps[0] == lines[0] && forall i :: 1 <= i < |ps| ==> ps[i] == prefix + lines[i]
  {
    if |lines| == 1 {
      PiecesOfFree(lines[0], '\n');
    } else {
      var sep := "\n" + prefix;
      var rest := Join(lines[1..], sep);
      SplitPrefixed(prefix, lines[1..]);
      assert Join(lines, sep) == lines[0] + ['\n'] + (prefix + rest);
      PiecesCons(lines[0], prefix + rest, '\n');
      PiecesPrefix(prefix, rest);
      assert forall i :: 1 <= i < |lines| ==> lines[i] == lines[1..][i - 1];
    }
  }

  lemma {:induction false} PiecesPrefix(p: string, t: string)
    requires '\n' !in p
    ensures var ps, qs := Pieces(p + t, '\n'), Pieces(t, '\n');
            |ps| == |qs| && ps[0] == p + qs[0] && forall i :: 1 <= i < |ps| ==> ps[i] == qs[i]
  {
    if p == "" {
      assert p + t == t;
    } else {
      assert (p + t)[1..] == p[1..] + t;
      PiecesPrefix(p[1..], t);
    }
  }

  lemma {:induction false} KeptFree(lines: seq<string>)
    requires forall l :: l in lines ==> '\n' !in l
    ensures forall l :: l in Kept(lines) ==> '\n' !in l
  {
    if lines != [] {
      KeptFree(lines[1..]);
      assert lines[0] in lines;
    }
  }

  /** With a prefix that has no newline, splitting the result and taking the prefix off every line but the first
      gives the kept lines back. */
  lemma LinesReadBack(prefix: string, str: string)
    requires '\n' !in prefix && Kept(Pieces(str, '\n')) != []
    ensures UnprefixRest(prefix, Pieces(Prefixed(prefix, str), '\n')) == Kept(Pieces(str, '\n'))
  {
    var kept := Kept(Pieces(str, '\n'));
    PiecesFree(str, '\n');
    KeptFree(Pieces(str, '\n'));
    SplitPrefixed(prefix, kept);
    var ps := Pieces(Prefixed(prefix, str), '\n');
    forall i | 1 <= i < |ps| ensures Unprefix(prefix, ps[i]) == kept[i] {
      assert (prefix + kept[i])[|prefix|..] == kept[i];
    }
  }
}
