/** Reading the value column of the human output back. */
module HumanReading {
  import opened Wrappers
  import opened Text
  import opened OutputItems
  import opened HumanOutput
  import Wrapping
  import opened PrefixNewlines

  lemma IndentIsOneLine(ws: nat, wf: nat)
    ensures '\n' !in Indent(ws, wf)
  {
    assert Cut("", ws) == "" && Cut("", wf) == "";
  }

  /** A text value: splitting its column at newlines and taking the indentation off every line but the first
      gives the lines of the value; the last piece is what follows the final newline. */
  lemma SingleReadsBack(it: Item, ws: nat, wf: nat)
    requires it.Single? && Visible(it)
    ensures var ps := Pieces(Body(it, ws, wf), '\n');
            && ps[|ps| - 1] == ""
            && UnprefixRest(Indent(ws, wf), ps[..|ps| - 1]) == Pieces(it.value.value, '\n')
  {
    var lines, indent := Pieces(it.value.value, '\n'), Indent(ws, wf);
    IndentIsOneLine(ws, wf);
    PiecesFree(it.value.value, '\n');
    SplitPrefixed(indent, lines);
    var ps := Pieces(Join(lines, "\n" + indent), '\n');
    PiecesOfLine(Join(lines, "\n" + indent));
    assert (ps + [""])[..|ps|] == ps;
    forall i | 1 <= i < |ps| ensures Unprefix(indent, ps[i]) == lines[i] {
      assert (indent + lines[i])[|indent|..] == lines[i];
    }
  }

  lemma {:induction false} PiecesOfLine(t: string)
    ensures Pieces(t + "\n", '\n') == Pieces(t, '\n') + [""]
  {
    if t != "" {
      assert (t + "\n")[1..] == t[1..] + "\n";
      PiecesOfLine(t[1..]);
    }
  }

  /** A list value: without its breaks, the printed text is stored as the same list, exactly for lists of
      trimmed values without commas that are not a lost single value. */
  lemma ListReadsBack(vs: seq<string>, ws: nat, wf: nat)
    requires vs != [] && forall v :: v in vs ==> '\n' !in v
    ensures var newLine := "\n" + Indent(ws, wf);
            ListOf(Some(Wrapping.Delete(Wrapping.Layout(vs, false, newLine, |vs|), newLine))) == Some(vs)
            <==> (forall v :: v in vs ==> ',' !in v && Trimmed(v)) && !LostSingle(vs)
  {
    Wrapping.DeletingBreaks(vs, "\n" + Indent(ws, wf));
    ListFieldRoundTrip(vs);
  }

  /** The printed list, split at newlines, is its lines behind the indentation: the first one at most 60 long, each
      later one at most the indentation, the value after its break as it is counted, and 60 more. */
  lemma PrintedLinesBounded(vs: seq<string>, ws: nat, wf: nat, k: nat)
    requires forall v :: v in vs ==> '\n' !in v
    requires k < |Wrapping.Lines(vs, |vs|)|
    ensures var ps := Pieces(Wrapping.Layout(vs, false, "\n" + Indent(ws, wf), |vs|), '\n');
            && |ps| == |Wrapping.Lines(vs, |vs|)|
            && ps[k] == (if k == 0 then "" else Indent(ws, wf)) + Wrapping.Lines(vs, |vs|)[k]
            && |ps[k]| <= Wrapping.HUMAN_MAX_VALUE_LENGTH
                          + if k == 0 then 0
                            else |Indent(ws, wf)| + Wrapping.Counted(vs, Wrapping.Starts(vs, |vs|)[k])
  {
    var lines := Wrapping.Lines(vs, |vs|);
    IndentIsOneLine(ws, wf);
    Wrapping.NoNewlineInLines(vs, |vs|);
    Wrapping.LayoutIsLines(vs, "\n" + Indent(ws, wf), |vs|);
    SplitPrefixed(Indent(ws, wf), lines);
    Wrapping.LinesBounded(vs, |vs|, k);
    assert "" + lines[0] == lines[0];
  }
}
