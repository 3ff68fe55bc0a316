/** The items collected for output, and how values enter them. */
module OutputItems {
  import opened Wrappers
  import opened Text

  /** A row of the field table: the dotted key, the name people see, the section people see it in. */
  datatype FieldInfo = FieldInfo(key: string, name: string, section: int)

  datatype Item =
    | Single(field: nat, value: Option<string>)
    | Multiple(field: nat, values: Option<seq<string>>, multiline: bool, isObject: bool)
    | ListItem(field: nat, prefix: string, text: string, extra: string)

  /** The values that mean "nothing to show". */
  predicate FilterOut(value: string) { value == "unknown" || value == "none" }

  /** What output_item_new_take_single keeps. */
  function KeptSingle(value: Option<string>): Option<string> {
    if value.Some? && FilterOut(value.value) then None else value
  }

  /** What output_item_new_take_multiple keeps. */
  function KeptMultiple(values: Option<seq<string>>): Option<seq<string>> {
    if values.Some? && |values.value| == 1 && FilterOut(values.value[0]) then None else values
  }

  /** A value is dropped when it is missing, "unknown" or "none"; a list when it is missing or holds one of these
      two alone. Everything else is kept as it is. */
  lemma KeptMeans(value: Option<string>, values: Option<seq<string>>)
    ensures KeptSingle(value) == if value in [None, Some("unknown"), Some("none")] then None else value
    ensures KeptMultiple(values) == if values in [None, Some(["unknown"]), Some(["none"])] then None else values
  {
    assert values.Some? && |values.value| == 1 ==> values.value == [values.value[0]];
  }

  // ---------- comma-separated lists

  /** GLib's g_ascii_isspace, which leaves the vertical tab out. */
  predicate IsSpace(c: char) {
    c == ' ' || c == '\t' || c == '\n' || c == '\r' || c as int == 0x0c
  }

  /** GLib's g_strchug: drops leading white space. */
  function Chug(s: string): (r: string)
    ensures r != "" ==> !IsSpace(r[0])
    ensures forall c :: c in r ==> c in s
    ensures s == "" || !IsSpace(s[0]) ==> r == s
  {
    if s != "" && IsSpace(s[0]) then Chug(s[1..]) else s
  }

  /** GLib's g_strchomp: drops trailing white space. */
  function Chomp(s: string): (r: string)
    ensures r <= s
    ensures r != "" ==> !IsSpace(r[|r| - 1])
    ensures s == "" || !IsSpace(s[|s| - 1]) ==> r == s
  {
    if s != "" && IsSpace(s[|s| - 1]) then Chomp(s[..|s| - 1]) else s
  }

  /** GLib's g_strstrip. */
  function Strip(s: string): string { Chomp(Chug(s)) }

  predicate Trimmed(s: string) {
    s == "" || (!IsSpace(s[0]) && !IsSpace(s[|s| - 1]))
  }

  function StripAll(parts: seq<string>): (r: seq<string>)
    ensures |r| == |parts| && forall i :: 0 <= i < |r| ==> r[i] == Strip(parts[i])
  {
    seq(|parts|, i requires 0 <= i < |parts| => Strip(parts[i]))
  }

  /** The list that mmcli_output_string_list stores for a string. */
  function ListOf(str: Option<string>): Option<seq<string>> {
    match str
    case None => KeptMultiple(None)
    case Some(s) => KeptMultiple(Some(StripAll(Split(s, ','))))
  }

  /** The strip loop of mmcli_output_string_list, in place. */
  method StripParts(parts: array<string>)
    modifies parts
    ensures parts[..] == StripAll(old(parts[..]))
  {
    var i := 0;
    while i < parts.Length
      invariant 0 <= i <= parts.Length
      invariant forall k :: 0 <= k < i ==> parts[k] == Strip(old(parts[k]))
      invariant forall k :: i <= k < parts.Length ==> parts[k] == old(parts[k])
    {
      parts[i] := Strip(parts[i]);
      i := i + 1;
    }
  }

  /** Tab, newline, form feed, carriage return, blank. */
  const SPACES: set<int> := {9, 10, 12, 13, 32}

  ghost predicate AllSpaces(s: string) { forall c :: c in s ==> c as int in SPACES }

  /** Stripping takes white space off both ends, and all of it. */
  lemma StripMeans(s: string) returns (front: string, back: string)
    ensures s == front + Strip(s) + back && AllSpaces(front) && AllSpaces(back)
    ensures var r := Strip(s); r != "" ==> r[0] as int !in SPACES && r[|r| - 1] as int !in SPACES
  {
    front := ChugMeans(s);
    back := ChompMeans(Chug(s));
    Assoc(front, Strip(s), back);
    StripTrimmed(s);
  }

  lemma {:induction false} ChugMeans(s: string) returns (front: string)
    ensures s == front + Chug(s) && AllSpaces(front)
  {
    front := "";
    if s != "" && IsSpace(s[0]) {
      front := ChugMeans(s[1..]);
      assert s == [s[0]] + s[1..];
      front := [s[0]] + front;
    }
  }

  lemma {:induction false} ChompMeans(s: string) returns (back: string)
    ensures s == Chomp(s) + back && AllSpaces(back)
  {
    back := "";
    if s != "" && IsSpace(s[|s| - 1]) {
      var n := |s| - 1;
      back := ChompMeans(s[..n]);
      assert s == s[..n] + [s[n]];
      back := back + [s[n]];
    }
  }

  /** The vertical tab stays. */
  lemma VerticalTabStays()
    ensures var tab: string := [0x0b as char]; Strip(tab) == tab && ListOf(Some(tab)) == Some([tab])
  {
    var tab: string := [0x0b as char];
    StripTrimmed(tab);
    PiecesOfFree(tab, ',');
    assert StripAll([tab]) == [tab];
  }

  lemma StripTrimmed(s: string)
    ensures Trimmed(Strip(s)) && (Trimmed(s) ==> Strip(s) == s)
    ensures forall c :: c in Strip(s) ==> c in s
  {
    assert forall c :: c in Strip(s) ==> c in Chug(s);
  }

  lemma StripSpaced(s: string)
    requires Trimmed(s)
    ensures Strip(" " + s) == s
  {
    assert (" " + s)[1..] == s;
    StripTrimmed(s);
  }

  /** The pieces of a ", "-joined list: the first value, then every value after a blank. */
  lemma {:induction false} PiecesOfList(vs: seq<string>)
    requires vs != [] && forall v :: v in vs ==> ',' !in v
    ensures var ps := Pieces(Join(vs, ", "), ',');
            |ps| == |vs| && ps[0] == vs[0] && forall i :: 1 <= i < |ps| ==> ps[i] == " " + vs[i]
  {
    if |vs| == 1 {
      PiecesOfFree(vs[0], ',');
    } else {
      var rest := Join(vs[1..], ", ");
      PiecesOfList(vs[1..]);
      PiecesCons(vs[0], " " + rest, ',');
      assert vs[0] + ", " + rest == vs[0] + [','] + (" " + rest);
      assert (" " + rest)[1..] == rest;
      assert forall i :: 1 <= i < |vs| ==> vs[i] == vs[1..][i - 1];
    }
  }

  /** The single values that do not survive: nothing, and the two that are filtered out. */
  predicate LostSingle(vs: seq<string>) {
    vs == [""] || vs == ["unknown"] || vs == ["none"]
  }

  /** A non-empty list printed as people see it is stored as the same list exactly when its values
      are trimmed, hold no comma, and are not a lost single value. */
  lemma ListFieldRoundTrip(vs: seq<string>)
    requires vs != []
    ensures ListOf(Some(Join(vs, ", "))) == Some(vs)
       <==> (forall v :: v in vs ==> ',' !in v && Trimmed(v)) && !LostSingle(vs)
  {
    var text := Join(vs, ", ");
    if (forall v :: v in vs ==> ',' !in v && Trimmed(v)) && !LostSingle(vs) {
      PiecesOfList(vs);
      var ps := Pieces(text, ',');
      forall i | 0 <= i < |vs| ensures Strip(ps[i]) == vs[i] {
        assert vs[i] in vs;
        StripTrimmed(vs[i]);
        if i > 0 { StripSpaced(vs[i]); }
      }
      assert StripAll(ps) == vs;
      if |vs| > 1 { assert text != ""; }
    } else if ListOf(Some(text)) == Some(vs) {
      assert vs == [""] ==> text == "";
      var ps := Split(text, ',');
      PiecesFree(text, ',');
      forall v | v in vs ensures ',' !in v && Trimmed(v) {
        var i :| 0 <= i < |vs| && vs[i] == v;
        assert v == Strip(ps[i]) && ps[i] in ps;
        StripTrimmed(ps[i]);
      }
    }
  }
}
