/** The list of preferred networks given on the command line: operator codes, each with an optional technology. */
module PreferredNetworks {
  import opened Wrappers
  import opened Text

  /** mm_is_string_mccmnc. */
  predicate IsMccMnc(s: string) {
    5 <= |s| <= 6 && forall c :: c in s ==> '0' <= c <= '9'
  }

  method CheckMccMnc(s: string) returns (r: bool)
    ensures r == IsMccMnc(s)
  {
    if |s| < 5 || |s| > 6 {
      return false;
    }
    var i := 0;
    while i < |s|
      invariant 0 <= i <= |s| && forall k :: 0 <= k < i ==> '0' <= s[k] <= '9'
    {
      if s[i] < '0' || s[i] > '9' {
        assert s[i] in s;
        return false;
      }
      i := i + 1;
    }
    return true;
  }

  /** A code is a number of five or six decimal places, with zeros in front. */
  lemma CodeMeans(s: string)
    ensures IsMccMnc(s) <==> (|s| == 5 || |s| == 6) && exists z: nat, n: nat :: s == Repeat('0', z) + Decimal(n)
  {
    if IsMccMnc(s) {
      var z, n := DigitsAreNumber(s);
    }
    forall z: nat, n: nat | s == Repeat('0', z) + Decimal(n) ensures forall c :: c in s ==> '0' <= c <= '9' {
      DecimalMeans(n);
      assert forall c :: c in s ==> c in Repeat('0', z) || c in Decimal(n);
    }
  }

  lemma AppendDigit(n: nat, d: nat)
    requires d < 10
    ensures Decimal(n) + Decimal(d) == if n == 0 then "0" + Decimal(d) else Decimal(10 * n + d)
  {
    var m := 10 * n + d;
    assert Decimal(d) == [DIGITS[d]] && DIGITS[0] == '0';
    if n > 0 {
      assert m / 10 == n && m % 10 == d;
      hide DIGITS;
      assert Decimal(m) == Decimal(n) + [DIGITS[d]];
    }
  }

  lemma DecimalOfDigit(c: char)
    requires '0' <= c <= '9'
    ensures Decimal(c as int - '0' as int) == [c]
  {
    assert forall i :: 0 <= i < 10 ==> DIGITS[i] as int == '0' as int + i;
  }

  lemma {:induction false} ZeroInFront(z: nat)
    ensures Repeat('0', z) + "0" == Repeat('0', z + 1)
  {
  }

  lemma AppendPlace(z: nat, n: nat, c: char) returns (z': nat, n': nat)
    requires '0' <= c <= '9'
    ensures (Repeat('0', z) + Decimal(n)) + [c] == Repeat('0', z') + Decimal(n')
  {
    hide Repeat, Decimal;
    var d: nat := c as int - '0' as int;
    DecimalOfDigit(c);
    AppendDigit(n, d);
    Assoc(Repeat('0', z), Decimal(n), [c]);
    z', n' := z, 10 * n + d;
    if n == 0 {
      DecimalOfDigit('0');
      ZeroInFront(z);
      Assoc(Repeat('0', z), "0", [c]);
      z', n' := z + 1, d;
    }
  }

  lemma {:induction false} DigitsAreNumber(s: string) returns (z: nat, n: nat)
    requires s != "" && forall c :: c in s ==> '0' <= c <= '9'
    ensures s == Repeat('0', z) + Decimal(n)
  {
    hide Repeat, Decimal;
    var front, c := s[..|s| - 1], s[|s| - 1];
    assert s == front + [c] && c in s;
    if front == "" {
      z, n := 0, c as int - '0' as int;
      DecimalOfDigit(c);
      NoZeros(Decimal(n));
    } else {
      assert forall x :: x in front ==> x in s;
      z, n := DigitsAreNumber(front);
      z, n := AppendPlace(z, n, c);
    }
  }

  lemma NoZeros(s: string)
    ensures Repeat('0', 0) + s == s
  {
  }

  /** How technologies are named: the reader of names, and the technology of a network without a name. */
  datatype Names<!T(!new)> = Names(read: string -> Option<T>, unknown: T)

  datatype Network<T> = Network(operatorCode: string, technology: T)

  /** One network as it is written. */
  datatype Written = Written(operatorCode: string, technology: Option<string>)

  function TokensOf(w: Written): seq<string> {
    [w.operatorCode] + if w.technology.Some? then [w.technology.value] else []
  }

  function Tokens(ws: seq<Written>): seq<string> {
    if ws == [] then [] else TokensOf(ws[0]) + Tokens(ws[1..])
  }

  /** An operator code, and a technology that is known and cannot be taken for a code. */
  predicate IsNetwork<T(!new)>(names: Names<T>, w: Written) {
    && IsMccMnc(w.operatorCode)
    && (w.technology.Some? ==> !IsMccMnc(w.technology.value) && names.read(w.technology.value).Some?)
  }

  ghost predicate AreNetworks<T(!new)>(names: Names<T>, ws: seq<Written>) {
    forall w :: w in ws ==> IsNetwork(names, w)
  }

  function NetworkOf<T(!new)>(names: Names<T>, w: Written): Network<T>
    requires IsNetwork(names, w)
  {
    Network(w.operatorCode, if w.technology.Some? then names.read(w.technology.value).value else names.unknown)
  }

  function NetworksOf<T(!new)>(names: Names<T>, ws: seq<Written>): (r: seq<Network<T>>)
    requires AreNetworks(names, ws)
    ensures |r| == |ws| && forall i :: 0 <= i < |r| ==> r[i] == NetworkOf(names, ws[i])
  {
    seq(|ws|, i requires 0 <= i < |ws| => NetworkOf(names, ws[i]))
  }

  // ---------- the parser

  /** The written networks that the tokens are read as; none when the process is left with a message. */
  function ReadTokens<T(!new)>(names: Names<T>, parts: seq<string>): Option<seq<Written>> {
    if parts == [] then Some([])
    else if !IsMccMnc(parts[0]) then None
    else if |parts| > 1 && !IsMccMnc(parts[1]) then
      if names.read(parts[1]).None? then None
      else
        var rest :- ReadTokens(names, parts[2..]);
        Some([Written(parts[0], Some(parts[1]))] + rest)
    else
      var rest :- ReadTokens(names, parts[1..]);
      Some([Written(parts[0], None)] + rest)
  }

  /** parse_preferred_networks. The networks are those of `read`. */
  method Parse<T(!new)>(names: Names<T>, str: string) returns (networks: Option<seq<Network<T>>>, ghost read: seq<Written>)
    ensures networks.None? <==> ReadTokens(names, Split(str, ',')).None?
    ensures networks.Some? ==>
              && ReadTokens(names, Split(str, ',')) == Some(read) && AreNetworks(names, read)
              && networks == Some(NetworksOf(names, read))
  {
    var parts := Split(str, ',');
    var list: seq<Network<T>> := [];
    read := [];
    var i := 0;
    assert parts[0..] == parts;
    AfterNothing(ReadTokens(names, parts));
    while i < |parts|
      invariant 0 <= i <= |parts| && AreNetworks(names, read) && list == NetworksOf(names, read)
      invariant ReadTokens(names, parts) == After(read, ReadTokens(names, parts[i..]))
    {
      ghost var start, before := i, read;
      var mccmnc := parts[i];
      var ok := CheckMccMnc(mccmnc);
      if !ok {
        return None, [];
      }
      var accessTech := names.unknown;
      ghost var written: Option<string> := None;
      var nextIsCode := false;
      if i + 1 < |parts| {
        nextIsCode := CheckMccMnc(parts[i + 1]);
      }
      if i + 1 < |parts| && !nextIsCode {
        i := i + 1;
        var tech := names.read(parts[i]);
        if tech.None? {
          return None, [];
        }
        accessTech := tech.value;
        written := Some(parts[i]);
      }
      list := list + [Network(mccmnc, accessTech)];
      ghost var w := Written(mccmnc, written);
      read := read + [w];
      i := i + 1;
      assert list == NetworksOf(names, read);
      assert parts[start..][1..] == parts[start + 1..];
      assert start + 2 <= |parts| ==> parts[start..][2..] == parts[start + 2..];
      AfterStep(before, w, ReadTokens(names, parts[i..]));
    }
    assert parts[i..] == [] && read + [] == read;
    networks := Some(list);
  }

  function After(read: seq<Written>, rest: Option<seq<Written>>): Option<seq<Written>> {
    var r :- rest;
    Some(read + r)
  }

  lemma AfterNothing(rest: Option<seq<Written>>)
    ensures After([], rest) == rest
  {
    if rest.Some? { assert [] + rest.value == rest.value; }
  }

  lemma AfterStep(read: seq<Written>, w: Written, rest: Option<seq<Written>>)
    ensures After(read, After([w], rest)) == After(read + [w], rest)
  {
    if rest.Some? { assert read + ([w] + rest.value) == (read + [w]) + rest.value; }
  }

  // ---------- the grammar

  /** Reading accepts exactly the tokens of lists of networks, uses every token once, and has no choice. */
  lemma {:induction false} ReadsExactlyGrammar<T(!new)>(names: Names<T>, parts: seq<string>, ws: seq<Written>)
    ensures ReadTokens(names, parts) == Some(ws) <==> AreNetworks(names, ws) && Tokens(ws) == parts
    decreases |parts|
  {
    if ReadTokens(names, parts) == Some(ws) {
      ReadIsGrammar(names, parts);
    }
    if AreNetworks(names, ws) && Tokens(ws) == parts {
      GrammarIsRead(names, ws);
    }
  }

  lemma {:induction false} ReadIsGrammar<T(!new)>(names: Names<T>, parts: seq<string>)
    requires ReadTokens(names, parts).Some?
    ensures AreNetworks(names, ReadTokens(names, parts).value)
    ensures Tokens(ReadTokens(names, parts).value) == parts
    decreases |parts|
  {
    if parts != [] {
      var ws := ReadTokens(names, parts).value;
      if |parts| > 1 && !IsMccMnc(parts[1]) {
        ReadIsGrammar(names, parts[2..]);
        assert parts == [parts[0], parts[1]] + parts[2..];
      } else {
        ReadIsGrammar(names, parts[1..]);
        assert parts == [parts[0]] + parts[1..];
      }
    }
  }

  lemma {:induction false} GrammarIsRead<T(!new)>(names: Names<T>, ws: seq<Written>)
    requires AreNetworks(names, ws)
    ensures ReadTokens(names, Tokens(ws)) == Some(ws)
  {
    if ws != [] {
      var w, rest := ws[0], ws[1..];
      assert w in ws && forall x :: x in rest ==> x in ws;
      GrammarIsRead(names, rest);
      var parts := Tokens(ws);
      assert ws == [w] + rest;
      if w.technology.Some? {
        assert parts[2..] == Tokens(rest);
      } else {
        assert parts[1..] == Tokens(rest);
        if rest != [] { assert parts[1] == rest[0].operatorCode && rest[0] in rest; }
      }
    }
  }

  // ---------- writing and reading

  /** The text of a list of networks. */
  function Render(ws: seq<Written>): string { Join(Tokens(ws), ",") }

  /** Three networks, the middle one with a technology. */
  lemma RenderMeans()
    ensures Render([Written("00101", None), Written("21403", Some("lte")), Written("310260", None)])
         == "00101,21403,lte,310260"
  {
    var a, b, c := Written("00101", None), Written("21403", Some("lte")), Written("310260", None);
    assert [a, b, c][1..] == [b, c] && [b, c][1..] == [c] && [c][1..] == [];
    assert Tokens([]) == [] && Tokens([c]) == ["310260"] + [];
    assert Tokens([b, c]) == ["21403"] + ["lte"] + ["310260"];
    assert Tokens([a, b, c]) == ["00101"] + (["21403"] + ["lte"] + ["310260"]);
    assert Tokens([a, b, c]) == ["00101", "21403", "lte", "310260"];
    assert ["00101", "21403", "lte", "310260"][1..] == ["21403", "lte", "310260"];
    assert ["21403", "lte", "310260"][1..] == ["lte", "310260"] && ["lte", "310260"][1..] == ["310260"];
  }

  lemma {:induction false} TokensFree(ws: seq<Written>, sep: char)
    requires forall w :: w in ws ==> sep !in w.operatorCode && (w.technology.Some? ==> sep !in w.technology.value)
    ensures forall t :: t in Tokens(ws) ==> sep !in t
  {
    if ws != [] {
      assert ws[0] in ws;
      TokensFree(ws[1..], sep);
    }
  }

  /** Parsing the text of a list of networks reads that list, if no technology has a comma in its name. */
  lemma RenderRead<T(!new)>(names: Names<T>, ws: seq<Written>)
    requires AreNetworks(names, ws)
    requires forall w :: w in ws && w.technology.Some? ==> ',' !in w.technology.value
    ensures ReadTokens(names, Split(Render(ws), ',')) == Some(ws)
  {
    if ws != [] {
      assert ws[0] in ws;
      TokensFree(ws, ',');
      PiecesOfJoin(Tokens(ws), ',');
      assert Tokens(ws)[0] == ws[0].operatorCode && Pieces("", ',') == [""];
    }
    GrammarIsRead(names, ws);
  }

  /** The written form of networks whose technologies have names. */
  function WrittenOf<T(==)>(ns: seq<Network<Option<T>>>, name: T -> string): (r: seq<Written>)
    ensures |r| == |ns|
    ensures forall i :: 0 <= i < |r| ==> r[i] == Written(ns[i].operatorCode,
              if ns[i].technology.Some? then Some(name(ns[i].technology.value)) else None)
  {
    seq(|ns|, i requires 0 <= i < |ns| => Written(ns[i].operatorCode,
      if ns[i].technology.Some? then Some(name(ns[i].technology.value)) else None))
  }

  /** For every list of operator codes with optional technologies, parsing its text gives the same list, with
      the unknown technology where none was given. */
  method RoundTrip<T(!new, ==)>(names: Names<T>, ns: seq<Network<Option<T>>>, name: T -> string)
    returns (networks: Option<seq<Network<T>>>)
    requires forall t :: names.read(name(t)) == Some(t) && !IsMccMnc(name(t)) && ',' !in name(t)
    requires forall n :: n in ns ==> IsMccMnc(n.operatorCode)
    ensures networks.Some? && |networks.value| == |ns|
    ensures forall i :: 0 <= i < |ns| ==>
              networks.value[i] == Network(ns[i].operatorCode,
                                           if ns[i].technology.Some? then ns[i].technology.value else names.unknown)
  {
    var ws := WrittenOf(ns, name);
    RenderRead(names, ws);
    ghost var read;
    networks, read := Parse(names, Render(ws));
  }
}
