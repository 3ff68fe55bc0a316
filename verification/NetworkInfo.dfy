/** The ready-made JSON text for one scanned network. */
module NetworkInfo {
  import opened Wrappers
  import opened JsonString
  import opened Json
  import opened JsonOutput

  /** Texts may be missing, except that of the technologies, which is built. */
  datatype Network = Network(
    operatorCode: Option<string>, operatorLong: Option<string>, operatorShort: Option<string>,
    technologies: string, availability: Option<string>)

  /** The long name, or else the short one. */
  function OperatorName(n: Network): Option<string> {
    if n.operatorLong.Some? then n.operatorLong else n.operatorShort
  }

  /** All the texts that are printed are there. */
  predicate Complete(n: Network) {
    n.operatorCode.Some? && OperatorName(n).Some? && n.availability.Some?
  }

  const CODE := "operator-code"
  const NAME := "operator-name"
  const TECHNOLOGIES := "access-technologies"
  const AVAILABILITY := "availability"

  /** The object a network is shown as. */
  function NetworkJson(n: Network): Json
    requires Complete(n)
  {
    Obj([Member(CODE, Str(n.operatorCode.value))] +
        ([Member(NAME, Str(OperatorName(n).value))] +
         ([Member(TECHNOLOGIES, Str(n.technologies))] + [Member(AVAILABILITY, Str(n.availability.value))])))
  }

  function Quoted(name: string, value: string): string {
    "\"" + name + "\":\"" + value + "\""
  }

  /** The text is that of one object, which has the four texts under these names. */
  ghost predicate ReadsAs(n: Network, text: string) {
    && IsJsonText(text)
    && n.operatorCode.Some? && (n.operatorLong.Some? || n.operatorShort.Some?) && n.availability.Some?
    && RawJson(text) == Obj([
         Member("operator-code", Str(n.operatorCode.value)),
         Member("operator-name", Str(if n.operatorLong.Some? then n.operatorLong.value else n.operatorShort.value)),
         Member("access-technologies", Str(n.technologies)),
         Member("availability", Str(n.availability.value))])
  }

  lemma ObjectReadsAs(n: Network, text: string)
    requires Complete(n) && IsJsonText(text) && RawJson(text) == NetworkJson(n)
    ensures ReadsAs(n, text)
  {
    hide Print, IsJsonText, RawJson;
  }

  /** The call of json_strescape; none when it is handed a missing text, whose length it takes. */
  method EscapeText(text: Option<string>) returns (escape: Option<string>)
    ensures escape == if text.Some? then Some(Escape(text.value)) else None
  {
    if text.None? {
      return None;
    }
    var output := JsonStrescape(text.value);
    return Some(output);
  }

  /** The JSON branch of build_network_info; none when the program fails on a missing text. */
  method BuildNetworkInfo(n: Network) returns (out: Option<string>)
    ensures out.None? <==>
              n.operatorCode.None? || (n.operatorLong.None? && n.operatorShort.None?) || n.availability.None?
    ensures out.Some? ==> ReadsAs(n, out.value)
  {
    hide ReadsAs;
    var operatorName := if n.operatorLong.Some? then n.operatorLong else n.operatorShort;
    var escape :- EscapeText(n.operatorCode);
    var str := "{" + Quoted(CODE, escape);
    escape :- EscapeText(operatorName);
    str := str + ("," + Quoted(NAME, escape));
    var technologies := JsonStrescape(n.technologies);
    str := str + ("," + Quoted(TECHNOLOGIES, technologies));
    escape :- EscapeText(n.availability);
    str := str + ("," + Quoted(AVAILABILITY, escape));
    str := str + "}";
    NetworkMembers(n);
    ParsePrint(NetworkJson(n), "", false);
    assert str + "" == str;
    out := Some(str);
    ObjectReadsAs(n, str);
  }

  /** A network without a name is one on which the program fails. */
  method UnnamedNetwork() returns (out: Option<string>)
    ensures out.None?
  {
    out := BuildNetworkInfo(Network(Some("00101"), None, None, "lte", Some("available")));
  }

  lemma LastMember(name: string, value: string)
    requires Escape(name) == name
    ensures PrintMembers([Member(name, Str(value))]) == Quoted(name, Escape(value))
  {
    assert "\"" + name + "\":" + ("\"" + Escape(value) + "\"") == Quoted(name, Escape(value));
    assert Quoted(name, Escape(value)) + "" == Quoted(name, Escape(value));
  }

  lemma NextMember(name: string, value: string, rest: seq<Member>)
    requires Escape(name) == name && rest != []
    ensures PrintMembers([Member(name, Str(value))] + rest)
         == Quoted(name, Escape(value)) + ("," + PrintMembers(rest))
  {
    assert ([Member(name, Str(value))] + rest)[1..] == rest;
    assert "\"" + name + "\":" + ("\"" + Escape(value) + "\"") == Quoted(name, Escape(value));
  }

  predicate LowerCase(s: string) { forall c :: c in s ==> 'a' <= c <= 'z' || c == '-' }

  lemma NamesArePlain()
    ensures Escape(CODE) == CODE && Escape(NAME) == NAME
    ensures Escape(TECHNOLOGIES) == TECHNOLOGIES && Escape(AVAILABILITY) == AVAILABILITY
  {
    assert LowerCase(CODE) && LowerCase(NAME) && LowerCase(TECHNOLOGIES) && LowerCase(AVAILABILITY);
    LowerCaseIsPlain(CODE);
    LowerCaseIsPlain(NAME);
    LowerCaseIsPlain(TECHNOLOGIES);
    LowerCaseIsPlain(AVAILABILITY);
  }

  lemma LowerCaseIsPlain(s: string)
    requires LowerCase(s)
    ensures Escape(s) == s
  {
    EscapeOfPlain(s);
  }

  /** The members of a network, as they are printed. */
  lemma NetworkMembers(n: Network)
    requires Complete(n)
    ensures Print(NetworkJson(n))
         == "{" + Quoted(CODE, Escape(n.operatorCode.value)) + ("," + Quoted(NAME, Escape(OperatorName(n).value)))
            + ("," + Quoted(TECHNOLOGIES, Escape(n.technologies)))
            + ("," + Quoted(AVAILABILITY, Escape(n.availability.value))) + "}"
  {
    hide Quoted, Print, Escape;
    var code, name, availability := n.operatorCode.value, OperatorName(n).value, n.availability.value;
    var q2 := Quoted(NAME, Escape(name));
    var q3, q4 := Quoted(TECHNOLOGIES, Escape(n.technologies)), Quoted(AVAILABILITY, Escape(availability));
    var d := [Member(AVAILABILITY, Str(availability))];
    var c := [Member(TECHNOLOGIES, Str(n.technologies))] + d;
    var b := [Member(NAME, Str(name))] + c;
    NamesArePlain();
    LastMember(AVAILABILITY, availability);
    NextMember(TECHNOLOGIES, n.technologies, d);
    NextMember(NAME, name, c);
    Chain(CODE, code, b, q2 + ("," + (q3 + ("," + q4))));
    FourParts(Quoted(CODE, Escape(code)), q2, q3, q4);
  }

  lemma Chain(name: string, value: string, rest: seq<Member>, text: string)
    requires Escape(name) == name && rest != [] && PrintMembers(rest) == text
    ensures Print(Obj([Member(name, Str(value))] + rest)) == "{" + (Quoted(name, Escape(value)) + ("," + text)) + "}"
  {
    NextMember(name, value, rest);
  }

  lemma FourParts(a: string, b: string, c: string, d: string)
    ensures "{" + (a + ("," + (b + ("," + (c + ("," + d)))))) + "}"
         == "{" + a + ("," + b) + ("," + c) + ("," + d) + "}"
  {
  }
}
