/** JSON values made of strings, arrays and objects, with a compact printer and a parser for the
    grammar of RFC 8259 sections 2 to 5 and 7 (the program prints no numbers and no literals). */
module Json {
  import opened Wrappers
  import opened JsonString

  datatype Json = Str(text: string) | Arr(elems: seq<Json>) | Obj(members: seq<Member>)

  datatype Member = Member(name: string, value: Json)

  // ---------- printing

  function Print(j: Json): (r: string)
    ensures r != "" && (r[0] == '"' || r[0] == '[' || r[0] == '{')
    decreases j
  {
    match j
    case Str(s) => "\"" + Escape(s) + "\""
    case Arr(es) => "[" + PrintElems(es) + "]"
    case Obj(ms) => "{" + PrintMembers(ms) + "}"
  }

  function PrintElems(es: seq<Json>): string
    decreases es
  {
    if es == [] then ""
    else Print(es[0]) + (if |es| == 1 then "" else "," + PrintElems(es[1..]))
  }

  function PrintMembers(ms: seq<Member>): string
    decreases ms
  {
    if ms == [] then ""
    else
      "\"" + Escape(ms[0].name) + "\":" + Print(ms[0].value)
      + (if |ms| == 1 then "" else "," + PrintMembers(ms[1..]))
  }

  // ---------- parsing

  predicate IsWs(c: char) { c == ' ' || c == '\t' || c == '\n' || c == '\r' }

  function SkipWs(s: string): (r: string)
    ensures |r| <= |s| && (r != "" ==> !IsWs(r[0]))
    ensures s != "" && !IsWs(s[0]) ==> r == s
  {
    if s != "" && IsWs(s[0]) then SkipWs(s[1..]) else s
  }

  /** Reads one value; gives it with the text after it. */
  function ParseValue(s: string, strict: bool): (r: Option<(Json, string)>)
    ensures r.Some? ==> |r.value.1| < |s|
    decreases |s|, 0
  {
    var t := SkipWs(s);
    if t == "" then None
    else if t[0] == '"' then
      var (x, rest) :- ScanString(t[1..], strict);
      Some((Str(x), rest))
    else if t[0] == '[' then
      var u := SkipWs(t[1..]);
      if u != "" && u[0] == ']' then Some((Arr([]), u[1..]))
      else
        var (es, rest) :- ParseElems(t[1..], strict);
        Some((Arr(es), rest))
    else if t[0] == '{' then
      var u := SkipWs(t[1..]);
      if u != "" && u[0] == '}' then Some((Obj([]), u[1..]))
      else
        var (ms, rest) :- ParseMembers(t[1..], strict);
        Some((Obj(ms), rest))
    else None
  }

  /** Reads the values of a non-empty array and its closing bracket. */
  function ParseElems(s: string, strict: bool): (r: Option<(seq<Json>, string)>)
    ensures r.Some? ==> |r.value.1| < |s|
    decreases |s|, 1
  {
    var (v, rest) :- ParseValue(s, strict);
    var t := SkipWs(rest);
    if t == "" then None
    else if t[0] == ']' then Some(([v], t[1..]))
    else if t[0] == ',' then
      var (vs, rest') :- ParseElems(t[1..], strict);
      Some(([v] + vs, rest'))
    else None
  }

  /** Reads the members of a non-empty object and its closing brace. */
  function ParseMembers(s: string, strict: bool): (r: Option<(seq<Member>, string)>)
    ensures r.Some? ==> |r.value.1| < |s|
    decreases |s|, 1
  {
    var q := SkipWs(s);
    if q == "" || q[0] != '"' then None
    else
      var (name, afterName) :- ScanString(q[1..], strict);
      var c := SkipWs(afterName);
      if c == "" || c[0] != ':' then None
      else
        var (v, rest) :- ParseValue(c[1..], strict);
        var t := SkipWs(rest);
        if t == "" then None
        else if t[0] == '}' then Some(([Member(name, v)], t[1..]))
        else if t[0] == ',' then
          var (ms, rest') :- ParseMembers(t[1..], strict);
          Some(([Member(name, v)] + ms, rest'))
        else None
  }

  /** A whole JSON text: one value and nothing but white space after it. */
  function Parse(s: string, strict: bool): Option<Json> {
    var (j, rest) :- ParseValue(s, strict);
    if SkipWs(rest) == "" then Some(j) else None
  }

  // ---------- the parser undoes the printer

  ghost predicate CleanJson(j: Json)
    decreases j
  {
    match j
    case Str(s) => Clean(s)
    case Arr(es) => CleanElems(es)
    case Obj(ms) => CleanMembers(ms)
  }

  ghost predicate CleanElems(es: seq<Json>)
    decreases es
  {
    es != [] ==> CleanJson(es[0]) && CleanElems(es[1..])
  }

  ghost predicate CleanMembers(ms: seq<Member>)
    decreases ms
  {
    ms != [] ==> Clean(ms[0].name) && CleanJson(ms[0].value) && CleanMembers(ms[1..])
  }

  lemma ReadArray(body: string, es: seq<Json>, rest: string, strict: bool)
    requires body != "" && !IsWs(body[0]) && body[0] != ']'
    requires ParseElems(body, strict) == Some((es, rest))
    ensures ParseValue("[" + body, strict) == Some((Arr(es), rest))
  {
    var t := "[" + body;
    assert SkipWs(t) == t && t[1..] == body && SkipWs(body) == body;
  }

  lemma ReadObject(body: string, ms: seq<Member>, rest: string, strict: bool)
    requires body != "" && body[0] == '"'
    requires ParseMembers(body, strict) == Some((ms, rest))
    ensures ParseValue("{" + body, strict) == Some((Obj(ms), rest))
  {
    var t := "{" + body;
    assert SkipWs(t) == t && t[1..] == body && SkipWs(body) == body;
  }

  lemma ReadEmpty(rest: string, strict: bool)
    ensures ParseValue("[]" + rest, strict) == Some((Arr([]), rest))
    ensures ParseValue("{}" + rest, strict) == Some((Obj([]), rest))
  {
    var t, u := "[]" + rest, "{}" + rest;
    assert SkipWs(t) == t && SkipWs(t[1..]) == t[1..] && t[1..][1..] == rest;
    assert SkipWs(u) == u && SkipWs(u[1..]) == u[1..] && u[1..][1..] == rest;
  }

  lemma ReadString(s: string, rest: string, strict: bool)
    requires strict ==> Clean(s)
    ensures ParseValue("\"" + Escape(s) + "\"" + rest, strict) == Some((Str(s), rest))
  {
    hide Escape, ScanString;
    var body := Escape(s) + "\"" + rest;
    assert "\"" + Escape(s) + "\"" + rest == "\"" + body;
    DropFirst("\"", body);
    ScanEscape(s, rest, strict);
  }

  lemma ReadElems(s: string, v: Json, tail: string, strict: bool)
    requires ParseValue(s, strict) == Some((v, tail)) && tail != ""
    ensures tail[0] == ']' ==> ParseElems(s, strict) == Some(([v], tail[1..]))
    ensures tail[0] == ',' && ParseElems(tail[1..], strict).Some? ==>
              var (vs, rest) := ParseElems(tail[1..], strict).value;
              ParseElems(s, strict) == Some(([v] + vs, rest))
  {
  }

  lemma ReadName(name: string, after: string, strict: bool)
    requires strict ==> Clean(name)
    ensures var s := "\"" + Escape(name) + "\"" + ":" + after;
            SkipWs(s) == s && ScanString(s[1..], strict) == Some((name, ":" + after))
  {
    var body := Escape(name) + "\"" + (":" + after);
    assert "\"" + Escape(name) + "\"" + ":" + after == "\"" + body;
    DropFirst("\"", body);
    ScanEscape(name, ":" + after, strict);
  }

  lemma ReadMembers(name: string, after: string, v: Json, tail: string, strict: bool)
    requires strict ==> Clean(name)
    requires ParseValue(after, strict) == Some((v, tail)) && tail != ""
    ensures var s := "\"" + Escape(name) + "\"" + ":" + after;
            && (tail[0] == '}' ==> ParseMembers(s, strict) == Some(([Member(name, v)], tail[1..])))
            && (tail[0] == ',' && ParseMembers(tail[1..], strict).Some? ==>
                  var (ms, rest) := ParseMembers(tail[1..], strict).value;
                  ParseMembers(s, strict) == Some(([Member(name, v)] + ms, rest)))
  {
    ReadName(name, after, strict);
    assert SkipWs(":" + after) == ":" + after && (":" + after)[1..] == after;
  }

  /** What follows the first value of an array, and the first value of an object. */
  function ElemsTail(es: seq<Json>, rest: string): string
    requires es != []
  {
    if |es| == 1 then "]" + rest else "," + (PrintElems(es[1..]) + "]" + rest)
  }

  function MembersTail(ms: seq<Member>, rest: string): string
    requires ms != []
  {
    if |ms| == 1 then "}" + rest else "," + (PrintMembers(ms[1..]) + "}" + rest)
  }

  lemma DropFirst(c: string, s: string)
    requires |c| == 1
    ensures (c + s)[1..] == s && (c + s)[0] == c[0]
  {
  }

  lemma ElemsText(es: seq<Json>, rest: string)
    requires es != []
    ensures PrintElems(es) + "]" + rest == Print(es[0]) + ElemsTail(es, rest)
  {
  }

  lemma ElemsTailCut(es: seq<Json>, rest: string)
    requires es != []
    ensures var tail := ElemsTail(es, rest);
            if |es| == 1 then tail[0] == ']' && tail[1..] == rest && es == [es[0]]
            else tail[0] == ',' && tail[1..] == PrintElems(es[1..]) + "]" + rest && es == [es[0]] + es[1..]
  {
    DropFirst("]", rest);
    DropFirst(",", PrintElems(es[1..]) + "]" + rest);
  }

  lemma MembersTailCut(ms: seq<Member>, rest: string)
    requires ms != []
    ensures var tail := MembersTail(ms, rest);
            if |ms| == 1 then tail[0] == '}' && tail[1..] == rest && ms == [ms[0]]
            else tail[0] == ',' && tail[1..] == PrintMembers(ms[1..]) + "}" + rest && ms == [ms[0]] + ms[1..]
  {
    DropFirst("}", rest);
    DropFirst(",", PrintMembers(ms[1..]) + "}" + rest);
  }

  lemma MembersText(ms: seq<Member>, rest: string)
    requires ms != []
    ensures PrintMembers(ms) + "}" + rest
         == "\"" + Escape(ms[0].name) + "\"" + ":" + (Print(ms[0].value) + MembersTail(ms, rest))
  {
    var more := if |ms| == 1 then "" else "," + PrintMembers(ms[1..]);
    MemberText(Escape(ms[0].name), Print(ms[0].value), more, rest);
    TailText(if |ms| == 1 then "" else PrintMembers(ms[1..]), rest);
  }

  lemma MemberText(name: string, value: string, more: string, rest: string)
    ensures ("\"" + name + "\":" + value + more) + "}" + rest
         == "\"" + name + "\"" + ":" + (value + ((more + "}") + rest))
  {
  }

  lemma TailText(more: string, rest: string)
    ensures ("" + "}") + rest == "}" + rest
    ensures (("," + more) + "}") + rest == "," + (more + "}" + rest)
  {
  }

  /** A printed value is read back as itself, and reading stops right after it. */
  lemma {:induction false} ParsePrint(j: Json, rest: string, strict: bool)
    requires strict ==> CleanJson(j)
    ensures ParseValue(Print(j) + rest, strict) == Some((j, rest))
    decreases j
  {
    match j {
      case Str(s) => ReadString(s, rest, strict);
      case Arr(es) => ParseArrayPrint(es, rest, strict);
      case Obj(ms) => ParseObjectPrint(ms, rest, strict);
    }
  }

  lemma {:induction false} ParseArrayPrint(es: seq<Json>, rest: string, strict: bool)
    requires strict ==> CleanElems(es)
    ensures ParseValue(Print(Arr(es)) + rest, strict) == Some((Arr(es), rest))
    decreases es, 1
  {
    var body := PrintElems(es) + "]" + rest;
    assert Print(Arr(es)) + rest == "[" + body;
    if es == [] {
      ReadEmpty(rest, strict);
      assert "[" + body == "[]" + rest;
    } else {
      ParseElemsPrint(es, rest, strict);
      ReadArray(body, es, rest, strict);
    }
  }

  lemma {:induction false} ParseObjectPrint(ms: seq<Member>, rest: string, strict: bool)
    requires strict ==> CleanMembers(ms)
    ensures ParseValue(Print(Obj(ms)) + rest, strict) == Some((Obj(ms), rest))
    decreases ms, 1
  {
    var body := PrintMembers(ms) + "}" + rest;
    assert Print(Obj(ms)) + rest == "{" + body;
    if ms == [] {
      ReadEmpty(rest, strict);
      assert "{" + body == "{}" + rest;
    } else {
      ParseMembersPrint(ms, rest, strict);
      ReadObject(body, ms, rest, strict);
    }
  }

  lemma {:induction false} ParseElemsPrint(es: seq<Json>, rest: string, strict: bool)
    requires es != []
    requires strict ==> CleanElems(es)
    ensures ParseElems(PrintElems(es) + "]" + rest, strict) == Some((es, rest))
    decreases es, 0
  {
    var tail := ElemsTail(es, rest);
    ElemsText(es, rest);
    ParsePrint(es[0], tail, strict);
    if |es| > 1 { ParseElemsPrint(es[1..], rest, strict); }
    ReadElems(Print(es[0]) + tail, es[0], tail, strict);
    ElemsTailCut(es, rest);
  }

  lemma {:induction false} ParseMembersPrint(ms: seq<Member>, rest: string, strict: bool)
    requires ms != []
    requires strict ==> CleanMembers(ms)
    ensures ParseMembers(PrintMembers(ms) + "}" + rest, strict) == Some((ms, rest))
    decreases ms, 0
  {
    var tail := MembersTail(ms, rest);
    MembersText(ms, rest);
    ParsePrint(ms[0].value, tail, strict);
    if |ms| > 1 { ParseMembersPrint(ms[1..], rest, strict); }
    ReadMembers(ms[0].name, Print(ms[0].value) + tail, ms[0].value, tail, strict);
    MembersTailCut(ms, rest);
  }

  // ---------- what a strict parser refuses

  lemma RefuseArray(body: string)
    requires body != "" && !IsWs(body[0]) && body[0] != ']' && ParseElems(body, true).None?
    ensures ParseValue("[" + body, true).None?
  {
    var t := "[" + body;
    assert SkipWs(t) == t && t[1..] == body && SkipWs(body) == body;
  }

  lemma RefuseObject(body: string)
    requires body != "" && body[0] == '"' && ParseMembers(body, true).None?
    ensures ParseValue("{" + body, true).None?
  {
    var t := "{" + body;
    assert SkipWs(t) == t && t[1..] == body && SkipWs(body) == body;
  }

  lemma RefuseString(s: string, rest: string)
    requires !Clean(s)
    ensures ParseValue("\"" + Escape(s) + "\"" + rest, true).None?
  {
    hide Escape, ScanString;
    var body := Escape(s) + "\"" + rest;
    assert "\"" + Escape(s) + "\"" + rest == "\"" + body;
    DropFirst("\"", body);
    ScanRefuses(s, rest);
  }

  lemma RefuseMember(name: string, after: string)
    requires !Clean(name) || ParseValue(after, true).None?
    ensures ParseMembers("\"" + Escape(name) + "\"" + ":" + after, true).None?
  {
    hide Escape, ScanString, ParseValue, SkipWs;
    if Clean(name) {
      ReadName(name, after, true);
      KeepColon(after);
    } else {
      var body := Escape(name) + "\"" + (":" + after);
      assert "\"" + Escape(name) + "\"" + ":" + after == "\"" + body;
      DropFirst("\"", body);
      KeepQuote(body);
      ScanRefuses(name, ":" + after);
    }
  }

  lemma KeepColon(s: string)
    ensures SkipWs(":" + s) == ":" + s && (":" + s)[1..] == s
  {
  }

  lemma KeepQuote(s: string)
    ensures SkipWs("\"" + s) == "\"" + s
  {
  }

  lemma RefuseRest(name: string, after: string, v: Json, tail: string)
    requires Clean(name) && ParseValue(after, true) == Some((v, tail))
    requires tail != "" && tail[0] == ',' && ParseMembers(tail[1..], true).None?
    ensures ParseMembers("\"" + Escape(name) + "\"" + ":" + after, true).None?
  {
    hide Escape, ScanString, ParseValue;
    ReadName(name, after, true);
    KeepColon(after);
  }

  /** A strict parser refuses the printed text of every value that is not clean throughout. */
  lemma {:induction false} ParseRefuses(j: Json, rest: string)
    requires !CleanJson(j)
    ensures ParseValue(Print(j) + rest, true).None?
    decreases j
  {
    match j {
      case Str(s) => RefuseString(s, rest);
      case Arr(es) =>
        var body := PrintElems(es) + "]" + rest;
        assert Print(j) + rest == "[" + body;
        ElemsRefused(es, rest);
        RefuseArray(body);
      case Obj(ms) =>
        var body := PrintMembers(ms) + "}" + rest;
        assert Print(j) + rest == "{" + body;
        MembersRefused(ms, rest);
        RefuseObject(body);
    }
  }

  lemma {:induction false} ElemsRefused(es: seq<Json>, rest: string)
    requires !CleanElems(es)
    ensures ParseElems(PrintElems(es) + "]" + rest, true).None?
    decreases es
  {
    var tail := ElemsTail(es, rest);
    ElemsText(es, rest);
    ElemsTailCut(es, rest);
    if CleanJson(es[0]) {
      ParsePrint(es[0], tail, true);
      ElemsRefused(es[1..], rest);
    } else {
      ParseRefuses(es[0], tail);
    }
  }

  lemma {:induction false} MembersRefused(ms: seq<Member>, rest: string)
    requires !CleanMembers(ms)
    ensures ParseMembers(PrintMembers(ms) + "}" + rest, true).None?
    decreases ms
  {
    hide ParseValue, ParseMembers, Print, PrintMembers;
    var m, tail := ms[0], MembersTail(ms, rest);
    MembersText(ms, rest);
    MembersTailCut(ms, rest);
    if Clean(m.name) && CleanJson(m.value) {
      ParsePrint(m.value, tail, true);
      MembersRefused(ms[1..], rest);
      RefuseRest(m.name, Print(m.value) + tail, m.value, tail);
    } else {
      if !CleanJson(m.value) { ParseRefuses(m.value, tail); }
      RefuseMember(m.name, Print(m.value) + tail);
    }
  }

  /** A printed value with a final newline is a JSON text with that value; a strict parser takes exactly those
      without a control character that is printed raw. */
  lemma ParseDocument(j: Json, strict: bool)
    ensures Parse(Print(j) + "\n", strict) == if strict && !CleanJson(j) then None else Some(j)
  {
    if strict && !CleanJson(j) {
      ParseRefuses(j, "\n");
    } else {
      ParsePrint(j, "\n", strict);
    }
  }
}
