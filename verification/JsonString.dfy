/** The string half of the JSON printer, with the strings of RFC 8259 section 7. */
module JsonString {
  import opened Wrappers
  import opened Text

  const HEX := "0123456789abcdef"

  /** What json_strescape appends for one character. */
  function EscapeChar(c: char): string {
    if c == '\\' || c == '"' then ['\\', c]
    else if 0 < c as int < 0x1f || c as int == 0x7f then
      if c as int == 0x08 then "\\b"
      else if c as int == 0x0c then "\\f"
      else if c == '\n' then "\\n"
      else if c == '\r' then "\\r"
      else if c == '\t' then "\\t"
      else "\\u00" + [HEX[c as int / 16], HEX[c as int % 16]]
    else [c]
  }

  function Escape(s: string): string {
    if s == "" then "" else EscapeChar(s[0]) + Escape(s[1..])
  }

  lemma EscapeStep(done: string, str: string, p: nat)
    requires p < |str|
    ensures done + Escape(str[p..]) == done + EscapeChar(str[p]) + Escape(str[p + 1..])
  {
    assert str[p..][1..] == str[p + 1..];
  }

  /** json_strescape: one pass that appends to a buffer. */
  method JsonStrescape(str: string) returns (output: string)
    ensures output == Escape(str)
  {
    output := "";
    var p := 0;
    while p < |str|
      invariant 0 <= p <= |str|
      invariant output + Escape(str[p..]) == Escape(str)
    {
      var c := str[p];
      EscapeStep(output, str, p);
      if c == '\\' || c == '"' {
        output := output + ['\\', c];
      } else if (c as int > 0 && (c as int) < 0x1f) || c as int == 0x7f {
        output := AppendControl(output, c);
      } else {
        output := output + [c];
      }
      p := p + 1;
    }
  }

  /** The switch of json_strescape over control characters. */
  method AppendControl(buffer: string, c: char) returns (output: string)
    requires 0 < c as int < 0x1f || c as int == 0x7f
    ensures output == buffer + EscapeChar(c)
  {
    match c as int {
      case 0x08 => output := buffer + "\\b";
      case 0x0c => output := buffer + "\\f";
      case 0x0a => output := buffer + "\\n";
      case 0x0d => output := buffer + "\\r";
      case 0x09 => output := buffer + "\\t";
      case _ => output := buffer + ("\\u00" + [HEX[c as int / 16], HEX[c as int % 16]]);
    }
  }

  // ---------- reading a string back

  function HexValue(c: char): Option<nat> {
    if '0' <= c <= '9' then Some(c as int - '0' as int)
    else if 'a' <= c <= 'f' then Some(c as int - 'a' as int + 10)
    else if 'A' <= c <= 'F' then Some(c as int - 'A' as int + 10)
    else None
  }

  /** The value of the four hexadecimal digits that start `t`. */
  function Hex4(t: string): Option<nat> {
    if |t| < 4 then None
    else
      var a :- HexValue(t[0]); var b :- HexValue(t[1]);
      var c :- HexValue(t[2]); var d :- HexValue(t[3]);
      Some(((a * 16 + b) * 16 + c) * 16 + d)
  }

  /** The character a two-character escape stands for (RFC 8259 section 7). */
  function SimpleEscape(e: char): Option<char> {
    match e
    case '"' => Some('"')
    case '\\' => Some('\\')
    case '/' => Some('/')
    case 'b' => Some(0x08 as char)
    case 'f' => Some(0x0c as char)
    case 'n' => Some('\n')
    case 'r' => Some('\r')
    case 't' => Some('\t')
    case _ => None
  }

  /** Scans a JSON string whose opening quote has been read; gives its value and what follows the closing quote.
      A strict scanner refuses raw control characters, as RFC 8259 section 7 asks; a lenient one takes them.
      Escapes of characters above 0x7f, which need an encoding, are refused. */
  function ScanString(t: string, strict: bool): (r: Option<(string, string)>)
    ensures r.Some? ==> |r.value.1| < |t|
  {
    if t == "" then None
    else if t[0] == '"' then Some(("", t[1..]))
    else if t[0] == '\\' then
      if |t| < 2 then None
      else if t[1] == 'u' then
        var code :- Hex4(t[2..]);
        if code >= 0x80 then None
        else
          var (s, rest) :- ScanString(t[6..], strict);
          Some(([code as char] + s, rest))
      else
        var c :- SimpleEscape(t[1]);
        var (s, rest) :- ScanString(t[2..], strict);
        Some(([c] + s, rest))
    else if strict && (t[0] as int) < 0x20 then None
    else
      var (s, rest) :- ScanString(t[1..], strict);
      Some(([t[0]] + s, rest))
  }

  /** The characters between the quotes of a string, by the grammar of RFC 8259 section 7. */
  predicate RfcChars(t: string) {
    t == "" ||
    if t[0] == '\\' then
      |t| >= 2 &&
      if t[1] == 'u' then Hex4(t[2..]).Some? && RfcChars(t[6..])
      else SimpleEscape(t[1]).Some? && RfcChars(t[2..])
    else t[0] != '"' && t[0] as int >= 0x20 && RfcChars(t[1..])
  }

  /** A C string holds no NUL. */
  predicate CString(s: string) { '\0' !in s }

  /** The one control character json_strescape leaves raw. */
  const UNIT_SEPARATOR: char := 0x1f as char

  predicate Clean(s: string) { CString(s) && UNIT_SEPARATOR !in s }

  lemma HexRoundTrip(n: nat)
    requires n < 0x80
    ensures HexValue(HEX[n / 16]) == Some(n / 16) && HexValue(HEX[n % 16]) == Some(n % 16)
  {
  }

  /** A scan that finds `c` first and then goes on as `r`. */
  function Prepended(c: char, r: Option<(string, string)>): Option<(string, string)> {
    var (s, rest) :- r;
    Some(([c] + s, rest))
  }

  lemma ScanShortEscape(c: char, e: char, t: string, strict: bool)
    requires e != 'u' && SimpleEscape(e) == Some(c)
    ensures ScanString(['\\', e] + t, strict) == Prepended(c, ScanString(t, strict))
  {
    assert (['\\', e] + t)[2..] == t;
  }

  lemma ScanLongEscape(c: char, t: string, strict: bool)
    requires (c as int) < 0x80
    ensures ScanString("\\u00" + [HEX[c as int / 16], HEX[c as int % 16]] + t, strict)
         == Prepended(c, ScanString(t, strict))
  {
    var u := "\\u00" + [HEX[c as int / 16], HEX[c as int % 16]] + t;
    HexRoundTrip(c as int);
    assert u[2..][0] == u[2] && u[2..][1] == u[3] && u[2..][2] == u[4] && u[2..][3] == u[5];
    assert u[6..] == t;
  }

  /** One escaped character is read back as that character, whatever follows. */
  lemma ScanEscapeChar(c: char, t: string, strict: bool)
    requires strict ==> c != '\0' && c != UNIT_SEPARATOR
    ensures ScanString(EscapeChar(c) + t, strict) == Prepended(c, ScanString(t, strict))
  {
    var e := EscapeChar(c);
    if |e| == 1 {
      assert (e + t)[1..] == t;
    } else if |e| == 2 {
      assert e == ['\\', e[1]];
      ScanShortEscape(c, e[1], t, strict);
    } else {
      ScanLongEscape(c, t, strict);
    }
  }

  /** Escaping is invertible and self-delimiting: scanning stops at the closing quote and gives the string back. */
  lemma {:induction false} ScanEscape(s: string, rest: string, strict: bool)
    requires strict ==> Clean(s)
    ensures ScanString(Escape(s) + "\"" + rest, strict) == Some((s, rest))
  {
    if s == "" {
      assert ("" + "\"" + rest)[1..] == rest;
    } else {
      var t := Escape(s[1..]) + "\"" + rest;
      ScanEscape(s[1..], rest, strict);
      ScanEscapeChar(s[0], t, strict);
      assert Escape(s) + "\"" + rest == EscapeChar(s[0]) + t;
      assert [s[0]] + s[1..] == s;
    }
  }

  lemma ScanRaw(c: char, t: string)
    requires c == '\0' || c == UNIT_SEPARATOR
    ensures ScanString(EscapeChar(c) + t, true) == None
  {
  }

  /** A strict scanner refuses the escaped text of every string that is not clean. */
  lemma {:induction false} ScanRefuses(s: string, rest: string)
    requires !Clean(s)
    ensures ScanString(Escape(s) + "\"" + rest, true) == None
  {
    var t := Escape(s[1..]) + "\"" + rest;
    assert Escape(s) + "\"" + rest == EscapeChar(s[0]) + t;
    if Clean([s[0]]) {
      assert s == [s[0]] + s[1..];
      ScanRefuses(s[1..], rest);
      ScanEscapeChar(s[0], t, true);
    } else {
      ScanRaw(s[0], t);
    }
  }

  /** The one character that is printed against RFC 8259: a strict reader refuses it, a lenient one takes it. */
  lemma UnitSeparatorIsRaw(rest: string)
    ensures var s: string := [UNIT_SEPARATOR];
            && Escape(s) == s && !RfcChars(Escape(s))
            && ScanString(Escape(s) + "\"" + rest, true) == None
            && ScanString(Escape(s) + "\"" + rest, false) == Some((s, rest))
  {
    var s: string := [UNIT_SEPARATOR];
    assert Escape("") == "" && s[1..] == "";
    ScanRefuses(s, rest);
    ScanEscape(s, rest, false);
  }

  lemma {:induction false} EscapeInjective(a: string, b: string)
    requires Escape(a) == Escape(b)
    ensures a == b
  {
    ScanEscape(a, "", false);
    ScanEscape(b, "", false);
  }

  /** The forms that are written: a backslash before itself and the quote, five short forms, and every character that
      is not below 0x1f, nor 0x7f, as it is. */
  lemma EscapeForms(c: char)
    ensures EscapeChar('"') == ['\\', '"'] && EscapeChar('\\') == ['\\', '\\']
    ensures EscapeChar(8 as char) == ['\\', 'b'] && EscapeChar(9 as char) == ['\\', 't']
    ensures EscapeChar(10 as char) == ['\\', 'n'] && EscapeChar(12 as char) == ['\\', 'f']
    ensures EscapeChar(13 as char) == ['\\', 'r']
    ensures c as int == 0 || c as int == 0x1f || (c as int >= 0x20 && c != '"' && c != '\\' && c as int != 0x7f) ==>
              EscapeChar(c) == [c]
  {
  }

  predicate IsLowerHex(c: char) { '0' <= c <= '9' || 'a' <= c <= 'f' }

  /** The other control characters are written with their code in four lower-case hexadecimal digits. */
  lemma LongForms(c: char)
    requires (1 <= c as int <= 0x1e || c as int == 0x7f) && c as int !in {8, 9, 10, 12, 13}
    ensures |EscapeChar(c)| == 6 && EscapeChar(c)[..2] == ['\\', 'u'] && Hex4(EscapeChar(c)[2..]) == Some(c as int)
    ensures forall i :: 2 <= i < 6 ==> IsLowerHex(EscapeChar(c)[i])
  {
    HexRoundTrip(c as int);
    var x, y := HEX[c as int / 16], HEX[c as int % 16];
    LowerHex(c as int / 16);
    LowerHex(c as int % 16);
    assert EscapeChar(c) == ['\\', 'u', '0', '0', x, y];
    assert EscapeChar(c)[2..] == ['0', '0', x, y];
  }

  lemma LowerHex(n: nat)
    requires n < 16
    ensures IsLowerHex(HEX[n])
  {
  }

  lemma {:induction false} EscapeConcat(a: string, b: string)
    ensures Escape(a + b) == Escape(a) + Escape(b)
  {
    if a == "" {
      assert a + b == b;
    } else {
      calc {
        Escape(a + b);
        { assert (a + b)[1..] == a[1..] + b; }
        EscapeChar(a[0]) + Escape(a[1..] + b);
        { EscapeConcat(a[1..], b); }
        EscapeChar(a[0]) + (Escape(a[1..]) + Escape(b));
        { Assoc(EscapeChar(a[0]), Escape(a[1..]), Escape(b)); }
        Escape(a) + Escape(b);
      }
    }
  }

  lemma {:induction false} EscapeLength(s: string)
    ensures |s| <= |Escape(s)| <= 6 * |s|
  {
    if s != "" { EscapeLength(s[1..]); }
  }

  lemma RfcEscapeChar(c: char, t: string)
    requires c != '\0'
    ensures RfcChars(EscapeChar(c) + t) <==> c != UNIT_SEPARATOR && RfcChars(t)
  {
    var e := EscapeChar(c);
    var u := e + t;
    if |e| == 1 {
      assert u[1..] == t;
    } else if |e| == 2 {
      assert u[2..] == t;
    } else {
      HexRoundTrip(c as int);
      assert u[2..][0] == u[2] && u[2..][1] == u[3] && u[2..][2] == u[4] && u[2..][3] == u[5];
      assert u[6..] == t;
    }
  }

  /** The escaped text is a string of RFC 8259 exactly when the value has no 0x1f. */
  lemma {:induction false} EscapeIsRfc(s: string)
    requires CString(s)
    ensures RfcChars(Escape(s)) <==> UNIT_SEPARATOR !in s
  {
    if s != "" {
      assert s[0] in s && (forall c :: c in s[1..] ==> c in s);
      assert forall c :: c in s ==> c == s[0] || c in s[1..];
      EscapeIsRfc(s[1..]);
      RfcEscapeChar(s[0], Escape(s[1..]));
    }
  }

  lemma {:induction false} EscapeOfPlain(s: string)
    requires forall c :: c in s ==> EscapeChar(c) == [c]
    ensures Escape(s) == s
  {
    if s != "" {
      EscapeOfPlain(s[1..]);
      assert [s[0]] + s[1..] == s;
    }
  }
}
