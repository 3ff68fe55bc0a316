/** Strings as the C program and GLib handle them: splitting, joining, byte order, decimal digits.
    A `char` stands for one byte; every statement here holds for all characters. */
module Text {

  /** Concatenation is associative; the verifier has to be told. */
  lemma Assoc(a: string, b: string, c: string)
    ensures a + (b + c) == (a + b) + c
  {
  }

  // ---------- splitting and joining

  /** The maximal `sep`-free pieces of `s`, in order; there is always at least one. */
  function Pieces(s: string, sep: char): (r: seq<string>)
    ensures |r| >= 1
  {
    if s == "" then [""]
    else
      var rest := Pieces(s[1..], sep);
      if s[0] == sep then [""] + rest else [[s[0]] + rest[0]] + rest[1..]
  }

  /** GLib's g_strsplit with a one-character delimiter and no limit: the empty string has no piece at all. */
  function Split(s: string, sep: char): seq<string> {
    if s == "" then [] else Pieces(s, sep)
  }

  function Join(parts: seq<string>, sep: string): string {
    if parts == [] then ""
    else if |parts| == 1 then parts[0]
    else parts[0] + sep + Join(parts[1..], sep)
  }

  lemma {:induction false} JoinSnoc(parts: seq<string>, last: string, sep: string)
    requires parts != []
    ensures Join(parts + [last], sep) == Join(parts, sep) + sep + last
  {
    if |parts| == 1 {
      assert (parts + [last])[1..] == [last];
    } else {
      var inner := Join(parts[1..], sep);
      JoinSnoc(parts[1..], last, sep);
      assert (parts + [last])[1..] == parts[1..] + [last];
      Assoc(parts[0] + sep, inner + sep, last);
      Assoc(parts[0] + sep, inner, sep);
    }
  }

  lemma {:induction false} PiecesOfFree(p: string, sep: char)
    requires sep !in p
    ensures Pieces(p, sep) == [p]
  {
    if p != "" {
      PiecesOfFree(p[1..], sep);
      assert [p[0]] + p[1..] == p;
    }
  }

  lemma {:induction false} PiecesCons(p: string, t: string, sep: char)
    requires sep !in p
    ensures Pieces(p + [sep] + t, sep) == [p] + Pieces(t, sep)
  {
    if p == "" {
      assert (p + [sep] + t)[1..] == t;
    } else {
      PiecesCons(p[1..], t, sep);
      assert (p + [sep] + t)[1..] == p[1..] + [sep] + t;
      assert [p[0]] + p[1..] == p;
    }
  }

  lemma {:induction false} PiecesFree(s: string, sep: char)
    ensures forall p :: p in Pieces(s, sep) ==> sep !in p
  {
    if s != "" {
      PiecesFree(s[1..], sep);
      var rest := Pieces(s[1..], sep);
      assert rest[0] in rest;
    }
  }

  /** Splitting undoes joining. */
  lemma {:induction false} PiecesOfJoin(parts: seq<string>, sep: char)
    requires parts != []
    requires forall p :: p in parts ==> sep !in p
    ensures Pieces(Join(parts, [sep]), sep) == parts
  {
    assert parts == [parts[0]] + parts[1..];
    if |parts| == 1 {
      PiecesOfFree(parts[0], sep);
    } else {
      PiecesOfJoin(parts[1..], sep);
      PiecesCons(parts[0], Join(parts[1..], [sep]), sep);
    }
  }

  lemma LongerFirst(p: string, parts: seq<string>, sep: string)
    requires parts != []
    ensures Join([p + parts[0]] + parts[1..], sep) == p + Join(parts, sep)
  {
    if |parts| > 1 {
      assert ([p + parts[0]] + parts[1..])[1..] == parts[1..];
      var inner := Join(parts[1..], sep);
      Assoc(p, parts[0], sep);
      Assoc(p, parts[0] + sep, inner);
    }
  }

  /** Joining undoes splitting. */
  lemma {:induction false} JoinOfPieces(s: string, sep: char)
    ensures Join(Pieces(s, sep), [sep]) == s
  {
    if s != "" {
      JoinOfPieces(s[1..], sep);
      var rest := Pieces(s[1..], sep);
      var whole := Pieces(s, sep);
      assert s == [s[0]] + s[1..];
      hide Pieces;
      if s[0] == sep {
        assert whole[1..] == rest;
      } else {
        hide Join;
        LongerFirst([s[0]], rest, [sep]);
      }
    }
  }

  // ---------- byte order

  /** `strcmp (a, b) <= 0`. */
  predicate StrLe(a: string, b: string) {
    a == "" || (b != "" && (a[0] < b[0] || (a[0] == b[0] && StrLe(a[1..], b[1..]))))
  }

  /** The order byte by byte: `a` starts `b`, or has the smaller byte at the first place where they differ. */
  ghost predicate ByteLe(a: string, b: string) {
    a <= b || exists k :: 0 <= k < |a| && k < |b| && (forall i :: 0 <= i < k ==> a[i] == b[i]) && a[k] < b[k]
  }

  lemma {:induction false} FirstDifference(a: string, b: string) returns (k: nat)
    ensures k <= |a| && k <= |b| && forall i :: 0 <= i < k ==> a[i] == b[i]
    ensures k < |a| && k < |b| ==> a[k] != b[k]
    ensures StrLe(a, b) <==> k == |a| || (k < |b| && a[k] < b[k])
  {
    k := 0;
    if a != "" && b != "" && a[0] == b[0] {
      var l := FirstDifference(a[1..], b[1..]);
      k := l + 1;
    }
  }

  lemma StrLeMeans(a: string, b: string)
    ensures StrLe(a, b) <==> ByteLe(a, b)
  {
    hide StrLe;
    var k := FirstDifference(a, b);
    assert k == |a| <==> a <= b;
  }

  lemma {:induction false} StrLeRefl(a: string)
    ensures StrLe(a, a)
  {
    if a != "" { StrLeRefl(a[1..]); }
  }

  lemma {:induction false} StrLeTotal(a: string, b: string)
    ensures StrLe(a, b) || StrLe(b, a)
  {
    if a != "" && b != "" { StrLeTotal(a[1..], b[1..]); }
  }

  lemma {:induction false} StrLeTrans(a: string, b: string, c: string)
    requires StrLe(a, b) && StrLe(b, c)
    ensures StrLe(a, c)
  {
    if a != "" && a[0] == b[0] == c[0] { StrLeTrans(a[1..], b[1..], c[1..]); }
  }

  lemma {:induction false} StrLeStrip(p: string, a: string, b: string)
    ensures StrLe(p + a, p + b) == StrLe(a, b)
  {
    if p == "" {
      assert p + a == a && p + b == b;
    } else {
      StrLeStrip(p[1..], a, b);
      assert (p + a)[1..] == p[1..] + a && (p + b)[1..] == p[1..] + b;
    }
  }

  /** In byte order the strings with a common prefix are contiguous. */
  lemma {:induction false} PrefixContiguous(p: string, a: string, b: string, c: string)
    requires p <= a && p <= c
    requires StrLe(a, b) && StrLe(b, c)
    ensures p <= b
  {
    if p != "" {
      assert p[0] == a[0] == b[0] == c[0];
      PrefixContiguous(p[1..], a[1..], b[1..], c[1..]);
      assert b == [b[0]] + b[1..] && p == [p[0]] + p[1..];
    }
  }

  // ---------- decimal digits

  const DIGITS := "0123456789"

  /** printf's %u. */
  function Decimal(n: nat): (r: string)
    ensures |r| >= 1
  {
    if n < 10 then [DIGITS[n]] else Decimal(n / 10) + [DIGITS[n % 10]]
  }

  /** What a reader of decimal digits computes. */
  function Value(s: string): int {
    if s == "" then 0 else 10 * Value(s[..|s| - 1]) + (s[|s| - 1] as int - '0' as int)
  }

  /** The digits have the value of the number, and do not start with a zero that could be left out. */
  lemma {:induction false} DecimalMeans(n: nat)
    ensures Value(Decimal(n)) == n
    ensures forall c :: c in Decimal(n) ==> '0' <= c <= '9'
    ensures n > 0 ==> Decimal(n)[0] != '0'
  {
    assert forall i :: 0 <= i < 10 ==> DIGITS[i] as int == '0' as int + i;
    var s := Decimal(n);
    if n >= 10 {
      DecimalMeans(n / 10);
      assert s[..|s| - 1] == Decimal(n / 10);
    } else {
      assert s[..0] == "" && Value("") == 0;
    }
  }

  lemma {:induction false} DecimalLengthMonotone(m: nat, n: nat)
    requires m <= n
    ensures |Decimal(m)| <= |Decimal(n)|
  {
    if m >= 10 { DecimalLengthMonotone(m / 10, n / 10); }
  }

  // ---------- padding

  function Repeat(c: char, n: nat): (r: string)
    ensures |r| == n && forall i :: 0 <= i < n ==> r[i] == c
  {
    if n == 0 then "" else [c] + Repeat(c, n - 1)
  }

  function Min(a: nat, b: nat): nat { if a < b then a else b }

  function Max(a: nat, b: nat): nat { if a < b then b else a }

  /** printf's %.*s. */
  function Cut(s: string, precision: nat): string { s[..Min(|s|, precision)] }

  /** printf's %-*.*s with one number for width and precision. */
  function PadRight(s: string, width: nat): (r: string)
    ensures |r| == width
    ensures |s| <= width ==> s <= r
  {
    Cut(s, width) + Repeat(' ', width - Min(|s|, width))
  }

  /** printf's %*.*s with one number for width and precision. */
  function PadLeft(s: string, width: nat): (r: string)
    ensures |r| == width
    ensures |s| <= width ==> r[width - |s|..] == s
  {
    Repeat(' ', width - Min(|s|, width)) + Cut(s, width)
  }
}
