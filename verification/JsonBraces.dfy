/** Which objects are open after a part of the streamed text, read off the characters alone. */
module JsonBraces {
  import opened Text
  import opened JsonString
  import opened Json
  import opened JsonTree
  import opened JsonStream

  datatype Mode = Outside | Inside | Escaped

  /** A reader that knows only quotes, backslashes, braces and white space: the last string it saw, the names of the
      objects that are open (outermost first), how often the outermost one was closed, and how much white space
      there was outside strings. */
  datatype Reader = Reader(mode: Mode, last: string, open: seq<string>, closed: nat, blanks: nat) {
    function Read(c: char): Reader {
      match mode
      case Escaped => this.(mode := Inside, last := last + [c])
      case Inside =>
        if c == '"' then this.(mode := Outside)
        else this.(mode := if c == '\\' then Escaped else Inside, last := last + [c])
      case Outside =>
        if c == '"' then this.(mode := Inside, last := "")
        else if c == '{' then this.(open := open + [last])
        else if c == '}' && |open| <= 1 then this.(open := [], closed := closed + 1)
        else if c == '}' then this.(open := open[..|open| - 1])
        else if c == ' ' || c == '\t' || c == '\n' || c == '\r' then this.(blanks := blanks + 1)
        else this
    }

    function ReadAll(t: string): Reader
      decreases |t|
    {
      if t == "" then this else Read(t[0]).ReadAll(t[1..])
    }

    /** Between two values, with `dirs` open, the outermost object never closed, and no white space so far. */
    ghost predicate Between(dirs: seq<string>) {
      mode == Outside && open == [""] + dirs && closed == 0 && blanks == 0
    }
  }

  const Start := Reader(Outside, "", [], 0, 0)

  lemma {:induction false} ReadConcat(r: Reader, a: string, b: string)
    ensures r.ReadAll(a + b) == r.ReadAll(a).ReadAll(b)
    decreases |a|
  {
    if a == "" {
      assert a + b == b;
    } else {
      assert (a + b)[1..] == a[1..] + b;
      ReadConcat(r.Read(a[0]), a[1..], b);
    }
  }

  lemma ReadEscapeChar(r: Reader, c: char)
    requires r.mode == Inside
    ensures r.ReadAll(EscapeChar(c)) == r.(last := r.last + EscapeChar(c))
  {
    var e := EscapeChar(c);
    if |e| == 1 {
      ReadOne(r, e);
    } else if |e| == 2 {
      ReadOne(r.Read('\\'), e[1..]);
      assert e == ['\\', e[1]] && r.last + e == r.last + ['\\'] + [e[1]];
    } else {
      ReadEscapedSix(r, e[4], e[5]);
      assert e == ['\\', 'u', '0', '0', e[4], e[5]];
    }
  }

  lemma ReadOne(r: Reader, e: string)
    requires |e| == 1
    ensures r.ReadAll(e) == r.Read(e[0])
  {
    assert e[1..] == "";
  }

  lemma ReadEscapedSix(r: Reader, x: char, y: char)
    requires r.mode == Inside && x != '"' && x != '\\' && y != '"' && y != '\\'
    ensures r.ReadAll(['\\', 'u', '0', '0', x, y]) == r.(last := r.last + ['\\', 'u', '0', '0', x, y])
  {
    var l := r.last;
    var r1 := r.Read('\\');
    var r2 := r1.Read('u');
    var r3 := r2.Read('0').Read('0');
    ReadConcat(r, ['\\', 'u'], ['0', '0', x, y]);
    ReadConcat(r2, ['0', '0'], [x, y]);
    assert ['\\', 'u', '0', '0', x, y] == ['\\', 'u'] + ['0', '0', x, y] && ['0', '0', x, y] == ['0', '0'] + [x, y];
    ReadTwo(r, '\\', 'u');
    ReadTwo(r2, '0', '0');
    ReadTwo(r3, x, y);
    assert l + ['\\'] + ['u'] + ['0'] + ['0'] + [x] + [y] == l + ['\\', 'u', '0', '0', x, y];
  }

  lemma ReadTwo(r: Reader, x: char, y: char)
    ensures r.ReadAll([x, y]) == r.Read(x).Read(y)
  {
    assert [x, y][1..] == [y];
    ReadOne(r.Read(x), [y]);
  }

  lemma {:induction false} ReadEscape(r: Reader, s: string)
    requires r.mode == Inside
    ensures r.ReadAll(Escape(s)) == r.(last := r.last + Escape(s))
    decreases s
  {
    if s != "" {
      var e := EscapeChar(s[0]);
      ReadConcat(r, e, Escape(s[1..]));
      ReadEscapeChar(r, s[0]);
      ReadEscape(r.(last := r.last + e), s[1..]);
      Assoc(r.last, e, Escape(s[1..]));
    } else {
      assert r.last + "" == r.last;
    }
  }

  /** A quoted string leaves the reader where it was. */
  lemma ReadQuoted(r: Reader, s: string)
    requires r.mode == Outside
    ensures r.ReadAll("\"" + Escape(s) + "\"") == r.(last := Escape(s))
  {
    var i := r.(mode := Inside, last := "");
    ReadConcat(r, "\"" + Escape(s), "\"");
    ReadConcat(r, "\"", Escape(s));
    ReadOne(r, "\"");
    ReadEscape(i, s);
    assert "" + Escape(s) == Escape(s);
    ReadOne(i.(last := Escape(s)), "\"");
  }

  /** Same place, whatever string was seen last. */
  ghost predicate Same(r: Reader, q: Reader) {
    q == r.(last := q.last)
  }

  lemma {:induction false} ReadValue(r: Reader, j: Json)
    requires r.mode == Outside && r.open != []
    ensures Same(r, r.ReadAll(Print(j)))
    decreases j
  {
    match j {
      case Str(s) => ReadQuoted(r, s);
      case Arr(es) =>
        ReadConcat(r, "[" + PrintElems(es), "]");
        ReadConcat(r, "[", PrintElems(es));
        ReadOne(r, "[");
        ReadElems(r, es);
        ReadOne(r.ReadAll(PrintElems(es)), "]");
      case Obj(ms) =>
        var q := r.(open := r.open + [r.last]);
        ReadConcat(r, "{" + PrintMembers(ms), "}");
        ReadConcat(r, "{", PrintMembers(ms));
        ReadOne(r, "{");
        ReadMembers(q, ms);
        ReadOne(q.ReadAll(PrintMembers(ms)), "}");
        assert (r.open + [r.last])[..|r.open|] == r.open;
    }
  }

  lemma {:induction false} ReadElems(r: Reader, es: seq<Json>)
    requires r.mode == Outside && r.open != []
    ensures Same(r, r.ReadAll(PrintElems(es)))
    decreases es
  {
    if es != [] {
      var q := r.ReadAll(Print(es[0]));
      ReadValue(r, es[0]);
      if |es| == 1 {
        assert PrintElems(es) == Print(es[0]);
      } else {
        ReadConcat(r, Print(es[0]), "," + PrintElems(es[1..]));
        ReadComma(q, PrintElems(es[1..]));
        ReadElems(q, es[1..]);
      }
    }
  }

  /** A name and its colon. */
  lemma ReadName(r: Reader, name: string)
    requires r.mode == Outside
    ensures r.ReadAll("\"" + Escape(name) + "\":") == r.(last := Escape(name))
  {
    assert "\"" + Escape(name) + "\":" == "\"" + Escape(name) + "\"" + ":";
    ReadConcat(r, "\"" + Escape(name) + "\"", ":");
    ReadQuoted(r, name);
    ReadOne(r.(last := Escape(name)), ":");
  }

  lemma {:induction false} ReadMembers(r: Reader, ms: seq<Member>)
    requires r.mode == Outside && r.open != []
    ensures Same(r, r.ReadAll(PrintMembers(ms)))
    decreases ms
  {
    if ms != [] {
      var m, rest := ms[0], ms[1..];
      var head := "\"" + Escape(m.name) + "\":" + Print(m.value);
      var q := r.ReadAll(head);
      ReadName(r, m.name);
      ReadConcat(r, "\"" + Escape(m.name) + "\":", Print(m.value));
      ReadValue(r.(last := Escape(m.name)), m.value);
      if rest == [] {
        assert PrintMembers(ms) == head + "" && head + "" == head;
      } else {
        ReadConcat(r, head, "," + PrintMembers(rest));
        ReadComma(q, PrintMembers(rest));
        ReadMembers(q, rest);
      }
    }
  }

  lemma ReadComma(r: Reader, t: string)
    requires r.mode == Outside
    ensures r.ReadAll("," + t) == r.ReadAll(t)
  {
    ReadConcat(r, ",", t);
    ReadOne(r, ",");
  }

  // ---------- the streamed text

  lemma {:induction false} ReadOpen(r: Reader, dirs: seq<string>)
    requires r.mode == Outside && PlainPath(dirs)
    ensures Same(r.(open := r.open + dirs), r.ReadAll(Open(dirs)))
    decreases dirs
  {
    hide Escape;
    if dirs == [] {
      assert r.open + dirs == r.open;
    } else {
      assert dirs[0] in dirs;
      var head, rest := "\"" + dirs[0] + "\":", Open(dirs[1..]);
      assert Open(dirs) == head + ("{" + rest);
      ReadConcat(r, head, "{" + rest);
      ReadName(r, dirs[0]);
      var q := r.(last := dirs[0]);
      ReadConcat(q, "{", rest);
      ReadOne(q, "{");
      ReadOpen(q.Read('{'), dirs[1..]);
      assert r.open + dirs == r.open + [dirs[0]] + dirs[1..];
    }
  }

  lemma {:induction false} ReadClose(r: Reader, n: nat)
    requires r.mode == Outside && n < |r.open|
    ensures r.ReadAll(Close(n)) == r.(open := r.open[..|r.open| - n])
  {
    if n == 0 {
      assert r.open[..|r.open|] == r.open;
    } else {
      ReadClose(r, n - 1);
      ReadConcat(r, Close(n - 1), "}");
      ReadOne(r.ReadAll(Close(n - 1)), "}");
      assert r.open[..|r.open| - n + 1][..|r.open| - n] == r.open[..|r.open| - n];
    }
  }

  lemma ReadLeaf(r: Reader, name: string, v: Json)
    requires r.mode == Outside && r.open != [] && Escape(name) == name
    ensures Same(r, r.ReadAll(LeafText(name, v)))
  {
    ReadConcat(r, "\"" + name + "\":", Print(v));
    ReadName(r, name);
    ReadValue(r.(last := name), v);
  }

  lemma ReadSwitch(r: Reader, cur: seq<string>, next: seq<string>)
    requires r.Between(cur) && PlainPath(next)
    ensures r.ReadAll(Switch(cur, next)).Between(next)
  {
    hide Common;
    var k := Common(cur, next);
    var q := r.ReadAll(Close(|cur| - k));
    ReadClose(r, |cur| - k);
    assert q.open == [""] + cur[..k];
    ReadConcat(r, Close(|cur| - k) + ",", Open(next[k..]));
    ReadConcat(r, Close(|cur| - k), ",");
    ReadOne(q, ",");
    ReadOpen(q, next[k..]);
    assert [""] + next == [""] + cur[..k] + next[k..];
  }

  lemma ReadChunk(r: Reader, es: seq<Entry>, l: nat)
    requires l < |es| && r.Between(OpenDirs(es, l)) && PlainPath(es[l].Path())
    ensures r.ReadAll(Chunk(es, l)).Between(es[l].dirs)
  {
    var e := es[l];
    assert forall c :: c in e.dirs ==> c in e.Path();
    assert e.name in e.Path();
    var move := if l == 0 then Open(e.dirs) else Switch(OpenDirs(es, l), e.dirs);
    ReadConcat(r, move, LeafText(e.name, e.value));
    if l == 0 {
      ReadOpen(r, e.dirs);
      assert [""] + [] + e.dirs == [""] + e.dirs;
    } else {
      ReadSwitch(r, OpenDirs(es, l), e.dirs);
    }
    ReadLeaf(r.ReadAll(move), e.name, e.value);
  }

  /** After every entry, in any order, exactly the root and the directories of that entry are open, and the
      root has never been closed. */
  lemma {:induction false} BracesMatchDirs(es: seq<Entry>, l: nat)
    requires AllPlain(es) && l <= |es|
    ensures Start.ReadAll("{" + Emitted(es, l)).Between(OpenDirs(es, l))
  {
    hide Chunk;
    if l == 0 {
      ReadOne(Start, "{");
      assert "{" + Emitted(es, l) == "{";
    } else {
      assert es[l - 1] in es;
      BracesMatchDirs(es, l - 1);
      Assoc("{", Emitted(es, l - 1), Chunk(es, l - 1));
      ReadConcat(Start, "{" + Emitted(es, l - 1), Chunk(es, l - 1));
      ReadChunk(Start.ReadAll("{" + Emitted(es, l - 1)), es, l - 1);
    }
  }

  lemma CloseDirs(r: Reader, dirs: seq<string>)
    requires r.Between(dirs)
    ensures r.ReadAll(Close(|dirs|)).Between([])
  {
    ReadClose(r, |dirs|);
    assert ([""] + dirs)[..1] == [""] + [];
  }

  /** The last loop closes every directory and leaves the root; the last brace closes the root, once. */
  lemma BracesCloseAll(es: seq<Entry>, t: string)
    requires AllPlain(es) && t == "{" + Emitted(es, |es|) + Close(|OpenDirs(es, |es|)|)
    ensures Start.ReadAll(t).Between([])
    ensures var r := Start.ReadAll(t + "}\n"); r.mode == Outside && r.open == [] && r.closed == 1 && r.blanks == 1
  {
    hide Emitted, OpenDirs, Close;
    var shown, dirs := "{" + Emitted(es, |es|), OpenDirs(es, |es|);
    BracesMatchDirs(es, |es|);
    ReadConcat(Start, shown, Close(|dirs|));
    CloseDirs(Start.ReadAll(shown), dirs);
    ReadConcat(Start, t, "}\n");
    ReadTwo(Start.ReadAll(t), '}', '\n');
  }
}
