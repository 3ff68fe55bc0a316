/** Which documents a strict JSON reader takes: those without a control character that is written raw. */
module JsonStrict {
  import opened Text
  import opened JsonString
  import opened Json
  import opened JsonTree
  import opened OutputItems
  import opened JsonOutput

  lemma CleanConcat(a: string, b: string)
    ensures Clean(a + b) <==> Clean(a) && Clean(b)
  {
    assert forall c :: c in a + b <==> c in a || c in b;
  }

  lemma {:induction false} CleanEscape(s: string)
    ensures Clean(Escape(s)) <==> Clean(s)
  {
    if s != "" {
      assert s == [s[0]] + s[1..];
      CleanConcat([s[0]], s[1..]);
      CleanConcat(EscapeChar(s[0]), Escape(s[1..]));
      CleanEscape(s[1..]);
      CleanEscapeChar(s[0]);
    }
  }

  lemma CleanEscapeChar(c: char)
    ensures Clean(EscapeChar(c)) <==> Clean([c])
  {
    assert forall i :: 0 <= i < 16 ==> HEX[i] != '\0' && HEX[i] != UNIT_SEPARATOR;
  }

  lemma CleanFrame(a: string, s: string, b: string)
    requires Clean(a) && Clean(b)
    ensures Clean(a + s + b) <==> Clean(s)
  {
    CleanConcat(a + s, b);
    CleanConcat(a, s);
  }

  /** A value is clean throughout exactly when its text is. */
  lemma {:induction false} CleanPrint(j: Json)
    ensures Clean(Print(j)) <==> CleanJson(j)
    decreases j
  {
    match j {
      case Str(s) =>
        CleanEscape(s);
        CleanFrame("\"", Escape(s), "\"");
      case Arr(es) =>
        CleanPrintElems(es);
        CleanFrame("[", PrintElems(es), "]");
      case Obj(ms) =>
        CleanPrintMembers(ms);
        CleanFrame("{", PrintMembers(ms), "}");
    }
  }

  lemma {:induction false} CleanPrintElems(es: seq<Json>)
    ensures Clean(PrintElems(es)) <==> CleanElems(es)
    decreases es
  {
    if es != [] {
      CleanPrint(es[0]);
      CleanPrintElems(es[1..]);
      CleanConcat(",", PrintElems(es[1..]));
      CleanConcat(Print(es[0]), if |es| == 1 then "" else "," + PrintElems(es[1..]));
    }
  }

  lemma {:induction false} CleanPrintMembers(ms: seq<Member>)
    ensures Clean(PrintMembers(ms)) <==> CleanMembers(ms)
    decreases ms
  {
    if ms != [] {
      var name, value := Escape(ms[0].name), Print(ms[0].value);
      CleanEscape(ms[0].name);
      CleanPrint(ms[0].value);
      CleanPrintMembers(ms[1..]);
      CleanFrame("\"", name, "\":");
      CleanConcat("\"" + name + "\":", value);
      CleanConcat(",", PrintMembers(ms[1..]));
      CleanConcat("\"" + name + "\":" + value, if |ms| == 1 then "" else "," + PrintMembers(ms[1..]));
    }
  }

  // ---------- the tree of some entries

  predicate CleanPath(path: seq<string>) { forall c :: c in path ==> Clean(c) }

  predicate CleanEntry(e: Entry) { CleanPath(e.Path()) && Clean(Print(e.value)) }

  lemma {:induction false} PrependClean(dirs: seq<string>, name: string, v: Json, ms: seq<Member>)
    ensures CleanMembers(Prepend(dirs, name, v, ms)) <==> CleanPath(dirs + [name]) && CleanJson(v) && CleanMembers(ms)
    decreases dirs
  {
    var r := Prepend(dirs, name, v, ms);
    if dirs == [] {
      assert r[1..] == ms && forall c :: c in dirs + [name] <==> c == name;
    } else {
      var merge := IsDir(ms, dirs[0]);
      assert dirs + [name] == [dirs[0]] + (dirs[1..] + [name]);
      assert CleanPath(dirs + [name]) <==> Clean(dirs[0]) && CleanPath(dirs[1..] + [name]);
      PrependClean(dirs[1..], name, v, if merge then ms[0].value.members else []);
      assert r[1..] == if merge then ms[1..] else ms;
    }
  }

  lemma {:induction false} BuildClean(es: seq<Entry>)
    ensures CleanMembers(Build(es)) <==> forall e :: e in es ==> CleanEntry(e)
  {
    if es != [] {
      BuildClean(es[1..]);
      PrependClean(es[0].dirs, es[0].name, es[0].value, Build(es[1..]));
      CleanPrint(es[0].value);
      assert es[0] in es && forall e :: e in es[1..] ==> e in es;
      assert forall e :: e in es ==> e == es[0] || e in es[1..];
    }
  }

  // ---------- the tree of some items

  lemma {:induction false} PieceChars(s: string, sep: char, p: string)
    requires p in Pieces(s, sep)
    ensures forall c :: c in p ==> c in s
  {
    if s != "" {
      var rest := Pieces(s[1..], sep);
      assert forall c :: c in s[1..] ==> c in s;
      if p in rest {
        PieceChars(s[1..], sep, p);
      } else if s[0] != sep {
        PieceChars(s[1..], sep, rest[0]);
      }
    }
  }

  lemma {:induction false} CleanJoin(parts: seq<string>, sep: string)
    requires Clean(sep) && CleanPath(parts)
    ensures Clean(Join(parts, sep))
  {
    if |parts| > 1 {
      CleanJoin(parts[1..], sep);
      CleanConcat(parts[0] + sep, Join(parts[1..], sep));
      CleanConcat(parts[0], sep);
    }
  }

  lemma CleanPieces(s: string, sep: char)
    requires Clean([sep])
    ensures CleanPath(Pieces(s, sep)) <==> Clean(s)
  {
    JoinOfPieces(s, sep);
    if CleanPath(Pieces(s, sep)) {
      CleanJoin(Pieces(s, sep), [sep]);
    }
    forall p | p in Pieces(s, sep) && Clean(s) ensures Clean(p) { PieceChars(s, sep, p); }
  }

  /** The texts that an item brings into the document hold no NUL and no 0x1f. */
  predicate CleanTexts(it: Item) {
    match it
    case Single(_, value) => value.Some? ==> Clean(value.value)
    case Multiple(_, values, _, _) => values.Some? ==> forall v :: v in values.value ==> Clean(v)
    case ListItem(_, _, _, _) => true
  }

  ghost predicate AllClean(fields: seq<FieldInfo>, items: seq<Item>) {
    forall it :: it in items ==> Clean(KeyOf(fields, it)) && CleanTexts(it)
  }

  lemma {:induction false} ElemsClean(es: seq<Json>)
    ensures CleanElems(es) <==> forall e :: e in es ==> CleanJson(e)
  {
    if es != [] {
      ElemsClean(es[1..]);
      assert es[0] in es && forall e :: e in es[1..] ==> e in es;
      assert forall e :: e in es ==> e == es[0] || e in es[1..];
    }
  }

  lemma ValuesClean(vs: seq<string>, isObject: bool)
    requires isObject ==> forall v :: v in vs ==> IsJsonText(v)
    ensures CleanElems(ElemsOf(vs, isObject)) <==> forall v :: v in vs ==> Clean(v)
  {
    var es := ElemsOf(vs, isObject);
    ElemsClean(es);
    forall i | 0 <= i < |vs| ensures CleanJson(es[i]) <==> Clean(vs[i]) {
      assert vs[i] in vs;
      CleanPrint(es[i]);
    }
    assert forall i :: 0 <= i < |vs| ==> es[i] in es && vs[i] in vs;
  }

  lemma ItemClean(fields: seq<FieldInfo>, it: Item)
    requires Printable(fields, it)
    ensures CleanEntry(EntryOf(fields, it)) <==> Clean(KeyOf(fields, it)) && CleanTexts(it)
  {
    EntryPath(fields, it);
    CleanPieces(KeyOf(fields, it), '.');
    CleanPrint(ItemJson(it));
    if it.Multiple? && it.values.Some? { ValuesClean(it.values.value, it.isObject); }
  }

  lemma ItemsClean(fields: seq<FieldInfo>, items: seq<Item>)
    requires AllPrintable(fields, items)
    ensures CleanMembers(Build(Entries(fields, items))) <==> AllClean(fields, items)
  {
    var es := Entries(fields, items);
    BuildClean(es);
    forall i | 0 <= i < |items|
      ensures CleanEntry(es[i]) <==> Clean(KeyOf(fields, items[i])) && CleanTexts(items[i])
    {
      assert items[i] in items;
      ItemClean(fields, items[i]);
    }
    assert forall i :: 0 <= i < |items| ==> es[i] in es && items[i] in items;
  }
}
