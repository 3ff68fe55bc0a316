/** When the tree of a sorted list of keys has no object with two members of one name. */
module JsonKeys {
  import opened Text
  import opened Json
  import opened JsonTree

  /** Path components come from splitting at dots. */
  predicate DotFree(path: seq<string>) {
    forall c :: c in path ==> '.' !in c
  }

  ghost predicate AllDotFree(es: seq<Entry>) {
    forall e :: e in es ==> DotFree(e.Path())
  }

  ghost predicate KeysSorted(es: seq<Entry>) {
    forall i, j :: 0 <= i < j < |es| ==> StrLe(es[i].Key(), es[j].Key())
  }

  /** Neither key is the other one, nor the name of a directory above it. */
  predicate Apart(p: seq<string>, q: seq<string>) {
    !(p <= q) && !(q <= p)
  }

  ghost predicate PathsApart(es: seq<Entry>) {
    forall i, j :: 0 <= i < j < |es| ==> Apart(es[i].Path(), es[j].Path())
  }

  /** Two equal keys, or a key and the key of a directory above it. */
  predicate KeysClash(a: string, b: string) {
    a == b || a + "." <= b || b + "." <= a
  }

  // ---------- paths and dotted keys

  lemma JoinCons(c: string, path: seq<string>)
    requires path != []
    ensures Join([c] + path, ".") == c + "." + Join(path, ".")
  {
    assert ([c] + path)[1..] == path;
  }

  lemma KeyBelow(c: string, e: Entry)
    ensures Entry([c] + e.dirs, e.name, e.value).Path() == [c] + e.Path()
    ensures Entry([c] + e.dirs, e.name, e.value).Key() == c + "." + e.Key()
  {
    JoinCons(c, e.Path());
    assert ([c] + e.dirs) + [e.name] == [c] + e.Path();
  }

  /** A key that starts with the component `c` and a dot lies in the directory `c`. */
  lemma KeyInDirectory(c: string, path: seq<string>)
    requires path != [] && '.' !in c && DotFree(path)
    requires c + "." <= Join(path, ".")
    ensures |path| >= 2 && path[0] == c
  {
    var key := Join(path, ".");
    var t := key[|c| + 1..];
    assert key == c + ['.'] + t;
    PiecesCons(c, t, '.');
    PiecesOfJoin(path, '.');
  }

  /** On dotted keys, clashing is what a caller can read off the strings. */
  lemma {:induction false} PrefixOfKeys(p: seq<string>, q: seq<string>)
    requires p != [] && q != [] && DotFree(p) && DotFree(q)
    ensures p <= q <==> Join(p, ".") == Join(q, ".") || Join(p, ".") + "." <= Join(q, ".")
    decreases p
  {
    var a, b := Join(p, "."), Join(q, ".");
    PiecesOfJoin(p, '.');
    PiecesOfJoin(q, '.');
    if |p| == 1 {
      if p[0] == q[0] && |q| > 1 {
        assert a + "." <= b;
      }
      if a + "." <= b {
        assert p[0] in p;
        KeyInDirectory(p[0], q);
      }
    } else {
      var c := p[0];
      assert c in p;
      assert p == [c] + p[1..];
      JoinCons(c, p[1..]);
      assert c + "." <= a;
      if a + "." <= b || a == b {
        assert a <= b;
        KeyInDirectory(c, q);
      }
      if |q| > 1 && q[0] == c {
        assert q == [c] + q[1..];
        JoinCons(c, q[1..]);
        PrefixOfKeys(p[1..], q[1..]);
        PrefixCut(c + ".", Join(p[1..], "."), Join(q[1..], "."));
        assert p <= q <==> p[1..] <= q[1..];
      }
    }
  }

  lemma PrefixCut(p: string, a: string, b: string)
    ensures p + a == p + b <==> a == b
    ensures (p + a) + "." <= p + b <==> a + "." <= b
  {
    assert (p + a)[|p|..] == a && (p + b)[|p|..] == b;
    assert ((p + a) + ".")[|p|..] == a + ".";
    if (p + a) + "." <= p + b {
      assert forall i :: 0 <= i < |a + "."| ==> (a + ".")[i] == ((p + a) + ".")[|p| + i] == (p + b)[|p| + i] == b[i];
    }
  }

  // ---------- unique names make keys apart

  lemma {:induction false} UniqueMakesApart(ms: seq<Member>, i: nat, j: nat)
    requires UniqueNames(ms) && i < j < |Flatten(ms)|
    ensures Apart(Flatten(ms)[i].Path(), Flatten(ms)[j].Path())
    decreases ms
  {
    var front, back := FlattenMember(ms[0]), Flatten(ms[1..]);
    if j < |front| {
      var sub := ms[0].value.members;
      UniqueMakesApart(sub, i, j);
      KeyBelow(ms[0].name, Flatten(sub)[i]);
      KeyBelow(ms[0].name, Flatten(sub)[j]);
    } else {
      assert Flatten(ms)[j] == back[j - |front|];
      if i < |front| {
        FlattenNames(ms[1..], Flatten(ms)[j]);
        assert Flatten(ms)[i].Path()[0] == ms[0].name;
      } else {
        UniqueMakesApart(ms[1..], i - |front|, j - |front|);
      }
    }
  }

  // ---------- keys apart, in byte order, make names unique

  /** No directory is empty. */
  ghost predicate Solid(ms: seq<Member>)
    decreases ms
  {
    ms != [] ==>
      && (ms[0].value.Obj? ==> ms[0].value.members != [] && Solid(ms[0].value.members))
      && Solid(ms[1..])
  }

  lemma {:induction false} PrependSolid(e: Entry, ms: seq<Member>)
    requires Solid(ms) && !e.value.Obj?
    ensures Solid(Prepend(e.dirs, e.name, e.value, ms))
    decreases e.dirs
  {
    var r := Prepend(e.dirs, e.name, e.value, ms);
    if e.dirs == [] {
      assert r[1..] == ms;
    } else {
      var merge := IsDir(ms, e.dirs[0]);
      PrependSolid(Entry(e.dirs[1..], e.name, e.value), if merge then ms[0].value.members else []);
      assert r[1..] == if merge then ms[1..] else ms;
    }
  }

  lemma {:induction false} SolidFlatten(ms: seq<Member>)
    requires Solid(ms) && ms != []
    ensures FlattenMember(ms[0]) != []
    decreases ms
  {
    if ms[0].value.Obj? { SolidFlatten(ms[0].value.members); }
  }

  lemma SolidRest(ms: seq<Member>)
    requires Solid(ms) && ms != []
    ensures Solid(ms[1..])
  {
  }

  /** Every member leads to some value below it. */
  lemma {:induction false} MemberEntry(ms: seq<Member>, i: nat) returns (f: Entry)
    requires Solid(ms) && i < |ms|
    ensures f in Flatten(ms) && f.Path()[0] == ms[i].name
    ensures ms[i].value.Obj? <==> f.dirs != []
  {
    hide Solid;
    SolidRest(ms);
    if i == 0 {
      SolidFlatten(ms);
      f := FlattenMember(ms[0])[0];
    } else {
      f := MemberEntry(ms[1..], i - 1);
      assert ms[1..][i - 1] == ms[i];
    }
  }

  /** What `e` must satisfy to be put in front of the tree `ms`. */
  ghost predicate Precedes(e: Entry, ms: seq<Member>) {
    && DotFree(e.Path()) && AllDotFree(Flatten(ms)) && KeysSorted(Flatten(ms))
    && forall f :: f in Flatten(ms) ==> StrLe(e.Key(), f.Key()) && Apart(e.Path(), f.Path())
  }

  lemma PrecedesBelow(e: Entry, ms: seq<Member>)
    requires Precedes(e, ms) && e.dirs != [] && IsDir(ms, e.dirs[0])
    ensures Precedes(Entry(e.dirs[1..], e.name, e.value), ms[0].value.members)
  {
    var c, sub := e.dirs[0], ms[0].value.members;
    var e' := Entry(e.dirs[1..], e.name, e.value);
    assert [c] + e.dirs[1..] == e.dirs;
    KeyBelow(c, e');
    assert Flatten(ms) == Below(c, Flatten(sub)) + Flatten(ms[1..]);
    forall i | 0 <= i < |Flatten(sub)|
      ensures var f' := Flatten(sub)[i];
              StrLe(e'.Key(), f'.Key()) && Apart(e'.Path(), f'.Path()) && DotFree(f'.Path())
    {
      var f' := Flatten(sub)[i];
      var f := Entry([c] + f'.dirs, f'.name, f'.value);
      assert Flatten(ms)[i] == f;
      KeyBelow(c, f');
      StrLeStrip(c + ".", e'.Key(), f'.Key());
    }
    forall i, j | 0 <= i < j < |Flatten(sub)|
      ensures StrLe(Flatten(sub)[i].Key(), Flatten(sub)[j].Key())
    {
      var f, g := Flatten(sub)[i], Flatten(sub)[j];
      KeyBelow(c, f);
      KeyBelow(c, g);
      assert Flatten(ms)[i].Key() == c + "." + f.Key() && Flatten(ms)[j].Key() == c + "." + g.Key();
      StrLeStrip(c + ".", f.Key(), g.Key());
    }
  }

  /** If the first directory does not match, no later member has its name: keys of one directory are contiguous. */
  lemma DirectoryContiguous(e: Entry, ms: seq<Member>, i: nat)
    requires Precedes(e, ms) && Solid(ms) && e.dirs != [] && i < |ms| && ms[i].name == e.dirs[0]
    ensures IsDir(ms, e.dirs[0])
  {
    var c := e.dirs[0];
    var f := MemberEntry(ms, i);
    assert c in e.Path();
    assert [c] <= e.Path();
    assert f.dirs == [] ==> f.Path() == [c];
    if f.dirs != [] {
      InDirectory(e);
      InDirectory(f);
      SolidFlatten(ms);
      var g := Flatten(ms)[0];
      assert g in Flatten(ms);
      var k :| 0 <= k < |Flatten(ms)| && Flatten(ms)[k] == f;
      StrLeRefl(f.Key());
      PrefixContiguous(c + ".", e.Key(), g.Key(), f.Key());
      KeyInDirectory(c, g.Path());
    }
  }

  lemma InDirectory(e: Entry)
    requires e.dirs != []
    ensures e.dirs[0] + "." <= e.Key()
  {
    assert e.dirs == [e.dirs[0]] + e.dirs[1..];
    KeyBelow(e.dirs[0], Entry(e.dirs[1..], e.name, e.value));
  }

  lemma {:induction false} UniquePrepend(e: Entry, ms: seq<Member>)
    requires UniqueNames(ms) && Solid(ms) && Precedes(e, ms) && !e.value.Obj?
    ensures UniqueNames(Prepend(e.dirs, e.name, e.value, ms))
    decreases e.dirs
  {
    var r := Prepend(e.dirs, e.name, e.value, ms);
    if e.dirs == [] {
      forall i | 0 <= i < |ms| ensures ms[i].name != e.name {
        var f := MemberEntry(ms, i);
        assert Apart(e.Path(), f.Path());
      }
      assert r[1..] == ms;
    } else {
      var e' := Entry(e.dirs[1..], e.name, e.value);
      if IsDir(ms, e.dirs[0]) {
        PrecedesBelow(e, ms);
        UniquePrepend(e', ms[0].value.members);
        assert r[1..] == ms[1..];
      } else {
        forall i | 0 <= i < |ms| ensures ms[i].name != e.dirs[0] {
          if ms[i].name == e.dirs[0] { DirectoryContiguous(e, ms, i); }
        }
        UniquePrepend(e', []);
        assert r[1..] == ms;
      }
    }
  }

  lemma {:induction false} ApartMakesUnique(es: seq<Entry>)
    requires forall e :: e in es ==> !e.value.Obj?
    requires AllDotFree(es) && KeysSorted(es) && PathsApart(es)
    ensures UniqueNames(Build(es)) && Solid(Build(es))
  {
    if es != [] {
      ApartMakesUnique(es[1..]);
      FlattenBuild(es[1..]);
      assert forall f :: f in es[1..] ==> exists i :: 1 <= i < |es| && es[i] == f;
      assert es[0] in es;
      PrependSolid(es[0], Build(es[1..]));
      UniquePrepend(es[0], Build(es[1..]));
    }
  }

  /** For keys in byte order: no object repeats a name, and so each directory is opened once, exactly when
      no two keys clash. */
  lemma UniqueIffNoClash(es: seq<Entry>)
    requires forall e :: e in es ==> !e.value.Obj?
    requires AllDotFree(es) && KeysSorted(es)
    ensures UniqueNames(Build(es))
       <==> forall i, j :: 0 <= i < j < |es| ==> !KeysClash(es[i].Key(), es[j].Key())
  {
    FlattenBuild(es);
    forall i, j | 0 <= i < j < |es|
      ensures Apart(es[i].Path(), es[j].Path()) <==> !KeysClash(es[i].Key(), es[j].Key())
    {
      assert es[i] in es && es[j] in es;
      PrefixOfKeys(es[i].Path(), es[j].Path());
      PrefixOfKeys(es[j].Path(), es[i].Path());
    }
    if UniqueNames(Build(es)) {
      forall i, j | 0 <= i < j < |es| ensures Apart(es[i].Path(), es[j].Path()) {
        UniqueMakesApart(Build(es), i, j);
      }
    } else if PathsApart(es) {
      ApartMakesUnique(es);
    }
  }
}
