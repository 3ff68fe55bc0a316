/** The nested object that a flat list of dotted keys stands for. */
module JsonTree {
  import opened Wrappers
  import opened Text
  import opened Json

  /** A dotted key, split: the directories, then the name of the value. */
  datatype Entry = Entry(dirs: seq<string>, name: string, value: Json) {
    function Path(): seq<string> { dirs + [name] }

    function Key(): string { Join(Path(), ".") }
  }

  /** A member that a directory made; values are never objects themselves. */
  predicate IsDir(ms: seq<Member>, c: string) {
    ms != [] && ms[0].name == c && ms[0].value.Obj?
  }

  /** Puts one value in front, inside the first directory when that is the one its key names. */
  function Prepend(dirs: seq<string>, name: string, v: Json, ms: seq<Member>): (r: seq<Member>)
    ensures r != []
    ensures r[0].name == (dirs + [name])[0]
    ensures dirs != [] ==> r[0].value.Obj?
    decreases dirs
  {
    if dirs == [] then [Member(name, v)] + ms
    else if IsDir(ms, dirs[0]) then
      [Member(dirs[0], Obj(Prepend(dirs[1..], name, v, ms[0].value.members)))] + ms[1..]
    else
      [Member(dirs[0], Obj(Prepend(dirs[1..], name, v, [])))] + ms
  }

  /** The members of the tree of `es`, one value after the other. */
  function Build(es: seq<Entry>): seq<Member> {
    if es == [] then [] else Prepend(es[0].dirs, es[0].name, es[0].value, Build(es[1..]))
  }

  // ---------- reading the tree back as a list

  function Below(c: string, es: seq<Entry>): (r: seq<Entry>)
    ensures |r| == |es|
    ensures forall i :: 0 <= i < |r| ==> r[i] == Entry([c] + es[i].dirs, es[i].name, es[i].value)
  {
    seq(|es|, i requires 0 <= i < |es| => Entry([c] + es[i].dirs, es[i].name, es[i].value))
  }

  /** Every value of the tree with the path that leads to it, in the order of the text. */
  function Flatten(ms: seq<Member>): seq<Entry>
    decreases ms
  {
    if ms == [] then [] else FlattenMember(ms[0]) + Flatten(ms[1..])
  }

  function FlattenMember(m: Member): seq<Entry>
    decreases m
  {
    match m.value
    case Obj(sub) => Below(m.name, Flatten(sub))
    case _ => [Entry([], m.name, m.value)]
  }

  lemma FlattenCons(m: Member, ms: seq<Member>)
    ensures Flatten([m] + ms) == FlattenMember(m) + Flatten(ms)
  {
    assert ([m] + ms)[1..] == ms;
  }

  lemma FlattenDir(c: string, e: Entry, sub: seq<Member>, sub': seq<Member>)
    requires Flatten(sub') == [e] + Flatten(sub)
    ensures FlattenMember(Member(c, Obj(sub')))
         == [Entry([c] + e.dirs, e.name, e.value)] + FlattenMember(Member(c, Obj(sub)))
  {
  }

  lemma {:induction false} FlattenPrepend(dirs: seq<string>, name: string, v: Json, ms: seq<Member>)
    requires !v.Obj?
    ensures Flatten(Prepend(dirs, name, v, ms)) == [Entry(dirs, name, v)] + Flatten(ms)
    decreases dirs, 1
  {
    if dirs == [] {
      FlattenCons(Member(name, v), ms);
    } else {
      var c := dirs[0];
      assert [c] + dirs[1..] == dirs;
      if IsDir(ms, c) {
        FlattenMerge(dirs, name, v, ms);
      } else {
        var sub' := Prepend(dirs[1..], name, v, []);
        FlattenPrepend(dirs[1..], name, v, []);
        FlattenDir(c, Entry(dirs[1..], name, v), [], sub');
        FlattenCons(Member(c, Obj(sub')), ms);
      }
    }
  }

  lemma {:induction false} FlattenMerge(dirs: seq<string>, name: string, v: Json, ms: seq<Member>)
    requires !v.Obj? && dirs != [] && IsDir(ms, dirs[0])
    ensures Flatten(Prepend(dirs, name, v, ms)) == [Entry(dirs, name, v)] + Flatten(ms)
    decreases dirs, 0
  {
    hide Flatten, FlattenMember, Below;
    var c, m, sub := dirs[0], ms[0], ms[0].value.members;
    var sub' := Prepend(dirs[1..], name, v, sub);
    FlattenPrepend(dirs[1..], name, v, sub);
    FlattenDir(c, Entry(dirs[1..], name, v), sub, sub');
    assert [c] + dirs[1..] == dirs && m == Member(c, Obj(sub));
    var front, inner, back := [Entry(dirs, name, v)], FlattenMember(m), Flatten(ms[1..]);
    FlattenCons(Member(c, Obj(sub')), ms[1..]);
    assert Flatten(Prepend(dirs, name, v, ms)) == (front + inner) + back;
    assert ms == [m] + ms[1..];
    FlattenCons(m, ms[1..]);
    assert (front + inner) + back == front + (inner + back);
  }

  /** No entry is lost, added or moved: the tree holds exactly the entries, in their order. */
  lemma {:induction false} FlattenBuild(es: seq<Entry>)
    requires forall e :: e in es ==> !e.value.Obj?
    ensures Flatten(Build(es)) == es
  {
    if es != [] {
      FlattenBuild(es[1..]);
      FlattenPrepend(es[0].dirs, es[0].name, es[0].value, Build(es[1..]));
      assert es == [es[0]] + es[1..];
    }
  }

  // ---------- looking a path up

  /** The value of the first member called `path[0]`, and so on down the path. */
  function Get(ms: seq<Member>, path: seq<string>): Option<Json>
    requires path != []
    decreases path, |ms|
  {
    if ms == [] then None
    else if ms[0].name != path[0] then Get(ms[1..], path)
    else if |path| == 1 then Some(ms[0].value)
    else if ms[0].value.Obj? then Get(ms[0].value.members, path[1..])
    else None
  }

  /** No object, at any depth, has two members with one name. */
  ghost predicate UniqueNames(ms: seq<Member>)
    decreases ms
  {
    ms != [] ==>
      && (forall i :: 0 < i < |ms| ==> ms[i].name != ms[0].name)
      && (ms[0].value.Obj? ==> UniqueNames(ms[0].value.members))
      && UniqueNames(ms[1..])
  }

  lemma {:induction false} FlattenNames(ms: seq<Member>, e: Entry)
    requires e in Flatten(ms)
    ensures exists m :: m in ms && m.name == e.Path()[0]
    decreases ms
  {
    if e in FlattenMember(ms[0]) {
      assert ms[0] in ms;
    } else {
      FlattenNames(ms[1..], e);
      var m :| m in ms[1..] && m.name == e.Path()[0];
      assert m in ms;
    }
  }

  /** With unique names, every value is found at its path. */
  lemma {:induction false} GetFlatten(ms: seq<Member>, e: Entry)
    requires UniqueNames(ms) && e in Flatten(ms)
    ensures Get(ms, e.Path()) == Some(e.value)
    decreases ms
  {
    if e in FlattenMember(ms[0]) {
      if ms[0].value.Obj? {
        var sub := ms[0].value.members;
        var e' :| e' in Flatten(sub) && e == Entry([ms[0].name] + e'.dirs, e'.name, e'.value);
        GetFlatten(sub, e');
        assert e.Path()[1..] == e'.Path();
      }
    } else {
      FlattenNames(ms[1..], e);
      GetFlatten(ms[1..], e);
    }
  }
}
