/** The text that is streamed for a list of entries, where only the open directories of the previous entry
    are remembered, is the printed tree of those entries. */
module JsonStream {
  import opened Text
  import opened JsonString
  import opened Json
  import opened JsonTree

  /** Names that need no escaping: the printer writes keys as they are. */
  predicate PlainPath(path: seq<string>) {
    forall c :: c in path ==> Escape(c) == c
  }

  ghost predicate AllPlain(es: seq<Entry>) {
    forall e :: e in es ==> PlainPath(e.Path())
  }

  /** Only directories print objects. */
  ghost predicate AllLeaves(es: seq<Entry>) {
    forall e :: e in es ==> !e.value.Obj?
  }

  /** How many directories two entries share. */
  function Common(a: seq<string>, b: seq<string>): (k: nat)
    ensures k <= |a| && k <= |b| && a[..k] == b[..k]
    ensures k < |a| && k < |b| ==> a[k] != b[k]
  {
    if a != [] && b != [] && a[0] == b[0] then 1 + Common(a[1..], b[1..]) else 0
  }

  function Open(dirs: seq<string>): string {
    if dirs == [] then "" else "\"" + dirs[0] + "\":{" + Open(dirs[1..])
  }

  function Close(n: nat): string {
    if n == 0 then "" else Close(n - 1) + "}"
  }

  function LeafText(name: string, v: Json): string {
    "\"" + name + "\":" + Print(v)
  }

  /** What is printed between two values: directories closed, a comma, directories opened. */
  function Switch(cur: seq<string>, next: seq<string>): string {
    var k := Common(cur, next);
    Close(|cur| - k) + "," + Open(next[k..])
  }

  /** The directories that are open after the first `l` entries. */
  function OpenDirs(es: seq<Entry>, l: nat): seq<string>
    requires l <= |es|
  {
    if l == 0 then [] else es[l - 1].dirs
  }

  /** What is printed for entry `l`. */
  function Chunk(es: seq<Entry>, l: nat): string
    requires l < |es|
  {
    (if l == 0 then Open(es[l].dirs) else Switch(es[l - 1].dirs, es[l].dirs)) + LeafText(es[l].name, es[l].value)
  }

  /** What the stream has printed after `l` entries, with the directories of the last one still open. */
  function Emitted(es: seq<Entry>, l: nat): string
    requires l <= |es|
  {
    if l == 0 then "" else Emitted(es, l - 1) + Chunk(es, l - 1)
  }

  /** All that is still printed after `l` entries, down to the root. */
  function Rest(es: seq<Entry>, l: nat): string
    requires l <= |es|
    decreases |es| - l
  {
    if l == |es| then Close(|OpenDirs(es, l)|) else Chunk(es, l) + Rest(es, l + 1)
  }

  // ---------- the printed tree, seen from the left

  /** The members after the first one. */
  function CommaMembers(ms: seq<Member>): string {
    if ms == [] then "" else "," + PrintMembers(ms)
  }

  /** What follows a value printed with `cur` open, when the tree `ms` follows it. */
  function Tail(cur: seq<string>, ms: seq<Member>): string
    decreases cur
  {
    if cur == [] then CommaMembers(ms)
    else if IsDir(ms, cur[0]) then Tail(cur[1..], ms[0].value.members) + "}" + CommaMembers(ms[1..])
    else Close(|cur|) + CommaMembers(ms)
  }

  lemma PrintCons(m: Member, ms: seq<Member>)
    ensures PrintMembers([m] + ms) == "\"" + Escape(m.name) + "\":" + Print(m.value) + CommaMembers(ms)
  {
    assert ([m] + ms)[1..] == ms;
  }

  lemma TailNil(cur: seq<string>)
    ensures Tail(cur, []) == Close(|cur|)
  {
  }

  lemma PrintDir(c: string, sub: seq<Member>, ms: seq<Member>)
    requires Escape(c) == c
    ensures PrintMembers([Member(c, Obj(sub))] + ms) == "\"" + c + "\":{" + PrintMembers(sub) + "}" + CommaMembers(ms)
  {
    PrintCons(Member(c, Obj(sub)), ms);
  }

  lemma DirText(c: string, o: string, l: string, t: string, rest: string)
    ensures c + (o + l + t) + "}" + rest == (c + o) + l + (t + "}" + rest)
  {
  }

  lemma CloseText(o: string, l: string, t: string, rest: string)
    ensures (o + l + t) + "}" + rest == o + l + (t + "}" + rest)
  {
  }

  lemma Regroup(a: string, b: string, c: string, d: string)
    ensures a + (b + c + d) == (a + b) + c + d
    ensures (a + b + c) + d == a + b + (c + d)
    ensures (a + (b + c)) + d == a + (b + c + d)
  {
  }

  lemma {:induction false} PrintPrepend(dirs: seq<string>, name: string, v: Json, ms: seq<Member>)
    requires PlainPath(dirs + [name])
    ensures PrintMembers(Prepend(dirs, name, v, ms)) == Open(dirs) + LeafText(name, v) + Tail(dirs, ms)
    decreases dirs
  {
    var path := dirs + [name];
    assert path[0] in path;
    if dirs == [] {
      PrintLeafFirst(name, v, ms);
    } else {
      hide LeafText, Escape, Print;
      var merge := IsDir(ms, dirs[0]);
      var sub := if merge then ms[0].value.members else [];
      var rest := if merge then ms[1..] else ms;
      assert path[1..] == dirs[1..] + [name];
      PrintPrepend(dirs[1..], name, v, sub);
      PrintDir(dirs[0], Prepend(dirs[1..], name, v, sub), rest);
      TailDir(dirs, ms, sub, rest);
      DirText("\"" + dirs[0] + "\":{", Open(dirs[1..]), LeafText(name, v), Tail(dirs[1..], sub), CommaMembers(rest));
    }
  }

  lemma PrintLeafFirst(name: string, v: Json, ms: seq<Member>)
    requires Escape(name) == name
    ensures PrintMembers([Member(name, v)] + ms) == Open([]) + LeafText(name, v) + Tail([], ms)
  {
    PrintCons(Member(name, v), ms);
    assert "" + LeafText(name, v) == LeafText(name, v);
  }

  lemma TailDir(dirs: seq<string>, ms: seq<Member>, sub: seq<Member>, rest: seq<Member>)
    requires dirs != []
    requires if IsDir(ms, dirs[0]) then sub == ms[0].value.members && rest == ms[1..] else sub == [] && rest == ms
    ensures Tail(dirs, ms) == Tail(dirs[1..], sub) + "}" + CommaMembers(rest)
  {
    TailNil(dirs[1..]);
  }

  /** Going from `cur` to the directories of the next entry prints what the tree has there. */
  lemma {:induction false} TailPrepend(cur: seq<string>, dirs: seq<string>, name: string, v: Json, ms: seq<Member>)
    requires PlainPath(dirs + [name]) && !v.Obj?
    ensures Tail(cur, Prepend(dirs, name, v, ms)) == Switch(cur, dirs) + LeafText(name, v) + Tail(dirs, ms)
    decreases cur, 1
  {
    if cur != [] && dirs != [] && cur[0] == dirs[0] {
      TailPrependBelow(cur, dirs, name, v, ms);
    } else {
      TailPrependBeside(cur, dirs, name, v, ms);
    }
  }

  lemma TailPrependBeside(cur: seq<string>, dirs: seq<string>, name: string, v: Json, ms: seq<Member>)
    requires PlainPath(dirs + [name]) && !v.Obj?
    requires cur == [] || dirs == [] || cur[0] != dirs[0]
    ensures Tail(cur, Prepend(dirs, name, v, ms)) == Switch(cur, dirs) + LeafText(name, v) + Tail(dirs, ms)
  {
    hide Open, Print;
    hide LeafText;
    var o, l, t := Open(dirs), LeafText(name, v), Tail(dirs, ms);
    assert Switch(cur, dirs) == (Close(|cur|) + ",") + o by { assert dirs[0..] == dirs; }
    PrintPrepend(dirs, name, v, ms);
    TailOther(cur, Prepend(dirs, name, v, ms));
    Regroup(Close(|cur|) + ",", o, l, t);
  }

  lemma {:induction false} TailPrependBelow(cur: seq<string>, dirs: seq<string>, name: string, v: Json, ms: seq<Member>)
    requires PlainPath(dirs + [name]) && !v.Obj?
    requires cur != [] && dirs != [] && cur[0] == dirs[0]
    ensures Tail(cur, Prepend(dirs, name, v, ms)) == Switch(cur, dirs) + LeafText(name, v) + Tail(dirs, ms)
    decreases cur, 0
  {
    var merge := IsDir(ms, dirs[0]);
    var sub := if merge then ms[0].value.members else [];
    var rest := if merge then ms[1..] else ms;
    var sub', r := Prepend(dirs[1..], name, v, sub), Prepend(dirs, name, v, ms);
    assert r == [Member(dirs[0], Obj(sub'))] + rest;
    assert (dirs + [name])[1..] == dirs[1..] + [name];
    TailPrepend(cur[1..], dirs[1..], name, v, sub);
    TailDir(cur, r, sub', rest);
    TailDir(dirs, ms, sub, rest);
    SwitchBelow(cur, dirs);
    CloseText(Switch(cur, dirs), LeafText(name, v), Tail(dirs[1..], sub), CommaMembers(rest));
  }

  lemma SwitchBelow(cur: seq<string>, dirs: seq<string>)
    requires cur != [] && dirs != [] && cur[0] == dirs[0]
    ensures Switch(cur, dirs) == Switch(cur[1..], dirs[1..])
  {
    assert dirs[1 + Common(cur[1..], dirs[1..])..] == dirs[1..][Common(cur[1..], dirs[1..])..];
  }

  lemma TailOther(cur: seq<string>, ms: seq<Member>)
    requires ms != []
    requires cur != [] ==> !IsDir(ms, cur[0])
    ensures Tail(cur, ms) == Close(|cur|) + "," + PrintMembers(ms)
  {
    hide PrintMembers;
    assert Close(0) == "" && "" + "," == ",";
  }

  /** What is printed after some entries is what the tree of the others has there. */
  lemma {:induction false} RestIsTail(es: seq<Entry>, l: nat)
    requires AllPlain(es) && AllLeaves(es) && 1 <= l <= |es|
    ensures Rest(es, l) == Tail(es[l - 1].dirs, Build(es[l..]))
    decreases |es| - l
  {
    hide Prepend, Tail, Switch, LeafText, Open;
    var cur := es[l - 1].dirs;
    if l == |es| {
      TailNil(cur);
    } else {
      var e := es[l];
      assert e in es && es[l..][0] == e && es[l..][1..] == es[l + 1..];
      RestIsTail(es, l + 1);
      TailPrepend(cur, e.dirs, e.name, e.value, Build(es[l + 1..]));
    }
  }

  /** What has been printed and what is still printed make up the whole. */
  lemma {:induction false} EmittedThenRest(es: seq<Entry>, l: nat)
    requires l <= |es|
    ensures Emitted(es, l) + Rest(es, l) == Rest(es, 0)
  {
    if l > 0 {
      EmittedThenRest(es, l - 1);
      Assoc(Emitted(es, l - 1), Chunk(es, l - 1), Rest(es, l));
    } else {
      assert "" + Rest(es, 0) == Rest(es, 0);
    }
  }

  /** The streamed members, closed down to the root, are the printed members of the tree. */
  lemma StreamIsPrint(es: seq<Entry>)
    requires AllPlain(es) && AllLeaves(es)
    ensures Emitted(es, |es|) + Close(|OpenDirs(es, |es|)|) == PrintMembers(Build(es))
  {
    EmittedThenRest(es, |es|);
    if es != [] {
      var e := es[0];
      assert e in es;
      RestIsTail(es, 1);
      PrintPrepend(e.dirs, e.name, e.value, Build(es[1..]));
    }
  }
}
