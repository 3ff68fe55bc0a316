/** Looking for one remote object in a list of modems. Each search exists twice, as a loop over synchronous
    calls and as a chain of callbacks; both are measured against the verdict of the first modem that gives one. */
module ObjectSearch {
  import opened Wrappers

  /** An object a modem reports; two objects with one path differ by their handle. */
  datatype Object = Object(path: string, handle: nat)

  /** A remote reply to a listing. */
  datatype Listing = Listed(objects: seq<Object>) | ListError(message: string)

  /** How a search ends: with an owner and an object, by leaving the process with a message, or by comparing
      a missing string. */
  datatype Outcome<M> =
    | Found(owner: M, obj: Object)
    | NoModems
    | NotFound
    | ListFailed(at: M, message: string)
    | FetchFailed(at: M, message: string)
    | SlotMissing(at: M)
    | NullCompared(at: M)

  /** The verdict of the first modem that has one. */
  function First<M>(ms: seq<M>, verdict: M -> Option<Outcome<M>>): Option<Outcome<M>> {
    if ms == [] then None
    else if verdict(ms[0]).Some? then verdict(ms[0])
    else First(ms[1..], verdict)
  }

  /** The end of a search that asks one modem after the other. */
  function Search<M>(ms: seq<M>, verdict: M -> Option<Outcome<M>>): Outcome<M> {
    if ms == [] then NoModems
    else match First(ms, verdict) case Some(o) => o case None => NotFound
  }

  /** A search ends with the verdict of a modem before which all modems have none, or without any verdict. */
  lemma {:induction false} FirstIs<M>(ms: seq<M>, verdict: M -> Option<Outcome<M>>, i: nat)
    requires i <= |ms| && (forall j :: 0 <= j < i ==> verdict(ms[j]).None?)
    ensures i < |ms| && verdict(ms[i]).Some? ==> First(ms, verdict) == verdict(ms[i])
    ensures i == |ms| ==> First(ms, verdict) == None
    ensures First(ms, verdict) == First(ms[i..], verdict)
  {
    if i == 0 {
      assert ms[0..] == ms;
    } else {
      assert ms[1..][i - 1..] == ms[i..];
      FirstIs(ms[1..], verdict, i - 1);
    }
  }

  /** Where the first verdict is. */
  lemma FirstVerdict<M>(ms: seq<M>, verdict: M -> Option<Outcome<M>>) returns (i: nat)
    ensures i <= |ms| && (forall j :: 0 <= j < i ==> verdict(ms[j]).None?)
    ensures i < |ms| ==> verdict(ms[i]).Some? && First(ms, verdict) == verdict(ms[i])
    ensures i == |ms| ==> First(ms, verdict) == None
  {
    i := 0;
    while i < |ms| && verdict(ms[i]).None?
      invariant i <= |ms| && forall j :: 0 <= j < i ==> verdict(ms[j]).None?
    {
      i := i + 1;
    }
    FirstIs(ms, verdict, i);
  }

  /** Two searches that agree on every modem up to the first verdict agree. */
  lemma {:induction false} FirstAgrees<M>(ms: seq<M>, v: M -> Option<Outcome<M>>, w: M -> Option<Outcome<M>>, i: nat)
    requires i <= |ms| && (forall j :: 0 <= j < i ==> v(ms[j]) == w(ms[j]))
    requires i < |ms| ==> v(ms[i]) == w(ms[i]) && v(ms[i]).Some?
    ensures First(ms, v) == First(ms, w)
  {
    if i > 0 { FirstAgrees(ms[1..], v, w, i - 1); }
  }

  /** A search ends as `o` says in exactly one of three ways: there is no modem, or no modem has a verdict, or `o`
      is the verdict of a modem before which no modem has one. */
  lemma SearchIs<M(!new)>(ms: seq<M>, verdict: M -> Option<Outcome<M>>, o: Outcome<M>)
    requires forall m :: verdict(m) != Some(NoModems) && verdict(m) != Some(NotFound)
    ensures Search(ms, verdict) == o <==>
              if ms == [] then o == NoModems
              else if o == NotFound then forall m :: m in ms ==> verdict(m).None?
              else exists i :: 0 <= i < |ms| && verdict(ms[i]) == Some(o) && forall j :: 0 <= j < i ==> verdict(ms[j]).None?
  {
    var i := FirstVerdict(ms, verdict);
    if i < |ms| {
      assert ms[i] in ms;
    } else {
      assert forall m :: m in ms ==> exists k :: 0 <= k < |ms| && ms[k] == m;
    }
  }

  /** A modem without a verdict can be taken out of the list. */
  lemma {:induction false} SkipSilent<M>(a: seq<M>, m: M, b: seq<M>, verdict: M -> Option<Outcome<M>>)
    requires verdict(m).None?
    ensures First(a + [m] + b, verdict) == First(a + b, verdict)
  {
    if a == [] {
      assert ([] + [m] + b)[1..] == b && [] + b == b;
    } else {
      assert (a + [m] + b)[1..] == a[1..] + [m] + b && (a + b)[1..] == a[1..] + b;
      SkipSilent(a[1..], m, b, verdict);
    }
  }

  /** `obj` has the path, and no object before it has. */
  ghost predicate ListsFirst(objects: seq<Object>, path: string, obj: Object) {
    exists k :: 0 <= k < |objects| && objects[k] == obj && obj.path == path && forall j :: 0 <= j < k ==> objects[j].path != path
  }

  ghost predicate ListsNone(objects: seq<Object>, path: string) {
    forall o :: o in objects ==> o.path != path
  }

  lemma {:induction false} HoldingAt(objects: seq<Object>, path: string) returns (k: nat)
    ensures k <= |objects| && forall j :: 0 <= j < k ==> objects[j].path != path
    ensures if k < |objects| then objects[k].path == path && Holding(objects, path) == Some(objects[k])
            else Holding(objects, path) == None
  {
    k := 0;
    if objects != [] && objects[0].path != path {
      var l := HoldingAt(objects[1..], path);
      k := l + 1;
    }
  }

  lemma HoldingMeans(objects: seq<Object>, path: string)
    ensures Holding(objects, path).None? <==> ListsNone(objects, path)
    ensures forall obj :: Holding(objects, path) == Some(obj) <==> ListsFirst(objects, path, obj)
  {
    hide Holding;
    var k := HoldingAt(objects, path);
    if k < |objects| { assert objects[k] in objects; }
  }

  /** The first object of a list with a path. */
  function Holding(objects: seq<Object>, path: string): Option<Object> {
    if objects == [] then None
    else if objects[0].path == path then Some(objects[0])
    else Holding(objects[1..], path)
  }

  /** find_bearer_in_list, find_sms_in_list and the others. */
  method FindInList(objects: seq<Object>, path: string) returns (found: Option<Object>)
    ensures found == Holding(objects, path)
    ensures found.Some? ==> found.value in objects && found.value.path == path
    ensures found.None? ==> forall o :: o in objects ==> o.path != path
  {
    var l := 0;
    while l < |objects|
      invariant 0 <= l <= |objects|
      invariant Holding(objects, path) == Holding(objects[l..], path)
      invariant forall k :: 0 <= k < l ==> objects[k].path != path
    {
      assert objects[l..][1..] == objects[l + 1..];
      if objects[l].path == path {
        return Some(objects[l]);
      }
      l := l + 1;
    }
    return None;
  }
}
