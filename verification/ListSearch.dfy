/** The searches for an SMS, a call and a cell broadcast message: the three differ only in the interface
    they ask, so one model stands for all. */
module ListSearch {
  import opened Wrappers
  import opened ObjectSearch

  /** A modem object with the reply its interface gives to a listing, or no such interface. */
  datatype Modem = Modem(path: string, service: Option<Listing>)

  /** What one modem says about the object at `path`. */
  function Verdict(path: string): Modem -> Option<Outcome<Modem>> {
    (m: Modem) =>
      match m.service
      case None => None
      case Some(ListError(message)) => Some(ListFailed(m, message))
      case Some(Listed(objects)) =>
        match Holding(objects, path)
        case None => None
        case Some(obj) => Some(Found(m, obj))
  }

  /** The synchronous search: mmcli_get_sms_sync and its twins. */
  method GetSync(modems: seq<Modem>, path: string) returns (outcome: Outcome<Modem>)
    ensures outcome == Search(modems, Verdict(path))
  {
    if modems == [] {
      return NoModems;
    }
    var l := 0;
    while l < |modems|
      invariant 0 <= l <= |modems|
      invariant forall j :: 0 <= j < l ==> Verdict(path)(modems[j]).None?
    {
      var obj := modems[l];
      FirstIs(modems, Verdict(path), l);
      if obj.service.Some? {
        if obj.service.value.ListError? {
          return ListFailed(obj, obj.service.value.message);
        }
        var found := FindInList(obj.service.value.objects, path);
        if found.Some? {
          return Found(obj, found.value);
        }
      }
      l := l + 1;
    }
    FirstIs(modems, Verdict(path), l);
    return NotFound;
  }

  /** The asynchronous search: the queue, the modem that was asked last, and whether its reply is awaited. */
  class Task {
    const path: string
    ghost const all: seq<Modem>
    var modems: seq<Modem>
    var current: Option<Modem>
    var waiting: bool
    var outcome: Option<Outcome<Modem>>
    var completions: nat

    constructor (path: string, modems: seq<Modem>)
      ensures this.path == path && this.all == modems && this.modems == modems
      ensures !waiting && outcome == None && completions == 0 && Valid()
    {
      this.path := path;
      this.all := modems;
      this.modems := modems;
      current := None;
      waiting := false;
      outcome := None;
      completions := 0;
    }

    /** How many modems have left the queue. */
    ghost function Dropped(): int
      reads this
    {
      |all| - |modems|
    }

    /** The queue is the rest of the list; every modem that left it, except one that is being asked, lacks the
        interface or does not hold the path; the task completes at most once, and as the loop would end. */
    ghost predicate Valid()
      reads this
    {
      && Dropped() >= 0 && modems == all[Dropped()..]
      && (waiting ==> outcome == None && Dropped() > 0 && current == Some(all[Dropped() - 1])
                      && current.value.service.Some?)
      && (outcome == None ==>
            forall j :: 0 <= j < Dropped() - (if waiting then 1 else 0) ==> Verdict(path)(all[j]).None?)
      && (outcome.Some? ==> outcome.value == Search(all, Verdict(path)))
      && completions == if outcome.Some? then 1 else 0
    }

    method Complete(o: Outcome<Modem>)
      requires outcome == None
      modifies this`outcome, this`completions
      ensures outcome == Some(o) && completions == old(completions) + 1
    {
      outcome := Some(o);
      completions := completions + 1;
    }

    /** get_sms_manager_ready. */
    method ManagerReady()
      requires Valid() && outcome == None && !waiting && modems == all
      modifies this
      ensures Valid() && (waiting || outcome.Some?)
    {
      if modems == [] {
        Complete(NoModems);
      } else {
        LookInModem();
      }
    }

    /** look_for_sms_in_modem: takes the next modem, and the one after it when that has no such interface. */
    method LookInModem()
      requires Valid() && outcome == None && !waiting && all != []
      modifies this
      ensures Valid() && (waiting || outcome.Some?)
      ensures waiting ==> |modems| < |old(modems)|
      decreases |modems|
    {
      if modems == [] {
        FirstIs(all, Verdict(path), |all|);
        Complete(NotFound);
        return;
      }
      current := Some(modems[0]);
      modems := modems[1..];
      if current.value.service.None? {
        LookInModem();
        return;
      }
      waiting := true;
    }

    /** list_sms_ready: the awaited reply. */
    method ListReady(reply: Listing)
      requires Valid() && waiting && current.value.service == Some(reply)
      modifies this
      ensures Valid() && (waiting || outcome.Some?)
      ensures waiting ==> |modems| < |old(modems)|
    {
      waiting := false;
      FirstIs(all, Verdict(path), Dropped() - 1);
      if reply.ListError? {
        Complete(ListFailed(current.value, reply.message));
        return;
      }
      var found := FindInList(reply.objects, path);
      if found.None? {
        LookInModem();
        return;
      }
      Complete(Found(current.value, found.value));
    }

    /** The main loop, which delivers the awaited replies: it ends, with one completion. */
    method Run() returns (o: Outcome<Modem>)
      requires Valid() && outcome == None && !waiting && modems == all
      modifies this
      ensures o == Search(all, Verdict(path)) && completions == 1
    {
      ManagerReady();
      while waiting
        invariant Valid() && (waiting || outcome.Some?)
        decreases if waiting then |modems| + 1 else 0
      {
        ListReady(current.value.service.value);
      }
      o := outcome.value;
    }
  }

  /** Both searches end the same way, list errors included. */
  method SearchBothWays(modems: seq<Modem>, path: string) returns (sync: Outcome<Modem>, async_: Outcome<Modem>)
    ensures sync == async_
  {
    sync := GetSync(modems, path);
    var task := new Task(path, modems);
    async_ := task.Run();
  }

  // ---------- what the search finds

  /** The modem lacks the interface, or lists no object with that path. */
  ghost predicate Passes(m: Modem, path: string) {
    match m.service
    case None => true
    case Some(ListError(_)) => false
    case Some(Listed(objects)) => forall o :: o in objects ==> o.path != path
  }

  /** The end that the modem gives the search: it lists `obj` first among the objects with that path, or fails to
      list any. */
  ghost predicate Says(m: Modem, path: string, o: Outcome<Modem>) {
    match o
    case Found(owner, obj) =>
      owner == m && m.service.Some? && m.service.value.Listed? && ListsFirst(m.service.value.objects, path, obj)
    case ListFailed(at, message) => at == m && m.service == Some(ListError(message))
    case _ => false
  }

  lemma VerdictMeans(m: Modem, path: string)
    ensures Verdict(path)(m).None? <==> Passes(m, path)
    ensures forall o :: Verdict(path)(m) == Some(o) <==> Says(m, path, o)
  {
    if m.service.Some? && m.service.value.Listed? { HoldingMeans(m.service.value.objects, path); }
  }

  /** How the search ends: without modems; or with nothing found when every modem passes; or as the first modem
      that does not pass says, which holds the object or fails to list. */
  lemma SearchMeans(modems: seq<Modem>, path: string, o: Outcome<Modem>)
    ensures Search(modems, Verdict(path)) == o <==>
              if modems == [] then o == NoModems
              else if o == NotFound then forall m :: m in modems ==> Passes(m, path)
              else exists i :: 0 <= i < |modems| && Says(modems[i], path, o) && forall j :: 0 <= j < i ==> Passes(modems[j], path)
  {
    hide Verdict, Says, Passes;
    forall m ensures Verdict(path)(m) != Some(NoModems) && Verdict(path)(m) != Some(NotFound) {
      VerdictMeans(m, path);
      SaysNothingElse(m, path);
    }
    SearchIs(modems, Verdict(path), o);
    forall m ensures (Verdict(path)(m).None? <==> Passes(m, path)) && (Verdict(path)(m) == Some(o) <==> Says(m, path, o)) {
      VerdictMeans(m, path);
    }
  }

  lemma SaysNothingElse(m: Modem, path: string)
    ensures !Says(m, path, NoModems) && !Says(m, path, NotFound)
  {
  }
}
