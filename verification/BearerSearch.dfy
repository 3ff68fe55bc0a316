/** The search for a bearer: each modem may hold it as its initial EPS bearer or in its list of bearers. */
module BearerSearch {
  import opened Wrappers
  import opened ObjectSearch

  const STATE_DISABLED := 3

  /** The 3GPP interface: the path of the initial EPS bearer, if set, and the reply to a request for it. */
  datatype Gpp = Gpp(initialPath: Option<string>, fetch: Fetch)

  datatype Fetch = Fetched(bearer: Object) | FetchError(message: string)

  datatype Modem = Modem(path: string, state: int, gpp: Option<Gpp>, bearers: Listing)

  predicate Initialised(m: Modem) { m.state >= STATE_DISABLED }

  /** The modem names the path as that of its initial EPS bearer. */
  predicate NamesInitial(m: Modem, path: string) {
    m.gpp.Some? && m.gpp.value.initialPath == Some(path)
  }

  /** The branch where the two searches part: the initial bearer matches but cannot be fetched. */
  predicate FetchFails(m: Modem, path: string) {
    Initialised(m) && NamesInitial(m, path) && m.gpp.value.fetch.FetchError?
  }

  function ListVerdict(m: Modem, path: string): Option<Outcome<Modem>> {
    match m.bearers
    case ListError(message) => Some(ListFailed(m, message))
    case Listed(objects) =>
      match Holding(objects, path)
      case None => None
      case Some(bearer) => Some(Found(m, bearer))
  }

  /** What one modem says in the synchronous search: a failed fetch ends it. */
  function SyncVerdict(path: string): Modem -> Option<Outcome<Modem>> {
    (m: Modem) =>
      if !Initialised(m) then None
      else if NamesInitial(m, path) then
        match m.gpp.value.fetch
        case Fetched(bearer) => Some(Found(m, bearer))
        case FetchError(message) => Some(FetchFailed(m, message))
      else ListVerdict(m, path)
  }

  /** What one modem says in the asynchronous search: after a failed fetch its list is asked. */
  function AsyncVerdict(path: string): Modem -> Option<Outcome<Modem>> {
    (m: Modem) =>
      if !Initialised(m) then None
      else if NamesInitial(m, path) && m.gpp.value.fetch.Fetched? then Some(Found(m, m.gpp.value.fetch.bearer))
      else ListVerdict(m, path)
  }

  /** mmcli_get_bearer_sync. */
  method GetSync(modems: seq<Modem>, path: string) returns (outcome: Outcome<Modem>)
    ensures outcome == Search(modems, SyncVerdict(path))
  {
    if modems == [] {
      return NoModems;
    }
    var l := 0;
    var found: Option<Object> := None;
    while l < |modems|
      invariant 0 <= l <= |modems|
      invariant forall j :: 0 <= j < l ==> SyncVerdict(path)(modems[j]).None?
    {
      var m := modems[l];
      FirstIs(modems, SyncVerdict(path), l);
      if m.state < STATE_DISABLED {
        // not fully initialised
      } else {
        if m.gpp.Some? && m.gpp.value.initialPath == Some(path) {
          if m.gpp.value.fetch.FetchError? {
            return FetchFailed(m, m.gpp.value.fetch.message);
          }
          found := Some(m.gpp.value.fetch.bearer);
        } else {
          if m.bearers.ListError? {
            return ListFailed(m, m.bearers.message);
          }
          found := FindInList(m.bearers.objects, path);
        }
        if found.Some? {
          return Found(m, found.value);
        }
      }
      l := l + 1;
    }
    FirstIs(modems, SyncVerdict(path), l);
    return NotFound;
  }

  datatype Phase = Idle | AwaitInitial | AwaitList

  /** The asynchronous search with its chain of callbacks. */
  class Task {
    const path: string
    var modems: seq<Modem>
    var current: Option<Modem>
    var phase: Phase
    var outcome: Option<Outcome<Modem>>
    var completions: nat

    constructor (path: string, modems: seq<Modem>)
      ensures this.path == path && this.modems == modems
      ensures phase == Idle && outcome == None && completions == 0
    {
      this.path := path;
      this.modems := modems;
      current := None;
      phase := Idle;
      outcome := None;
      completions := 0;
    }

    /** A request is under way only for the modem taken last, and only of a kind that modem can answer. */
    ghost predicate Valid()
      reads this
    {
      && (phase != Idle ==> outcome == None && current.Some? && Initialised(current.value))
      && (phase == AwaitInitial ==> NamesInitial(current.value, path))
      && completions == if outcome.Some? then 1 else 0
    }

    /** The end the search is heading for. */
    ghost function Promise(): Outcome<Modem>
      requires Valid()
      reads this
    {
      if outcome.Some? then outcome.value
      else
        var here :=
          match phase
          case Idle => None
          case AwaitInitial => AsyncVerdict(path)(current.value)
          case AwaitList => ListVerdict(current.value, path);
        if here.Some? then here.value
        else match First(modems, AsyncVerdict(path)) case Some(o) => o case None => NotFound
    }

    /** Modems left, then requests left for the current one. */
    ghost function Remaining(): nat
      reads this
    {
      3 * |modems| + match phase case Idle => 0 case AwaitInitial => 2 case AwaitList => 1
    }

    method Complete(o: Outcome<Modem>)
      requires Valid() && outcome == None
      modifies this`outcome, this`completions, this`phase
      ensures Valid() && outcome == Some(o) && phase == Idle && completions == 1
    {
      outcome := Some(o);
      completions := completions + 1;
      phase := Idle;
    }

    /** get_bearer_manager_ready. */
    method ManagerReady()
      requires Valid() && outcome == None && phase == Idle
      modifies this
      ensures Valid() && (outcome.Some? || phase != Idle)
      ensures Promise() == Search(old(modems), AsyncVerdict(path))
    {
      if modems == [] {
        Complete(NoModems);
      } else {
        LookInModem();
      }
    }

    /** look_for_bearer_in_modem. */
    method LookInModem()
      requires Valid() && outcome == None && phase == Idle
      modifies this
      ensures Valid() && (outcome.Some? || phase != Idle)
      ensures Promise() == old(Promise()) && Remaining() <= old(Remaining())
      decreases |modems|
    {
      if modems == [] {
        Complete(NotFound);
        return;
      }
      current := Some(modems[0]);
      modems := modems[1..];
      if current.value.state < STATE_DISABLED {
        LookInModem();
      } else {
        LookInInitialBearer();
      }
    }

    /** look_for_bearer_in_modem_3gpp_eps_initial_bearer. */
    method LookInInitialBearer()
      requires Valid() && outcome == None && phase == Idle && current.Some? && Initialised(current.value)
      modifies this`phase
      ensures Valid() && phase != Idle
      ensures Promise() == if AsyncVerdict(path)(current.value).Some? then AsyncVerdict(path)(current.value).value
                           else old(Promise())
    {
      var modem3gpp := current.value.gpp;
      if modem3gpp.None? {
        LookInList();
        return;
      }
      if modem3gpp.value.initialPath == Some(path) {
        phase := AwaitInitial;
      } else {
        LookInList();
      }
    }

    /** look_for_bearer_in_modem_bearer_list. */
    method LookInList()
      requires Valid() && outcome == None && current.Some? && Initialised(current.value)
      modifies this`phase
      ensures Valid() && phase == AwaitList
    {
      phase := AwaitList;
    }

    /** get_initial_eps_bearer_ready. */
    method InitialBearerReady(reply: Fetch)
      requires Valid() && phase == AwaitInitial && current.value.gpp.value.fetch == reply
      modifies this
      ensures Valid() && (outcome.Some? || phase != Idle)
      ensures Promise() == old(Promise()) && Remaining() < old(Remaining())
    {
      if reply.FetchError? {
        LookInList();
        return;
      }
      Complete(Found(current.value, reply.bearer));
    }

    /** list_bearers_ready. */
    method ListReady(reply: Listing)
      requires Valid() && phase == AwaitList && current.value.bearers == reply
      modifies this
      ensures Valid() && (outcome.Some? || phase != Idle)
      ensures Promise() == old(Promise()) && Remaining() < old(Remaining())
    {
      if reply.ListError? {
        Complete(ListFailed(current.value, reply.message));
        return;
      }
      var found := FindInList(reply.objects, path);
      if found.None? {
        phase := Idle;
        LookInModem();
        return;
      }
      Complete(Found(current.value, found.value));
    }

    /** The main loop delivers the awaited replies: every run ends, with one completion. */
    method Run() returns (o: Outcome<Modem>)
      requires Valid() && outcome == None && phase == Idle
      modifies this
      ensures o == Search(old(modems), AsyncVerdict(path)) && completions == 1
    {
      ghost var all := modems;
      ManagerReady();
      while phase != Idle
        invariant Valid() && (outcome.Some? || phase != Idle)
        invariant Promise() == Search(all, AsyncVerdict(path))
        decreases Remaining()
      {
        if phase == AwaitInitial {
          InitialBearerReady(current.value.gpp.value.fetch);
        } else {
          ListReady(current.value.bearers);
        }
      }
      o := outcome.value;
    }
  }

  // ---------- what the searches find

  /** The initial bearer of the modem has the path. */
  ghost predicate HasInitial(m: Modem, path: string) {
    m.gpp.Some? && m.gpp.value.initialPath.Some? && m.gpp.value.initialPath.value == path
  }

  /** No bearer in the list of the modem has the path. */
  ghost predicate ListHasNone(m: Modem, path: string) {
    m.bearers.Listed? && forall b :: b in m.bearers.objects ==> b.path != path
  }

  ghost predicate ListHasFirst(m: Modem, path: string, bearer: Object) {
    m.bearers.Listed? && ListsFirst(m.bearers.objects, path, bearer)
  }

  /** The chain goes on after a modem that is not initialised (its state is below 3), or that has the path neither
      as that of an initial bearer which can be fetched nor in its list. */
  ghost predicate Passes(m: Modem, path: string) {
    m.state < 3 || (!(HasInitial(m, path) && m.gpp.value.fetch.Fetched?) && ListHasNone(m, path))
  }

  /** The end that a modem gives the chain. */
  ghost predicate Says(m: Modem, path: string, o: Outcome<Modem>) {
    match o
    case Found(owner, bearer) =>
      && owner == m && m.state >= 3
      && if HasInitial(m, path) && m.gpp.value.fetch.Fetched? then m.gpp.value.fetch == Fetched(bearer)
         else ListHasFirst(m, path, bearer)
    case ListFailed(at, message) =>
      && at == m && m.state >= 3 && !(HasInitial(m, path) && m.gpp.value.fetch.Fetched?)
      && m.bearers == ListError(message)
    case _ => false
  }

  /** The loop goes on after a modem whose state is below 3, or that has the path neither as that of its initial
      bearer nor in its list. */
  ghost predicate LoopPasses(m: Modem, path: string) {
    m.state < 3 || (!HasInitial(m, path) && ListHasNone(m, path))
  }

  /** The end that a modem gives the loop. */
  ghost predicate LoopSays(m: Modem, path: string, o: Outcome<Modem>) {
    match o
    case Found(owner, bearer) =>
      && owner == m && m.state >= 3
      && if HasInitial(m, path) then m.gpp.value.fetch == Fetched(bearer) else ListHasFirst(m, path, bearer)
    case FetchFailed(at, message) =>
      at == m && m.state >= 3 && HasInitial(m, path) && m.gpp.value.fetch == FetchError(message)
    case ListFailed(at, message) =>
      at == m && m.state >= 3 && !HasInitial(m, path) && m.bearers == ListError(message)
    case _ => false
  }

  lemma VerdictsMean(m: Modem, path: string)
    ensures AsyncVerdict(path)(m).None? <==> Passes(m, path)
    ensures forall o :: AsyncVerdict(path)(m) == Some(o) <==> Says(m, path, o)
    ensures SyncVerdict(path)(m).None? <==> LoopPasses(m, path)
    ensures forall o :: SyncVerdict(path)(m) == Some(o) <==> LoopSays(m, path, o)
  {
    if m.bearers.Listed? { HoldingMeans(m.bearers.objects, path); }
  }

  lemma SaysNothingElse(m: Modem, path: string)
    ensures !Says(m, path, NoModems) && !Says(m, path, NotFound)
    ensures !LoopSays(m, path, NoModems) && !LoopSays(m, path, NotFound)
  {
  }

  /** How the chain ends: without modems; or with nothing found when it goes on after every modem; or as the first
      other modem says, which has the bearer or fails to list any. */
  lemma ChainFinds(modems: seq<Modem>, path: string, o: Outcome<Modem>)
    ensures Search(modems, AsyncVerdict(path)) == o <==>
              if modems == [] then o == NoModems
              else if o == NotFound then forall m :: m in modems ==> Passes(m, path)
              else exists i :: 0 <= i < |modems| && Says(modems[i], path, o) && forall j :: 0 <= j < i ==> Passes(modems[j], path)
  {
    hide AsyncVerdict, SyncVerdict, Says, Passes, LoopSays, LoopPasses;
    forall m ensures (AsyncVerdict(path)(m).None? <==> Passes(m, path))
                  && (AsyncVerdict(path)(m) == Some(o) <==> Says(m, path, o))
                  && AsyncVerdict(path)(m) != Some(NoModems) && AsyncVerdict(path)(m) != Some(NotFound)
    {
      VerdictsMean(m, path);
      SaysNothingElse(m, path);
    }
    SearchIs(modems, AsyncVerdict(path), o);
  }

  /** How the loop ends, in the same way; a modem may also fail to give its initial bearer. */
  lemma LoopFinds(modems: seq<Modem>, path: string, o: Outcome<Modem>)
    ensures Search(modems, SyncVerdict(path)) == o <==>
              if modems == [] then o == NoModems
              else if o == NotFound then forall m :: m in modems ==> LoopPasses(m, path)
              else exists i :: 0 <= i < |modems| && LoopSays(modems[i], path, o)
                            && forall j :: 0 <= j < i ==> LoopPasses(modems[j], path)
  {
    hide AsyncVerdict, SyncVerdict, Says, Passes, LoopSays, LoopPasses;
    forall m ensures (SyncVerdict(path)(m).None? <==> LoopPasses(m, path))
                  && (SyncVerdict(path)(m) == Some(o) <==> LoopSays(m, path, o))
                  && SyncVerdict(path)(m) != Some(NoModems) && SyncVerdict(path)(m) != Some(NotFound)
    {
      VerdictsMean(m, path);
      SaysNothingElse(m, path);
    }
    SearchIs(modems, SyncVerdict(path), o);
  }

  /** A modem that is not initialised can be taken out of the list, when another one remains. */
  lemma UninitialisedIsSkipped(a: seq<Modem>, m: Modem, b: seq<Modem>, path: string)
    requires m.state < 3 && a + b != []
    ensures Search(a + [m] + b, AsyncVerdict(path)) == Search(a + b, AsyncVerdict(path))
    ensures Search(a + [m] + b, SyncVerdict(path)) == Search(a + b, SyncVerdict(path))
  {
    SkipSilent(a, m, b, AsyncVerdict(path));
    SkipSilent(a, m, b, SyncVerdict(path));
  }

  // ---------- when the two searches agree

  /** Some modem is reached - the chain goes on after all before it - which is initialised (its state is 3 or more)
      and whose initial bearer has the path but cannot be fetched. */
  ghost predicate ReachesFailedFetch(modems: seq<Modem>, path: string) {
    exists i :: 0 <= i < |modems|
             && modems[i].state >= 3 && HasInitial(modems[i], path) && modems[i].gpp.value.fetch.FetchError?
             && forall j :: 0 <= j < i ==> Passes(modems[j], path)
  }

  /** Only a failed fetch makes the two verdicts on a modem differ. */
  lemma VerdictsAgree(m: Modem, path: string)
    ensures FetchFails(m, path) <==> m.state >= 3 && HasInitial(m, path) && m.gpp.value.fetch.FetchError?
    ensures SyncVerdict(path)(m) == AsyncVerdict(path)(m) <==> !FetchFails(m, path)
    ensures SyncVerdict(path)(m).Some? && SyncVerdict(path)(m).value.FetchFailed? <==> FetchFails(m, path)
    ensures !(AsyncVerdict(path)(m).Some? && AsyncVerdict(path)(m).value.FetchFailed?)
  {
  }

  lemma AsyncNeverFailsFetch(modems: seq<Modem>, path: string)
    ensures !Search(modems, AsyncVerdict(path)).FetchFailed?
  {
    var i := FirstVerdict(modems, AsyncVerdict(path));
    if i < |modems| { VerdictsAgree(modems[i], path); }
  }

  /** The callback chain ends like the loop - same owner and bearer, or same failure - exactly when no modem is
      reached whose matching initial bearer cannot be fetched. */
  lemma SearchesAgree(modems: seq<Modem>, path: string)
    ensures Search(modems, SyncVerdict(path)) == Search(modems, AsyncVerdict(path))
       <==> !ReachesFailedFetch(modems, path)
  {
    var i := FirstVerdict(modems, SyncVerdict(path));
    forall m ensures (SyncVerdict(path)(m) == AsyncVerdict(path)(m) <==> !FetchFails(m, path))
                  && (FetchFails(m, path) ==> SyncVerdict(path)(m).Some? && SyncVerdict(path)(m).value.FetchFailed?)
                  && (FetchFails(m, path) <==> m.state >= 3 && HasInitial(m, path) && m.gpp.value.fetch.FetchError?)
                  && (AsyncVerdict(path)(m).None? <==> Passes(m, path))
    {
      VerdictsAgree(m, path);
      VerdictsMean(m, path);
    }
    if i < |modems| && FetchFails(modems[i], path) {
      AsyncNeverFailsFetch(modems, path);
    } else {
      FirstAgrees(modems, SyncVerdict(path), AsyncVerdict(path), i);
    }
  }

  /** One such modem: the loop leaves with an error where the chain finds the bearer in the list. */
  lemma SearchesDiffer()
    ensures var b := Object("/b", 0);
            var m := Modem("/m", STATE_DISABLED, Some(Gpp(Some("/b"), FetchError("gone"))), Listed([b]));
            && Search([m], SyncVerdict("/b")) == FetchFailed(m, "gone")
            && Search([m], AsyncVerdict("/b")) == Found(m, b)
  {
  }
}
