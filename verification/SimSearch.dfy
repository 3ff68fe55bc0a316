/** The search for a SIM: the primary SIM of a modem, or a SIM in one of its slots. */
module SimSearch {
  import opened Wrappers
  import opened ObjectSearch

  /** What the user asked for: the first SIM there is, the SIM of a modem, or the SIM at a path. */
  datatype Target = AnySim | ByUid(uid: string) | ByPath(simPath: string)

  datatype SimReply = GotSim(sim: Object) | SimError(message: string)

  /** Slots may be empty. */
  datatype SlotsReply = GotSlots(sims: seq<Option<Object>>) | SlotsError(message: string)

  /** The device and the SIM path are missing when the modem has them empty. */
  datatype Modem = Modem(
    path: string, device: Option<string>, simPath: Option<string>, slotPaths: Option<seq<string>>,
    simReply: SimReply, slotsReply: SlotsReply)

  /** How a modem stops the search: by its primary SIM, by a slot, or by a missing string to compare with. */
  datatype Kind = Primary | Slot | Missing

  /** The SIM path looked for once this modem is reached; none when the modem is not the one asked for. */
  function Wanted(target: Target, m: Modem): Option<string> {
    match target
    case AnySim => m.simPath
    case ByUid(uid) => if m.device == Some(uid) then m.simPath else None
    case ByPath(p) => Some(p)
  }

  /** The source hands a missing device or SIM path to g_str_equal, which does not take one. */
  predicate ComparesMissing(target: Target, m: Modem) {
    match target
    case AnySim => m.simPath.None?
    case ByUid(uid) => m.device.None? || (m.device == Some(uid) && m.simPath.None?)
    case ByPath(_) => m.simPath.None?
  }

  function Match(target: Target, m: Modem): Option<Kind> {
    if ComparesMissing(target, m) then Some(Missing)
    else
      match Wanted(target, m)
      case None => None
      case Some(p) =>
        if m.simPath == Some(p) then Some(Primary)
        else if m.slotPaths.Some? && p in m.slotPaths.value then Some(Slot)
        else None
  }

  function FirstSim(sims: seq<Option<Object>>, p: string): Option<Object> {
    if sims == [] then None
    else if sims[0].Some? && sims[0].value.path == p then sims[0]
    else FirstSim(sims[1..], p)
  }

  function LastSim(sims: seq<Option<Object>>, p: string): Option<Object> {
    if sims == [] then None
    else
      var n := |sims| - 1;
      if sims[n].Some? && sims[n].value.path == p then sims[n] else LastSim(sims[..n], p)
  }

  function PrimaryVerdict(m: Modem): Outcome<Modem> {
    match m.simReply
    case GotSim(sim) => Found(m, sim)
    case SimError(message) => FetchFailed(m, message)
  }

  /** The asynchronous search settles on the first modem that matches, and on the first SIM in its slots. */
  function AsyncVerdict(target: Target): Modem -> Option<Outcome<Modem>> {
    (m: Modem) =>
      match Match(target, m)
      case None => None
      case Some(Missing) => Some(NullCompared(m))
      case Some(Primary) => Some(PrimaryVerdict(m))
      case Some(Slot) =>
        match m.slotsReply
        case SlotsError(message) => Some(ListFailed(m, message))
        case GotSlots(sims) =>
          match FirstSim(sims, Wanted(target, m).value)
          case Some(sim) => Some(Found(m, sim))
          case None => Some(SlotMissing(m))
  }

  /** What the slots of a modem say about a path in the synchronous search. */
  function SlotVerdict(m: Modem, p: string): Option<Outcome<Modem>> {
    match m.slotsReply
    case SlotsError(message) => Some(ListFailed(m, message))
    case GotSlots(sims) =>
      match LastSim(sims, p)
      case Some(sim) => Some(Found(m, sim))
      case None => None
  }

  /** The synchronous search goes on when no slot has the SIM, and takes the last SIM that has the path. */
  function SyncVerdict(target: Target): Modem -> Option<Outcome<Modem>> {
    (m: Modem) =>
      match Match(target, m)
      case None => None
      case Some(Missing) => Some(NullCompared(m))
      case Some(Primary) => Some(PrimaryVerdict(m))
      case Some(Slot) => SlotVerdict(m, Wanted(target, m).value)
  }

  // ---------- the synchronous search

  /** The loop over the slot objects: the last one with the path. */
  method PickLast(sims: seq<Option<Object>>, simPath: string) returns (found: Option<Object>)
    ensures found == LastSim(sims, simPath)
  {
    found := None;
    for j := 0 to |sims|
      invariant found == LastSim(sims[..j], simPath)
    {
      assert sims[..j + 1][..j] == sims[..j];
      if sims[j].Some? && sims[j].value.path == simPath {
        found := sims[j];
      }
    }
    assert sims[..|sims|] == sims;
  }

  /** The loop over the slot paths of one modem. */
  method AskSlots(m: Modem, simPath: string) returns (verdict: Option<Outcome<Modem>>)
    requires m.slotPaths.Some?
    ensures verdict == if simPath in m.slotPaths.value then SlotVerdict(m, simPath) else None
  {
    verdict := None;
    var i := 0;
    while verdict.None? && i < |m.slotPaths.value|
      invariant 0 <= i <= |m.slotPaths.value|
      invariant verdict == if simPath in m.slotPaths.value[..i] then SlotVerdict(m, simPath) else None
    {
      if m.slotPaths.value[i] == simPath {
        if m.slotsReply.SlotsError? {
          return Some(ListFailed(m, m.slotsReply.message));
        }
        var found := PickLast(m.slotsReply.sims, simPath);
        if found.Some? {
          verdict := Some(Found(m, found.value));
        }
      }
      i := i + 1;
    }
  }

  /** mmcli_get_sim_sync. */
  method GetSync(modems: seq<Modem>, target: Target) returns (outcome: Outcome<Modem>)
    ensures outcome == Search(modems, SyncVerdict(target))
  {
    if modems == [] {
      return NoModems;
    }
    var simPath := if target.ByPath? then Some(target.simPath) else None;
    var l := 0;
    while l < |modems|
      invariant 0 <= l <= |modems|
      invariant forall j :: 0 <= j < l ==> SyncVerdict(target)(modems[j]).None?
      invariant simPath == if target.ByPath? then Some(target.simPath) else None
    {
      var m := modems[l];
      FirstIs(modems, SyncVerdict(target), l);
      if target.AnySim? {
        assert simPath.None?;
        simPath := m.simPath;
      } else if target.ByUid? {
        if m.device.None? {
          return NullCompared(m);
        }
        if target.uid == m.device.value {
          assert simPath.None?;
          simPath := m.simPath;
        } else {
          l := l + 1;
          continue;
        }
      }
      if simPath.None? || m.simPath.None? {
        return NullCompared(m);
      }
      if simPath == m.simPath {
        if m.simReply.SimError? {
          return FetchFailed(m, m.simReply.message);
        }
        return Found(m, m.simReply.sim);
      } else if m.slotPaths.Some? {
        var verdict := AskSlots(m, simPath.value);
        if verdict.Some? {
          return verdict.value;
        }
      }
      l := l + 1;
    }
    FirstIs(modems, SyncVerdict(target), l);
    return NotFound;
  }

  // ---------- the asynchronous search

  class Task {
    const target: Target
    var simPath: Option<string>
    var current: Option<Modem>
    var request: Option<Kind>
    var requests: nat
    var outcome: Option<Outcome<Modem>>
    var completions: nat

    constructor (target: Target)
      ensures this.target == target && simPath == (if target.ByPath? then Some(target.simPath) else None)
      ensures current == None && request == None && requests == 0 && outcome == None && completions == 0
    {
      this.target := target;
      simPath := if target.ByPath? then Some(target.simPath) else None;
      current := None;
      request := None;
      requests := 0;
      outcome := None;
      completions := 0;
    }

    /** One request is under way, of the kind in which the chosen modem matches. */
    ghost predicate Asking()
      reads this
    {
      && current.Some? && request.Some? && outcome == None && requests == 1 && completions == 0
      && Match(target, current.value) == request && request != Some(Missing) && simPath == Wanted(target, current.value)
    }

    method Complete(o: Outcome<Modem>)
      requires outcome == None
      modifies this`outcome, this`completions, this`request
      ensures outcome == Some(o) && completions == old(completions) + 1 && request == None
    {
      outcome := Some(o);
      completions := completions + 1;
      request := None;
    }

    /** get_sim_manager_ready: chooses the first modem that matches and launches one request, or leaves. */
    method ManagerReady(modems: seq<Modem>)
      requires simPath == (if target.ByPath? then Some(target.simPath) else None)
      requires current == None && request == None && requests == 0 && outcome == None && completions == 0
      modifies this
      ensures if current.None? then
                && requests == 0 && completions == 1 && request == None
                && outcome == Some(Search(modems, AsyncVerdict(target)))
              else
                && Asking()
                && exists i :: 0 <= i < |modems| && modems[i] == current.value
                            && forall j :: 0 <= j < i ==> Match(target, modems[j]).None?
      ensures current.Some? ==> Some(Search(modems, AsyncVerdict(target))) == AsyncVerdict(target)(current.value)
    {
      if modems == [] {
        Complete(NoModems);
        return;
      }
      var l := 0;
      while l < |modems| && current.None?
        invariant 0 <= l <= |modems|
        invariant outcome == None && completions == 0
        invariant current.None? ==> requests == 0 && request == None
        invariant current.None? ==> simPath == (if target.ByPath? then Some(target.simPath) else None)
        invariant current.None? ==> forall j :: 0 <= j < l ==> Match(target, modems[j]).None?
        invariant current.Some? ==> Asking() && l > 0 && modems[l - 1] == current.value
        invariant current.Some? ==> forall j :: 0 <= j < l - 1 ==> Match(target, modems[j]).None?
      {
        var m := modems[l];
        var skip, missing := TakePath(m);
        if missing {
          FirstIs(modems, AsyncVerdict(target), l);
          Complete(NullCompared(m));
          return;
        }
        if skip {
          l := l + 1;
          continue;
        }
        if simPath == m.simPath {
          current := Some(m);
          request := Some(Primary);
          requests := requests + 1;
        } else if m.slotPaths.Some? {
          LookInSlots(m);
        }
        l := l + 1;
      }
      if current.None? {
        FirstIs(modems, AsyncVerdict(target), l);
        Complete(NotFound);
      } else {
        FirstIs(modems, AsyncVerdict(target), l - 1);
      }
    }

    /** Settles the path to look for on a modem, which is skipped when its UID is not the one asked for; `missing`
        when a missing device or SIM path is about to be compared. */
    method TakePath(m: Modem) returns (skip: bool, missing: bool)
      requires simPath == (if target.ByPath? then Some(target.simPath) else None)
      modifies this`simPath
      ensures missing <==> ComparesMissing(target, m)
      ensures !missing ==> (skip <==> Wanted(target, m).None?)
      ensures !missing ==> simPath == if skip then old(simPath) else Wanted(target, m)
    {
      if target.AnySim? {
        assert simPath.None?;
        simPath := m.simPath;
      } else if target.ByUid? {
        if m.device.None? {
          return false, true;
        }
        if target.uid != m.device.value {
          return true, false;
        }
        assert simPath.None?;
        simPath := m.simPath;
      }
      return false, simPath.None? || m.simPath.None?;
    }

    /** The loop over the slot paths: at the first one that is equal the modem is chosen and asked. */
    method LookInSlots(m: Modem)
      requires simPath.Some? && m.slotPaths.Some?
      modifies this`current, this`request, this`requests
      ensures if simPath.value in m.slotPaths.value
              then current == Some(m) && request == Some(Slot) && requests == old(requests) + 1
              else current == old(current) && request == old(request) && requests == old(requests)
    {
      var i := 0;
      while i < |m.slotPaths.value|
        invariant 0 <= i <= |m.slotPaths.value| && simPath.value !in m.slotPaths.value[..i]
        invariant current == old(current) && request == old(request) && requests == old(requests)
      {
        if simPath.value == m.slotPaths.value[i] {
          current := Some(m);
          request := Some(Slot);
          requests := requests + 1;
          break;
        }
        i := i + 1;
      }
    }

    /** get_sim_ready. */
    method SimReady(reply: SimReply)
      requires Asking() && request == Some(Primary) && current.value.simReply == reply
      modifies this`outcome, this`completions, this`request
      ensures outcome == AsyncVerdict(target)(current.value) && completions == 1 && request == None
    {
      if reply.SimError? {
        Complete(FetchFailed(current.value, reply.message));
      } else {
        Complete(Found(current.value, reply.sim));
      }
    }

    /** list_sim_slots_ready. */
    method SlotsReady(reply: SlotsReply)
      requires Asking() && request == Some(Slot) && current.value.slotsReply == reply
      modifies this`outcome, this`completions, this`request
      ensures outcome == AsyncVerdict(target)(current.value) && completions == 1 && request == None
    {
      if reply.SlotsError? {
        Complete(ListFailed(current.value, reply.message));
        return;
      }
      var i := 0;
      while i < |reply.sims|
        invariant 0 <= i <= |reply.sims| && outcome == None && completions == 0
        invariant FirstSim(reply.sims, simPath.value) == FirstSim(reply.sims[i..], simPath.value)
      {
        assert reply.sims[i..][1..] == reply.sims[i + 1..];
        var sim := reply.sims[i];
        if sim.Some? && sim.value.path == simPath.value {
          Complete(Found(current.value, sim.value));
          return;
        }
        i := i + 1;
      }
      Complete(SlotMissing(current.value));
    }

    /** A whole run: one completion, and at most one request. */
    method Run(modems: seq<Modem>) returns (o: Outcome<Modem>)
      requires simPath == (if target.ByPath? then Some(target.simPath) else None)
      requires current == None && request == None && requests == 0 && outcome == None && completions == 0
      modifies this
      ensures o == Search(modems, AsyncVerdict(target)) && completions == 1 && requests <= 1
    {
      ManagerReady(modems);
      if request == Some(Primary) {
        SimReady(current.value.simReply);
      } else if request == Some(Slot) {
        SlotsReady(current.value.slotsReply);
      }
      o := outcome.value;
    }
  }

  // ---------- when the two searches agree on one modem

  /** The slot objects on which the two searches part, for any reply. */
  predicate SlotUnclear(target: Target, m: Modem) {
    && Match(target, m) == Some(Slot) && m.slotsReply.GotSlots?
    && var p := Wanted(target, m).value;
       var first := FirstSim(m.slotsReply.sims, p);
       first.None? || first != LastSim(m.slotsReply.sims, p)
  }

  ghost predicate ReachesUnclearSlot(modems: seq<Modem>, target: Target) {
    exists i :: 0 <= i < |modems| && SlotUnclear(target, modems[i])
             && forall j :: 0 <= j < i ==> Match(target, modems[j]).None?
  }

  lemma {:induction false} LastSimAppend(sims: seq<Option<Object>>, p: string)
    requires sims != []
    ensures LastSim(sims, p) == if LastSim(sims[1..], p).Some? then LastSim(sims[1..], p)
                                else if sims[0].Some? && sims[0].value.path == p then sims[0] else None
  {
    if |sims| > 1 {
      var n := |sims| - 1;
      LastSimAppend(sims[..n], p);
      assert sims[..n][1..] == sims[1..][..n - 1];
    }
  }

  lemma {:induction false} FirstAndLast(sims: seq<Option<Object>>, p: string)
    ensures FirstSim(sims, p).None? <==> LastSim(sims, p).None?
  {
    if sims != [] {
      FirstAndLast(sims[1..], p);
      LastSimAppend(sims, p);
    }
  }

  lemma VerdictsAgree(m: Modem, target: Target)
    ensures SyncVerdict(target)(m) == AsyncVerdict(target)(m) <==> !SlotUnclear(target, m)
    ensures AsyncVerdict(target)(m).Some? <==> Match(target, m).Some?
    ensures !(SyncVerdict(target)(m).Some? && SyncVerdict(target)(m).value.SlotMissing?)
    ensures SlotUnclear(target, m) && SyncVerdict(target)(m).None? ==>
              AsyncVerdict(target)(m) == Some(SlotMissing(m))
  {
    if Match(target, m) == Some(Slot) && m.slotsReply.GotSlots? {
      FirstAndLast(m.slotsReply.sims, Wanted(target, m).value);
    }
  }

  lemma SyncNeverMissesSlot(modems: seq<Modem>, target: Target)
    ensures !Search(modems, SyncVerdict(target)).SlotMissing?
  {
    var i := FirstVerdict(modems, SyncVerdict(target));
    if i < |modems| { VerdictsAgree(modems[i], target); }
  }

  /** For any replies, the searches end the same way unless the first modem that matches has such slot objects. */
  lemma AgreeUnlessUnclear(modems: seq<Modem>, target: Target)
    ensures Search(modems, SyncVerdict(target)) == Search(modems, AsyncVerdict(target))
       <==> !ReachesUnclearSlot(modems, target)
  {
    var i := FirstVerdict(modems, AsyncVerdict(target));
    forall m
      ensures (AsyncVerdict(target)(m).Some? <==> Match(target, m).Some?)
           && (AsyncVerdict(target)(m).None? ==> SyncVerdict(target)(m).None?)
    {
    }
    if i < |modems| {
      VerdictsAgree(modems[i], target);
      FirstIs(modems, SyncVerdict(target), i);
      if SlotUnclear(target, modems[i]) {
        SyncNeverMissesSlot(modems, target);
      } else {
        FirstAgrees(modems, SyncVerdict(target), AsyncVerdict(target), i);
      }
    } else {
      FirstAgrees(modems, SyncVerdict(target), AsyncVerdict(target), i);
    }
  }

  /** Without a SIM path from the user a slot is never what matches, so the searches always agree. */
  lemma AnyAndUidAgree(modems: seq<Modem>, target: Target)
    requires !target.ByPath?
    ensures Search(modems, SyncVerdict(target)) == Search(modems, AsyncVerdict(target))
  {
    AgreeUnlessUnclear(modems, target);
  }
}
