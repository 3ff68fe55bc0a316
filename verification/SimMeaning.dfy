/** What the two searches for a SIM find. */
module SimMeaning {
  import opened Wrappers
  import opened ObjectSearch
  import opened SimSearch

  // ---------- what one modem says

  /** The reply of the modem to the request for its primary SIM. */
  ghost predicate PrimarySays(m: Modem, o: Outcome<Modem>) {
    match o
    case Found(owner, sim) => owner == m && m.simReply == GotSim(sim)
    case FetchFailed(at, message) => at == m && m.simReply == SimError(message)
    case _ => false
  }

  ghost predicate HasPath(slot: Option<Object>, p: string) { slot.Some? && slot.value.path == p }

  ghost predicate NoSlotHas(sims: seq<Option<Object>>, p: string) {
    forall k :: 0 <= k < |sims| ==> !HasPath(sims[k], p)
  }

  ghost predicate FirstSlot(sims: seq<Option<Object>>, p: string, sim: Object) {
    exists k :: 0 <= k < |sims| && sims[k] == Some(sim) && sim.path == p && forall j :: 0 <= j < k ==> !HasPath(sims[j], p)
  }

  ghost predicate LastSlot(sims: seq<Option<Object>>, p: string, sim: Object) {
    exists k :: 0 <= k < |sims| && sims[k] == Some(sim) && sim.path == p
             && forall j :: k < j < |sims| ==> !HasPath(sims[j], p)
  }

  /** The reply to the request for the slots, when `p` is one of the slot paths: the chain takes the first object. */
  ghost predicate ChainSlotSays(m: Modem, p: string, o: Outcome<Modem>) {
    match o
    case Found(owner, sim) => owner == m && m.slotsReply.GotSlots? && FirstSlot(m.slotsReply.sims, p, sim)
    case SlotMissing(at) => at == m && m.slotsReply.GotSlots? && NoSlotHas(m.slotsReply.sims, p)
    case ListFailed(at, message) => at == m && m.slotsReply == SlotsError(message)
    case _ => false
  }

  /** The loop takes the last object. */
  ghost predicate LoopSlotSays(m: Modem, p: string, o: Outcome<Modem>) {
    match o
    case Found(owner, sim) => owner == m && m.slotsReply.GotSlots? && LastSlot(m.slotsReply.sims, p, sim)
    case ListFailed(at, message) => at == m && m.slotsReply == SlotsError(message)
    case _ => false
  }

  ghost predicate ListsSlot(m: Modem, p: string) { m.slotPaths.Some? && p in m.slotPaths.value }

  /** The end that a modem gives the chain: any modem answers for "any"; the modem with the UID for a UID; for a path
      the modem whose SIM has it, or else one that lists it as a slot. A string that is compared and missing is an
      end too. */
  ghost predicate ChainSays(target: Target, m: Modem, o: Outcome<Modem>) {
    match target
    case AnySim => if m.simPath.None? then o == NullCompared(m) else PrimarySays(m, o)
    case ByUid(uid) =>
      if m.device.None? then o == NullCompared(m)
      else m.device.value == uid && if m.simPath.None? then o == NullCompared(m) else PrimarySays(m, o)
    case ByPath(p) =>
      if m.simPath.None? then o == NullCompared(m)
      else if m.simPath.value == p then PrimarySays(m, o)
      else ListsSlot(m, p) && ChainSlotSays(m, p, o)
  }

  ghost predicate LoopSays(target: Target, m: Modem, o: Outcome<Modem>) {
    match target
    case AnySim => if m.simPath.None? then o == NullCompared(m) else PrimarySays(m, o)
    case ByUid(uid) =>
      if m.device.None? then o == NullCompared(m)
      else m.device.value == uid && if m.simPath.None? then o == NullCompared(m) else PrimarySays(m, o)
    case ByPath(p) =>
      if m.simPath.None? then o == NullCompared(m)
      else if m.simPath.value == p then PrimarySays(m, o)
      else ListsSlot(m, p) && LoopSlotSays(m, p, o)
  }

  /** The chain goes on after a modem with another UID, or without the path. */
  ghost predicate ChainPasses(target: Target, m: Modem) {
    match target
    case AnySim => false
    case ByUid(uid) => m.device.Some? && m.device.value != uid
    case ByPath(p) => m.simPath.Some? && m.simPath.value != p && !ListsSlot(m, p)
  }

  /** The loop also goes on when the path is listed, but no slot has it. */
  ghost predicate LoopPasses(target: Target, m: Modem) {
    match target
    case AnySim => false
    case ByUid(uid) => m.device.Some? && m.device.value != uid
    case ByPath(p) =>
      m.simPath.Some? && m.simPath.value != p
      && (ListsSlot(m, p) ==> m.slotsReply.GotSlots? && NoSlotHas(m.slotsReply.sims, p))
  }

  // ---------- the verdicts mean this

  lemma {:induction false} FirstSimAt(sims: seq<Option<Object>>, p: string) returns (i: nat)
    ensures i <= |sims| && forall k :: 0 <= k < i ==> !HasPath(sims[k], p)
    ensures if i < |sims| then HasPath(sims[i], p) && sims[i] == FirstSim(sims, p) else FirstSim(sims, p) == None
  {
    i := 0;
    if sims != [] && !HasPath(sims[0], p) {
      var k := FirstSimAt(sims[1..], p);
      i := k + 1;
    }
  }

  lemma {:induction false} LastSimAt(sims: seq<Option<Object>>, p: string) returns (n: nat)
    ensures n <= |sims| && forall k :: n <= k < |sims| ==> !HasPath(sims[k], p)
    ensures if n > 0 then HasPath(sims[n - 1], p) && sims[n - 1] == LastSim(sims, p) else LastSim(sims, p) == None
  {
    n := |sims|;
    if n > 0 && !HasPath(sims[n - 1], p) {
      n := LastSimAt(sims[..n - 1], p);
    }
  }

  lemma SlotsMean(sims: seq<Option<Object>>, p: string)
    ensures FirstSim(sims, p) == None <==> NoSlotHas(sims, p)
    ensures LastSim(sims, p) == None <==> NoSlotHas(sims, p)
    ensures forall sim :: FirstSim(sims, p) == Some(sim) <==> FirstSlot(sims, p, sim)
    ensures forall sim :: LastSim(sims, p) == Some(sim) <==> LastSlot(sims, p, sim)
  {
    hide FirstSim, LastSim;
    var i := FirstSimAt(sims, p);
    var n := LastSimAt(sims, p);
  }

  lemma VerdictsMean(target: Target, m: Modem)
    ensures AsyncVerdict(target)(m).None? <==> ChainPasses(target, m)
    ensures forall o :: AsyncVerdict(target)(m) == Some(o) <==> ChainSays(target, m, o)
    ensures SyncVerdict(target)(m).None? <==> LoopPasses(target, m)
    ensures forall o :: SyncVerdict(target)(m) == Some(o) <==> LoopSays(target, m, o)
  {
    hide NoSlotHas, FirstSlot, LastSlot, FirstSim, LastSim;
    if target.ByPath? && m.slotsReply.GotSlots? { SlotsMean(m.slotsReply.sims, target.simPath); }
  }

  lemma SaysNothingElse(target: Target, m: Modem)
    ensures !ChainSays(target, m, NoModems) && !ChainSays(target, m, NotFound)
    ensures !LoopSays(target, m, NoModems) && !LoopSays(target, m, NotFound)
  {
  }

  // ---------- how the searches end

  /** Without modems; or with nothing found when the chain goes on after every modem; or as the first other modem
      says. */
  lemma ChainMeans(modems: seq<Modem>, target: Target, o: Outcome<Modem>)
    ensures Search(modems, AsyncVerdict(target)) == o <==>
              if modems == [] then o == NoModems
              else if o == NotFound then forall m :: m in modems ==> ChainPasses(target, m)
              else exists i :: 0 <= i < |modems| && ChainSays(target, modems[i], o)
                            && forall j :: 0 <= j < i ==> ChainPasses(target, modems[j])
  {
    hide AsyncVerdict, SyncVerdict, ChainSays, LoopSays, ChainPasses, LoopPasses;
    forall m ensures (AsyncVerdict(target)(m).None? <==> ChainPasses(target, m))
                  && (AsyncVerdict(target)(m) == Some(o) <==> ChainSays(target, m, o))
                  && AsyncVerdict(target)(m) != Some(NoModems) && AsyncVerdict(target)(m) != Some(NotFound)
    {
      VerdictsMean(target, m);
      SaysNothingElse(target, m);
    }
    SearchIs(modems, AsyncVerdict(target), o);
  }

  lemma LoopMeans(modems: seq<Modem>, target: Target, o: Outcome<Modem>)
    ensures Search(modems, SyncVerdict(target)) == o <==>
              if modems == [] then o == NoModems
              else if o == NotFound then forall m :: m in modems ==> LoopPasses(target, m)
              else exists i :: 0 <= i < |modems| && LoopSays(target, modems[i], o)
                            && forall j :: 0 <= j < i ==> LoopPasses(target, modems[j])
  {
    hide AsyncVerdict, SyncVerdict, ChainSays, LoopSays, ChainPasses, LoopPasses;
    forall m ensures (SyncVerdict(target)(m).None? <==> LoopPasses(target, m))
                  && (SyncVerdict(target)(m) == Some(o) <==> LoopSays(target, m, o))
                  && SyncVerdict(target)(m) != Some(NoModems) && SyncVerdict(target)(m) != Some(NotFound)
    {
      VerdictsMean(target, m);
      SaysNothingElse(target, m);
    }
    SearchIs(modems, SyncVerdict(target), o);
  }

  /** For a UID both searches find a SIM exactly when it is the reply of the first modem with that UID, and no modem
      before it lacks a UID. */
  lemma UidFinds(modems: seq<Modem>, uid: string, m: Modem, sim: Object)
    ensures Search(modems, AsyncVerdict(ByUid(uid))) == Search(modems, SyncVerdict(ByUid(uid)))
    ensures Search(modems, AsyncVerdict(ByUid(uid))) == Found(m, sim)
       <==> exists i :: 0 <= i < |modems| && modems[i] == m
                     && m.device == Some(uid) && m.simPath.Some? && m.simReply == GotSim(sim)
                     && forall j :: 0 <= j < i ==> modems[j].device.Some? && modems[j].device.value != uid
  {
    AnyAndUidAgree(modems, ByUid(uid));
    ChainMeans(modems, ByUid(uid), Found(m, sim));
    forall x ensures (ChainSays(ByUid(uid), x, Found(m, sim)) <==>
                        x == m && m.device == Some(uid) && m.simPath.Some? && m.simReply == GotSim(sim))
                  && (ChainPasses(ByUid(uid), x) <==> x.device.Some? && x.device.value != uid)
    {
    }
  }

  /** For "any" both searches find the SIM of the first modem, or none. */
  lemma AnyFinds(modems: seq<Modem>, m: Modem, sim: Object)
    ensures Search(modems, AsyncVerdict(AnySim)) == Search(modems, SyncVerdict(AnySim))
    ensures Search(modems, AsyncVerdict(AnySim)) == Found(m, sim)
       <==> modems != [] && modems[0] == m && m.simPath.Some? && m.simReply == GotSim(sim)
    ensures Search(modems, AsyncVerdict(AnySim)) != NotFound
  {
    AnyAndUidAgree(modems, AnySim);
    ChainMeans(modems, AnySim, Found(m, sim));
    ChainMeans(modems, AnySim, NotFound);
    assert modems != [] ==> modems[0] in modems && !ChainPasses(AnySim, modems[0]);
    forall x ensures !ChainPasses(AnySim, x)
                  && (ChainSays(AnySim, x, Found(m, sim)) <==> x == m && m.simPath.Some? && m.simReply == GotSim(sim))
    {
    }
  }

  /** A modem with another UID is no answer, whatever its SIM: it can be taken out of the list. */
  lemma OtherUidIsSkipped(a: seq<Modem>, m: Modem, b: seq<Modem>, uid: string)
    requires m.device.Some? && m.device.value != uid && a + b != []
    ensures Search(a + [m] + b, AsyncVerdict(ByUid(uid))) == Search(a + b, AsyncVerdict(ByUid(uid)))
    ensures Search(a + [m] + b, SyncVerdict(ByUid(uid))) == Search(a + b, SyncVerdict(ByUid(uid)))
  {
    VerdictsMean(ByUid(uid), m);
    SkipSilent(a, m, b, AsyncVerdict(ByUid(uid)));
    SkipSilent(a, m, b, SyncVerdict(ByUid(uid)));
  }
}
