/** When the two searches for a SIM agree, for slot objects that the library builds from the slot paths. */
module SimSlots {
  import opened Wrappers
  import opened ObjectSearch
  import opened SimSearch
  import opened SimMeaning
  import ObjectLookup

  /** One place for each slot path: nothing for "/", which stands for an empty slot, otherwise an object with that path. */
  ghost predicate BuiltFrom(paths: seq<string>, sims: seq<Option<Object>>) {
    && |sims| == |paths|
    && forall i :: 0 <= i < |sims| ==>
         if paths[i] == "/" then sims[i].None? else sims[i].Some? && sims[i].value.path == paths[i]
  }

  /** Each object is a new one. */
  ghost predicate Distinct(sims: seq<Option<Object>>) {
    forall i, j :: 0 <= i < j < |sims| && sims[i].Some? && sims[j].Some? ==> sims[i] != sims[j]
  }

  /** mm_modem_list_sim_slots_sync, where `failure` says which objects cannot be created. The new objects have
      handles from `handle` on. */
  method ListSimSlots(paths: seq<string>, failure: nat -> Option<string>, handle: nat) returns (reply: SlotsReply)
    ensures reply.GotSlots? ==> BuiltFrom(paths, reply.sims) && Distinct(reply.sims)
    ensures reply.SlotsError? <==> exists i :: 0 <= i < |paths| && paths[i] != "/" && failure(i).Some?
    ensures reply.SlotsError? ==> exists i :: 0 <= i < |paths| && paths[i] != "/" && failure(i) == Some(reply.message)
                                           && forall k :: 0 <= k < i && paths[k] != "/" ==> failure(k).None?
  {
    var sims: seq<Option<Object>> := [];
    for i := 0 to |paths|
      invariant BuiltFrom(paths[..i], sims) && Distinct(sims)
      invariant forall k :: 0 <= k < |sims| && sims[k].Some? ==> sims[k].value.handle < handle + i
      invariant forall k :: 0 <= k < i && paths[k] != "/" ==> failure(k).None?
    {
      if paths[i] == "/" {
        sims := sims + [None];
      } else if failure(i).Some? {
        return SlotsError(failure(i).value);
      } else {
        sims := sims + [Some(Object(paths[i], handle + i))];
      }
    }
    assert paths[..|paths|] == paths;
    return GotSlots(sims);
  }

  /** The reply of a modem, if there is one, is built from the slot paths of that modem. */
  ghost predicate WellBuilt(m: Modem) {
    m.slotPaths.Some? && m.slotsReply.GotSlots? ==>
      BuiltFrom(m.slotPaths.value, m.slotsReply.sims) && Distinct(m.slotsReply.sims)
  }

  ghost predicate AllWellBuilt(modems: seq<Modem>) {
    forall m :: m in modems ==> WellBuilt(m)
  }

  // ---------- which slot object each search takes

  ghost predicate ListedTwice(paths: seq<string>, p: string) {
    exists i, j :: 0 <= i < j < |paths| && paths[i] == p && paths[j] == p
  }

  /** For a path that is listed, other than that of an empty slot, both searches have an object with that path,
      and it is one object exactly when the path is not listed twice; for an empty slot neither has any. */
  lemma SlotObjects(paths: seq<string>, sims: seq<Option<Object>>, p: string)
    requires BuiltFrom(paths, sims) && Distinct(sims) && p in paths
    ensures p == "/" ==> FirstSim(sims, p).None? && LastSim(sims, p).None?
    ensures p != "/" ==>
              && FirstSim(sims, p).Some? && LastSim(sims, p).Some?
              && FirstSim(sims, p).value.path == p && LastSim(sims, p).value.path == p
              && (FirstSim(sims, p) == LastSim(sims, p) <==> !ListedTwice(paths, p))
  {
    hide FirstSim, LastSim;
    var i := FirstSimAt(sims, p);
    var n := LastSimAt(sims, p);
    assert forall k :: 0 <= k < |sims| ==> (HasPath(sims[k], p) <==> paths[k] == p && p != "/");
    var k :| 0 <= k < |paths| && paths[k] == p;
    if p != "/" {
      assert HasPath(sims[k], p) && paths[i] == p && paths[n - 1] == p;
    }
  }

  // ---------- when the searches agree

  /** The modem lists the path that is looked for as a slot, not as that of its own SIM, and answers. */
  ghost predicate AnswersForSlot(target: Target, m: Modem) {
    && target.ByPath? && m.simPath.Some? && m.simPath.value != target.simPath && ListsSlot(m, target.simPath)
    && m.slotsReply.GotSlots?
  }

  /** That path is listed twice, or is that of an empty slot. */
  ghost predicate Doubled(target: Target, m: Modem) {
    AnswersForSlot(target, m) && (target.simPath == "/" || ListedTwice(m.slotPaths.value, target.simPath))
  }

  ghost predicate ReachesDoubled(modems: seq<Modem>, target: Target) {
    exists i :: 0 <= i < |modems| && Doubled(target, modems[i])
             && forall j :: 0 <= j < i ==> ChainPasses(target, modems[j])
  }

  lemma UnclearMeansDoubled(target: Target, m: Modem)
    requires WellBuilt(m)
    ensures SlotUnclear(target, m) <==> Doubled(target, m)
  {
    if AnswersForSlot(target, m) {
      SlotObjects(m.slotPaths.value, m.slotsReply.sims, target.simPath);
    }
  }

  /** Chain and loop end exactly the same way, down to the object, if and only if the first modem that matches is
      not one that answers for a slot path it lists twice or for an empty slot. */
  lemma SearchesAgree(modems: seq<Modem>, target: Target)
    requires AllWellBuilt(modems)
    ensures Search(modems, SyncVerdict(target)) == Search(modems, AsyncVerdict(target))
       <==> !ReachesDoubled(modems, target)
  {
    AgreeUnlessUnclear(modems, target);
    forall i | 0 <= i < |modems| ensures SlotUnclear(target, modems[i]) <==> Doubled(target, modems[i]) {
      assert modems[i] in modems;
      UnclearMeansDoubled(target, modems[i]);
    }
    forall m ensures Match(target, m).None? <==> ChainPasses(target, m) {}
  }

  /** The same failure, or the same owner with an object of the same path. */
  predicate SameEnd(a: Outcome<Modem>, b: Outcome<Modem>) {
    a == b || (a.Found? && b.Found? && a.owner == b.owner && a.obj.path == b.obj.path)
  }

  /** The modem is reached by the path of an empty slot, and answers. */
  ghost predicate EmptySlot(target: Target, m: Modem) {
    AnswersForSlot(target, m) && target.simPath == "/"
  }

  ghost predicate ReachesEmptySlot(modems: seq<Modem>, target: Target) {
    exists i :: 0 <= i < |modems| && EmptySlot(target, modems[i])
             && forall j :: 0 <= j < i ==> ChainPasses(target, modems[j])
  }

  lemma VerdictsEndAlike(target: Target, m: Modem)
    requires WellBuilt(m) && !EmptySlot(target, m)
    ensures SyncVerdict(target)(m).Some? <==> AsyncVerdict(target)(m).Some?
    ensures SyncVerdict(target)(m).Some? ==>
              SameEnd(SyncVerdict(target)(m).value, AsyncVerdict(target)(m).value)
  {
    if AnswersForSlot(target, m) {
      SlotObjects(m.slotPaths.value, m.slotsReply.sims, target.simPath);
    }
  }

  /** Owner, path and failures are the same for both searches if and only if no empty slot is what matches first. */
  lemma SearchesEndAlike(modems: seq<Modem>, target: Target)
    requires AllWellBuilt(modems)
    ensures SameEnd(Search(modems, SyncVerdict(target)), Search(modems, AsyncVerdict(target)))
       <==> !ReachesEmptySlot(modems, target)
  {
    var i := FirstVerdict(modems, AsyncVerdict(target));
    forall m ensures AsyncVerdict(target)(m).None? <==> ChainPasses(target, m) { VerdictsMean(target, m); }
    forall m ensures AsyncVerdict(target)(m).None? ==> SyncVerdict(target)(m).None? {}
    FirstIs(modems, SyncVerdict(target), i);
    if i < |modems| {
      var m := modems[i];
      assert m in modems;
      if EmptySlot(target, m) {
        SlotObjects(m.slotPaths.value, m.slotsReply.sims, "/");
        SyncNeverMissesSlot(modems, target);
      } else {
        VerdictsEndAlike(target, m);
      }
    }
  }

  // ---------- from the user's string

  function TargetOf(l: ObjectLookup.Lookup): Option<Target> {
    match l
    case ByPath(p) => Some(ByPath(p))
    case ByUid(uid) => Some(ByUid(uid))
    case FindAny => Some(AnySim)
    case _ => None
  }

  /** No string of the user names an empty slot, so the two commands always end with the same owner and SIM path,
      or with the same failure. */
  lemma UserSearchesEndAlike(str: string, l: ObjectLookup.Lookup, modems: seq<Modem>)
    requires ObjectLookup.Stands(ObjectLookup.SIM_CALLER, str, l) && TargetOf(l).Some?
    requires AllWellBuilt(modems)
    ensures var target := TargetOf(l).value;
            SameEnd(Search(modems, SyncVerdict(target)), Search(modems, AsyncVerdict(target)))
  {
    var target := TargetOf(l).value;
    assert target.ByPath? ==> |target.simPath| >= |ObjectLookup.SIM_CALLER.prefix|;
    SearchesEndAlike(modems, target);
  }

  /** A modem with one path in two slots: the loop takes the second object, the chain the first. */
  lemma SearchesDiffer()
    ensures var sims := [Some(Object("/s1", 1)), Some(Object("/s1", 2))];
            var m := Modem("/m", Some("d"), Some("/s0"), Some(["/s1", "/s1"]), SimError("unused"), GotSlots(sims));
            && WellBuilt(m)
            && Search([m], SyncVerdict(ByPath("/s1"))) == Found(m, Object("/s1", 2))
            && Search([m], AsyncVerdict(ByPath("/s1"))) == Found(m, Object("/s1", 1))
  {
    var sims := [Some(Object("/s1", 1)), Some(Object("/s1", 2))];
    var m := Modem("/m", Some("d"), Some("/s0"), Some(["/s1", "/s1"]), SimError("unused"), GotSlots(sims));
    assert "/s1"[2] != "/s0"[2] && |"/s1"| != |"/"|;
    assert m.slotPaths.value[0] == "/s1";
    assert Match(ByPath("/s1"), m) == Some(Slot);
  }

  /** The path of an empty slot, which no user can name: the chain leaves at the first modem that lists it, the
      loop after the last modem. */
  lemma EmptySlotDiffers()
    ensures var m := Modem("/m", Some("d"), Some("/s0"), Some(["/"]), SimError("unused"), GotSlots([None]));
            && WellBuilt(m)
            && Search([m], SyncVerdict(ByPath("/"))) == NotFound
            && Search([m], AsyncVerdict(ByPath("/"))) == SlotMissing(m)
  {
    var m := Modem("/m", Some("d"), Some("/s0"), Some(["/"]), SimError("unused"), GotSlots([None]));
    assert |"/s0"| != |"/"| && m.slotPaths.value[0] == "/";
    assert Match(ByPath("/"), m) == Some(Slot);
    SlotObjects(m.slotPaths.value, m.slotsReply.sims, "/");
    FirstIs([m], SyncVerdict(ByPath("/")), 1);
  }
}
