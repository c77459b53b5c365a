/**
 * What every run of one node keeps: spores in `staging` do not conflict, except through a
 * spore let in by a requirement mismatch; and what a gc pass leaves in `waiting`.
 */
module Staging {
  import opened Operations
  import opened Execution
  import opened Node

  // ---------------------------------------------------------------- well-formed references

  ghost predicate RefersTo(st: State, ma: map<string, nat>, u: string)
  {
    u in ma ==> ma[u] < |st.triggers| && st.triggers[ma[u]].spore.uuid == u
  }

  ghost predicate WellFormed(st: State)
  {
    && (forall u :: RefersTo(st, st.staging, u))
    && (forall u :: RefersTo(st, st.waiting, u))
  }

  /** Triggers keep their spore and flag for ever. */
  ghost predicate Extends(st: State, st': State)
  {
    && |st.triggers| <= |st'.triggers|
    && forall r :: 0 <= r < |st.triggers| ==>
         st'.triggers[r].spore == st.triggers[r].spore && st'.triggers[r].bypass == st.triggers[r].bypass
  }

  // ---------------------------------------------------------------- the invariant

  ghost predicate ApartAt(st: State, u: string, v: string)
  {
    && RefersTo(st, st.staging, u) && RefersTo(st, st.staging, v)
    && (u in st.staging && v in st.staging && u != v ==>
          var t, t' := st.triggers[st.staging[u]], st.triggers[st.staging[v]];
          SporesConflict(t.spore, t'.spore) ==> t.bypass || t'.bypass)
  }

  /** Any two conflicting staged spores involve one that skipped the checks. */
  ghost predicate Apart(st: State)
  {
    forall u, v :: ApartAt(st, u, v)
  }

  ghost predicate Invariant(st: State)
  {
    WellFormed(st) && Apart(st)
  }

  /** A state whose staging and waiting maps are those of `st` or smaller. */
  ghost predicate NoMoreStaged(st: State, st': State)
  {
    && Extends(st, st')
    && (forall u :: u in st'.staging ==> u in st.staging && st'.staging[u] == st.staging[u])
    && (forall u :: u in st'.waiting ==> u in st.waiting && st'.waiting[u] == st.waiting[u])
  }

  lemma NoMoreStagedKeeps(st: State, st': State)
    requires Invariant(st) && NoMoreStaged(st, st')
    ensures Invariant(st')
  {
    forall u ensures RefersTo(st', st'.staging, u) && RefersTo(st', st'.waiting, u) {
      assert RefersTo(st, st.staging, u) && RefersTo(st, st.waiting, u);
    }
    forall u, v ensures ApartAt(st', u, v) {
      assert ApartAt(st, u, v);
      assert RefersTo(st', st'.staging, u) && RefersTo(st', st'.staging, v);
    }
  }

  lemma StageKeeps(st: State, s: Spore, es: seq<Endorsement>, bypass: bool)
    requires Invariant(st) && (bypass || !ConflictsWithStaging(st, s))
    ensures Invariant(Stage(st, s, es, bypass))
  {
    var st' := Stage(st, s, es, bypass);
    forall u ensures RefersTo(st', st'.staging, u) && RefersTo(st', st'.waiting, u) {
      assert RefersTo(st, st.staging, u) && RefersTo(st, st.waiting, u);
    }
    forall u, v ensures ApartAt(st', u, v) {
      assert RefersTo(st', st'.staging, u) && RefersTo(st', st'.staging, v);
      assert ApartAt(st, u, v);
      if u in st.staging {
        ConflictSymmetric(s, st.triggers[st.staging[u]].spore);
      }
      if v in st.staging {
        ConflictSymmetric(s, st.triggers[st.staging[v]].spore);
      }
    }
  }

  lemma PostponeKeeps(st: State, s: Spore)
    requires Invariant(st)
    ensures Invariant(Postpone(st, s))
  {
    var st' := Postpone(st, s);
    forall u ensures RefersTo(st', st'.staging, u) && RefersTo(st', st'.waiting, u) {
      assert RefersTo(st, st.staging, u) && RefersTo(st, st.waiting, u);
    }
    forall u, v ensures ApartAt(st', u, v) {
      assert RefersTo(st', st'.staging, u) && RefersTo(st', st'.staging, v);
      assert ApartAt(st, u, v);
    }
  }

  lemma ApplyIsNeutral(cfg: Config, st: State, s: Spore, bypass: bool)
    ensures NoMoreStaged(st, Apply(cfg, st, s, bypass))
    ensures Apply(cfg, st, s, bypass).staging == st.staging
    ensures Apply(cfg, st, s, bypass).waiting == st.waiting
    ensures Apply(cfg, st, s, bypass).triggers == st.triggers
  {
  }

  lemma PromoteKeeps(cfg: Config, st: State, s: Spore, bypass: bool)
    requires Invariant(st) && (bypass || !ConflictsWithStaging(st, s))
    ensures Invariant(Promote(cfg, st, s, bypass))
  {
    var path := PathOf(cfg, s);
    var logged := Log(st, Promoted(s, bypass, Signs(cfg, s), path.ToStaging?));
    NoMoreStagedKeeps(st, logged);
    if path.AtOnce? {
      ApplyIsNeutral(cfg, logged, s, bypass);
      NoMoreStagedKeeps(logged, Promote(cfg, st, s, bypass));
    } else if path.ToStaging? {
      assert ConflictsWithStaging(logged, s) ==> ConflictsWithStaging(st, s);
      StageKeeps(logged, s, OwnEndorsements(cfg, s), bypass);
    }
  }

  /** Passing CanEndorse without a bypass means no staged spore conflicts. */
  lemma EndorsableIsApart(cfg: Config, st: State, s: Spore, missingFirst: bool)
    requires CanEndorse(cfg, st, s, missingFirst) == Ok
    ensures Bypasses(st, s, missingFirst) || !ConflictsWithStaging(st, s)
  {
  }

  lemma ReconsiderKeeps(cfg: Config, st: State, k: string, missingFirst: set<string>)
    requires Invariant(st)
    ensures Invariant(Reconsider(cfg, st, k, missingFirst))
  {
    var st' := Reconsider(cfg, st, k, missingFirst);
    if k in st.waiting && st.waiting[k] < |st.triggers| {
      var s := st.triggers[st.waiting[k]].spore;
      if CanEndorse(cfg, st, s, k in missingFirst) == Ok {
        EndorsableIsApart(cfg, st, s, k in missingFirst);
        var mid := Promote(cfg, st, s, Bypasses(st, s, k in missingFirst));
        PromoteKeeps(cfg, st, s, Bypasses(st, s, k in missingFirst));
        NoMoreStagedKeeps(mid, st');
      } else {
        NoMoreStagedKeeps(st, st');
      }
    }
  }

  lemma {:induction false} ReconsiderAllKeeps(cfg: Config, st: State, order: seq<string>, missingFirst: set<string>)
    requires Invariant(st)
    ensures Invariant(ReconsiderAll(cfg, st, order, missingFirst))
    decreases |order|
  {
    if order != [] {
      ReconsiderKeeps(cfg, st, order[0], missingFirst);
      ReconsiderAllKeeps(cfg, Reconsider(cfg, st, order[0], missingFirst), order[1..], missingFirst);
    }
  }

  lemma EndorseKeeps(cfg: Config, st: State, s: Spore, missingFirst: bool)
    requires Invariant(st)
    ensures Invariant(Endorse(cfg, st, s, missingFirst))
  {
    if Signed(cfg, s) {
      var v := CanEndorse(cfg, st, s, missingFirst);
      if v == Ok {
        EndorsableIsApart(cfg, st, s, missingFirst);
        PromoteKeeps(cfg, st, s, Bypasses(st, s, missingFirst));
      } else if v == ConflictingWithStaging {
        PostponeKeeps(st, s);
      }
    }
  }

  lemma CollectKeeps(cfg: Config, st: State, uuid: string, order: seq<string>, missingFirst: set<string>)
    requires Invariant(st)
    ensures Invariant(Collect(cfg, st, uuid, order, missingFirst))
  {
    UnstageIsNeutral(st, uuid, Expired(uuid));
    NoMoreStagedKeeps(st, Unstage(st, uuid, Expired(uuid)));
    ReconsiderAllKeeps(cfg, Unstage(st, uuid, Expired(uuid)), order, missingFirst);
  }

  lemma RunPendingIsNeutral(cfg: Config, st: State, ref: nat)
    ensures NoMoreStaged(st, RunPending(cfg, st, ref))
    ensures RunPending(cfg, st, ref).triggers == st.triggers
  {
    if ref in st.pending && ref < |st.triggers| {
      ApplyIsNeutral(cfg, st.(pending := st.pending - multiset{ref}), st.triggers[ref].spore, st.triggers[ref].bypass);
    }
  }

  lemma StepKeeps(cfg: Config, st: State, l: Label)
    requires Invariant(st)
    ensures Invariant(Step(cfg, st, l))
  {
    match l {
      case Receive(s, missingFirst) => EndorseKeeps(cfg, st, s, missingFirst);
      case Timer(uuid, order, missingFirsts) => CollectKeeps(cfg, st, uuid, order, missingFirsts);
      case Spawned(ref) =>
        RunPendingIsNeutral(cfg, st, ref);
        NoMoreStagedKeeps(st, RunPending(cfg, st, ref));
      case FirstRegion(e) =>
        RegisterIsNeutral(cfg, st, e);
        NoMoreStagedKeeps(st, Register(cfg, st, e));
      case SecondRegion(ref) =>
        CommitIsNeutral(cfg, st, ref);
        NoMoreStagedKeeps(st, Commit(cfg, st, ref));
      case Tick(_) => NoMoreStagedKeeps(st, Step(cfg, st, l));
      case Sweeping(_) => NoMoreStagedKeeps(st, Step(cfg, st, l));
    }
  }

  lemma UnstageIsNeutral(st: State, uuid: string, e: Event)
    ensures NoMoreStaged(st, Unstage(st, uuid, e))
  {
  }

  lemma CommitIsNeutral(cfg: Config, st: State, ref: nat)
    ensures NoMoreStaged(st, Commit(cfg, st, ref)) && Commit(cfg, st, ref).triggers == st.triggers
  {
    if ref in st.calls && ref < |st.triggers| && QuorumReached(cfg, st.triggers[ref]) {
      var u := st.triggers[ref].spore.uuid;
      UnstageIsNeutral(st, u, Quorate(u));
    }
  }

  lemma AddToIsNeutral(st: State, ref: nat, e: Endorsement)
    requires ref < |st.triggers|
    ensures NoMoreStaged(st, AddTo(st, ref, e))
  {
  }

  lemma RegisterIsNeutral(cfg: Config, st: State, e: Endorsement)
    ensures NoMoreStaged(st, Register(cfg, st, e))
    ensures Register(cfg, st, e).staging == st.staging && Register(cfg, st, e).waiting == st.waiting
    ensures |Register(cfg, st, e).triggers| == |st.triggers|
  {
    var st' := Register(cfg, st, e);
    if VetIn(cfg, st, st.staging, e) == Accepted {
      AddToIsNeutral(st, st.staging[e.uuid], e);
      assert NoMoreStaged(AddTo(st, st.staging[e.uuid], e), st');
    } else if VetIn(cfg, st, st.waiting, e) == Accepted {
      AddToIsNeutral(st, st.waiting[e.uuid], e);
    }
  }

  /**
   * In every run, two staged spores with different uuids conflict only if one of them was
   * promoted by way of a requirement mismatch.
   */
  lemma {:induction false} EveryRunStaysApart(cfg: Config, now: int, ls: seq<Label>)
    ensures Invariant(RunLabels(cfg, Initial(now), ls))
    decreases |ls|
  {
    if ls != [] {
      EveryRunStaysApart(cfg, now, ls[..|ls| - 1]);
      StepKeeps(cfg, RunLabels(cfg, Initial(now), ls[..|ls| - 1]), ls[|ls| - 1]);
    }
  }

  // ---------------------------------------------------------------- the exact condition, one step at a time

  ghost predicate FreeAt(st: State, u: string, v: string)
  {
    && RefersTo(st, st.staging, u) && RefersTo(st, st.staging, v)
    && (u in st.staging && v in st.staging && u != v ==>
          !SporesConflict(st.triggers[st.staging[u]].spore, st.triggers[st.staging[v]].spore))
  }

  /** No two staged spores conflict, mismatch or not. */
  ghost predicate ConflictFree(st: State)
  {
    forall u, v :: FreeAt(st, u, v)
  }

  /** Some other staged spore conflicts with `s`. */
  ghost predicate Clashes(st: State, s: Spore)
  {
    exists u :: u in st.staging && u != s.uuid && st.staging[u] < |st.triggers| &&
                SporesConflict(s, st.triggers[st.staging[u]].spore)
  }

  lemma StageFreeIff(st: State, s: Spore, es: seq<Endorsement>, bypass: bool)
    requires ConflictFree(st)
    ensures ConflictFree(Stage(st, s, es, bypass)) <==> !Clashes(st, s)
  {
    var st' := Stage(st, s, es, bypass);
    if Clashes(st, s) {
      var u :| u in st.staging && u != s.uuid && st.staging[u] < |st.triggers| &&
               SporesConflict(s, st.triggers[st.staging[u]].spore);
      assert !FreeAt(st', s.uuid, u);
    } else {
      forall u, v ensures FreeAt(st', u, v) {
        assert FreeAt(st, u, v);
        if u in st.staging {
          ConflictSymmetric(s, st.triggers[st.staging[u]].spore);
        }
      }
    }
  }

  lemma PromoteFreeIff(cfg: Config, st: State, s: Spore, bypass: bool)
    requires ConflictFree(st)
    ensures ConflictFree(Promote(cfg, st, s, bypass)) <==> !(PathOf(cfg, s).ToStaging? && Clashes(st, s))
  {
    if PathOf(cfg, s).ToStaging? {
      var logged := Log(st, Promoted(s, bypass, Signs(cfg, s), true));
      SameStagingSameFree(st, logged);
      assert Clashes(logged, s) <==> Clashes(st, s);
      StageFreeIff(logged, s, OwnEndorsements(cfg, s), bypass);
    } else {
      SameStagingSameFree(st, Promote(cfg, st, s, bypass));
    }
  }

  /** The spore is about to be staged, by way of a requirement mismatch, beside one it conflicts with. */
  ghost predicate Intrudes(cfg: Config, st: State, s: Spore, missingFirst: bool)
  {
    && CheckDeadline(s, st.now) && Bypasses(st, s, missingFirst)
    && PathOf(cfg, s).ToStaging? && Clashes(st, s)
  }

  /** A spore that CanEndorse lets through clashes only if it intrudes. */
  lemma EndorsableClashes(cfg: Config, st: State, s: Spore, missingFirst: bool)
    requires CanEndorse(cfg, st, s, missingFirst) == Ok
    ensures PathOf(cfg, s).ToStaging? && Clashes(st, s) <==> Intrudes(cfg, st, s, missingFirst)
  {
    EndorsableIsApart(cfg, st, s, missingFirst);
    assert Clashes(st, s) ==> ConflictsWithStaging(st, s);
  }

  lemma IntruderPasses(cfg: Config, st: State, s: Spore, missingFirst: bool)
    requires Intrudes(cfg, st, s, missingFirst)
    ensures CanEndorse(cfg, st, s, missingFirst) == Ok
  {
  }

  /**
   * Endorsing keeps staging free of conflicts if and only if it does not stage, by way of a
   * requirement mismatch, a spore that clashes with a staged one.
   */
  lemma EndorseFreeIff(cfg: Config, st: State, s: Spore, missingFirst: bool)
    requires ConflictFree(st)
    ensures ConflictFree(Endorse(cfg, st, s, missingFirst)) <==> !(Signed(cfg, s) && Intrudes(cfg, st, s, missingFirst))
  {
    if Signed(cfg, s) && CanEndorse(cfg, st, s, missingFirst) == Ok {
      PromoteFreeIff(cfg, st, s, Bypasses(st, s, missingFirst));
      EndorsableClashes(cfg, st, s, missingFirst);
    } else {
      UnpromotedEndorse(cfg, st, s, missingFirst);
      SameStagingSameFree(st, Endorse(cfg, st, s, missingFirst));
    }
  }

  lemma UnpromotedEndorse(cfg: Config, st: State, s: Spore, missingFirst: bool)
    requires !(Signed(cfg, s) && CanEndorse(cfg, st, s, missingFirst) == Ok)
    ensures var st' := Endorse(cfg, st, s, missingFirst);
            st'.staging == st.staging && st.triggers <= st'.triggers
    ensures !(Signed(cfg, s) && Intrudes(cfg, st, s, missingFirst))
  {
    if Intrudes(cfg, st, s, missingFirst) {
      IntruderPasses(cfg, st, s, missingFirst);
    }
  }

  lemma SameStagingSameFree(st: State, st': State)
    requires ConflictFree(st) && st'.staging == st.staging && st.triggers <= st'.triggers
    ensures ConflictFree(st')
  {
    forall u, v ensures FreeAt(st', u, v) {
      assert FreeAt(st, u, v);
    }
  }

  /** The spore waiting under `k` would be promoted beside one it conflicts with. */
  ghost predicate IntrudesFromWaiting(cfg: Config, st: State, k: string, missingFirst: set<string>)
  {
    && k in st.waiting && st.waiting[k] < |st.triggers|
    && Intrudes(cfg, st, st.triggers[st.waiting[k]].spore, k in missingFirst)
  }

  /** An iteration of the promotion loop keeps staging free of conflicts under the same condition. */
  lemma ReconsiderFreeIff(cfg: Config, st: State, k: string, missingFirst: set<string>)
    requires ConflictFree(st)
    ensures ConflictFree(Reconsider(cfg, st, k, missingFirst)) <==> !IntrudesFromWaiting(cfg, st, k, missingFirst)
  {
    var st' := Reconsider(cfg, st, k, missingFirst);
    if k in st.waiting && st.waiting[k] < |st.triggers| {
      var s := st.triggers[st.waiting[k]].spore;
      if CanEndorse(cfg, st, s, k in missingFirst) == Ok {
        var mid := Promote(cfg, st, s, Bypasses(st, s, k in missingFirst));
        PromoteFreeIff(cfg, st, s, Bypasses(st, s, k in missingFirst));
        EndorsableClashes(cfg, st, s, k in missingFirst);
        SameFree(mid, st');
      } else {
        if Intrudes(cfg, st, s, k in missingFirst) {
          IntruderPasses(cfg, st, s, k in missingFirst);
        }
        SameFree(st, st');
      }
    }
  }

  lemma SameFree(st: State, st': State)
    requires st'.staging == st.staging && st'.triggers == st.triggers
    ensures ConflictFree(st) <==> ConflictFree(st')
  {
    forall u, v ensures FreeAt(st, u, v) <==> FreeAt(st', u, v) {
    }
  }

  // ---------------------------------------------------------------- the exact condition over passes and runs

  /** Some iteration of the pass promotes an intruder. */
  ghost predicate PassIntrudes(cfg: Config, st: State, order: seq<string>, missingFirst: set<string>)
    decreases |order|
  {
    order != [] &&
    (IntrudesFromWaiting(cfg, st, order[0], missingFirst) ||
     PassIntrudes(cfg, Reconsider(cfg, st, order[0], missingFirst), order[1..], missingFirst))
  }

  /** Staging is free of conflicts before, between and after the iterations of the pass. */
  ghost predicate PassFree(cfg: Config, st: State, order: seq<string>, missingFirst: set<string>)
    decreases |order|
  {
    && ConflictFree(st)
    && (order != [] ==> PassFree(cfg, Reconsider(cfg, st, order[0], missingFirst), order[1..], missingFirst))
  }

  lemma {:induction false} PassFreeIff(cfg: Config, st: State, order: seq<string>, missingFirst: set<string>)
    requires ConflictFree(st)
    ensures PassFree(cfg, st, order, missingFirst) <==> !PassIntrudes(cfg, st, order, missingFirst)
    ensures PassFree(cfg, st, order, missingFirst) ==> ConflictFree(ReconsiderAll(cfg, st, order, missingFirst))
    decreases |order|
  {
    if order != [] {
      var mid := Reconsider(cfg, st, order[0], missingFirst);
      ReconsiderFreeIff(cfg, st, order[0], missingFirst);
      if ConflictFree(mid) {
        PassFreeIff(cfg, mid, order[1..], missingFirst);
      }
    }
  }

  /** The step promotes an intruder, on reception or from the waiting list. */
  ghost predicate StepIntrudes(cfg: Config, st: State, l: Label)
  {
    match l
    case Receive(s, missingFirst) => Signed(cfg, s) && Intrudes(cfg, st, s, missingFirst)
    case Timer(uuid, order, missingFirsts) => PassIntrudes(cfg, Unstage(st, uuid, Expired(uuid)), order, missingFirsts)
    case _ => false
  }

  /** Staging is free of conflicts after the step, and throughout it if it is a pass. */
  ghost predicate StepFree(cfg: Config, st: State, l: Label)
  {
    && ConflictFree(Step(cfg, st, l))
    && (l.Timer? ==> PassFree(cfg, Unstage(st, l.uuid, Expired(l.uuid)), l.order, l.missingFirsts))
  }

  lemma FewerStagedFree(st: State, st': State)
    requires ConflictFree(st) && NoMoreStaged(st, st')
    ensures ConflictFree(st')
  {
    forall u, v ensures FreeAt(st', u, v) {
      assert FreeAt(st, u, v);
    }
  }

  lemma StepFreeIff(cfg: Config, st: State, l: Label)
    requires ConflictFree(st)
    ensures StepFree(cfg, st, l) <==> !StepIntrudes(cfg, st, l)
  {
    match l {
      case Receive(s, missingFirst) => EndorseFreeIff(cfg, st, s, missingFirst);
      case Timer(uuid, order, missingFirsts) =>
        var mid := Unstage(st, uuid, Expired(uuid));
        UnstageIsNeutral(st, uuid, Expired(uuid));
        FewerStagedFree(st, mid);
        PassFreeIff(cfg, mid, order, missingFirsts);
      case Spawned(ref) =>
        RunPendingIsNeutral(cfg, st, ref);
        FewerStagedFree(st, RunPending(cfg, st, ref));
      case FirstRegion(e) =>
        RegisterIsNeutral(cfg, st, e);
        FewerStagedFree(st, Register(cfg, st, e));
      case SecondRegion(ref) =>
        CommitIsNeutral(cfg, st, ref);
        FewerStagedFree(st, Commit(cfg, st, ref));
      case Tick(_) => SameFree(st, Step(cfg, st, l));
      case Sweeping(_) => SameFree(st, Step(cfg, st, l));
    }
  }

  ghost predicate AlwaysFree(cfg: Config, now: int, ls: seq<Label>)
  {
    forall i :: 0 <= i < |ls| ==> StepFree(cfg, RunLabels(cfg, Initial(now), ls[..i]), ls[i])
  }

  ghost predicate NoIntruder(cfg: Config, now: int, ls: seq<Label>)
  {
    forall i :: 0 <= i < |ls| ==> !StepIntrudes(cfg, RunLabels(cfg, Initial(now), ls[..i]), ls[i])
  }

  /** As long as no step has promoted an intruder, the next state is free of conflicts. */
  lemma {:induction false} FreeUntil(cfg: Config, now: int, ls: seq<Label>, n: nat)
    requires n <= |ls|
    requires forall i :: 0 <= i < n ==>
               var st := RunLabels(cfg, Initial(now), ls[..i]);
               StepFree(cfg, st, ls[i]) || !StepIntrudes(cfg, st, ls[i])
    ensures ConflictFree(RunLabels(cfg, Initial(now), ls[..n]))
    decreases n
  {
    if n > 0 {
      FreeUntil(cfg, now, ls, n - 1);
      var st := RunLabels(cfg, Initial(now), ls[..n - 1]);
      StepFreeIff(cfg, st, ls[n - 1]);
      assert ls[..n][..n - 1] == ls[..n - 1] && ls[..n][n - 1] == ls[n - 1];
    }
  }

  /**
   * Staging is free of conflicts at every moment of a run if and only if no step of the run, on
   * reception or in a gc pass, promotes by way of a requirement mismatch a spore that clashes.
   */
  lemma EveryRunFreeIff(cfg: Config, now: int, ls: seq<Label>)
    ensures AlwaysFree(cfg, now, ls) <==> NoIntruder(cfg, now, ls)
  {
    if AlwaysFree(cfg, now, ls) || NoIntruder(cfg, now, ls) {
      forall i | 0 <= i < |ls|
        ensures var st := RunLabels(cfg, Initial(now), ls[..i]);
                StepFree(cfg, st, ls[i]) <==> !StepIntrudes(cfg, st, ls[i])
      {
        FreeUntil(cfg, now, ls, i);
        StepFreeIff(cfg, RunLabels(cfg, Initial(now), ls[..i]), ls[i]);
      }
    }
  }

  // ---------------------------------------------------------------- the two maps overlap

  /** The spore goes through every check and into staging. */
  ghost predicate Stages(cfg: Config, st: State, s: Spore)
  {
    && Signed(cfg, s) && CanEndorse(cfg, st, s, false) == Ok && !Bypasses(st, s, false)
    && PathOf(cfg, s).ToStaging?
  }

  lemma OnlyStagingMatters(cfg: Config, st: State, st': State, s: Spore)
    requires CanEndorse(cfg, st, s, false) == Ok && !Bypasses(st, s, false)
    requires st'.store == st.store && st'.now == st.now
    ensures !ConflictsWithStaging(st, s)
    ensures CanEndorse(cfg, st', s, false) == if ConflictsWithStaging(st', s) then ConflictingWithStaging else Ok
  {
  }

  /** Once staged, the only new reason to refuse a spore is the spore itself. */
  lemma SecondVerdict(cfg: Config, st: State, s: Spore)
    requires Stages(cfg, st, s)
    ensures var st' := Endorse(cfg, st, s, false);
            && st'.staging == st.staging[s.uuid := |st.triggers|] && st'.waiting == st.waiting
            && st'.triggers == st.triggers + [Trigger(s, OwnEndorsements(cfg, s), false)]
            && CanEndorse(cfg, st', s, false) == if SporesConflict(s, s) then ConflictingWithStaging else Ok
  {
    var logged := Log(st, Promoted(s, false, Signs(cfg, s), true));
    ConflictAfterStage(logged, s, OwnEndorsements(cfg, s), false);
    OnlyStagingMatters(cfg, st, logged, s);
    OnlyStagingMatters(cfg, st, Stage(logged, s, OwnEndorsements(cfg, s), false), s);
    assert ConflictsWithStaging(logged, s) == ConflictsWithStaging(st, s);
  }

  lemma ConflictAfterStage(st: State, s: Spore, es: seq<Endorsement>, bypass: bool)
    ensures SporesConflict(s, s) ==> ConflictsWithStaging(Stage(st, s, es, bypass), s)
    ensures ConflictsWithStaging(Stage(st, s, es, bypass), s) ==> ConflictsWithStaging(st, s) || SporesConflict(s, s)
  {
    var st' := Stage(st, s, es, bypass);
    assert st'.triggers[st'.staging[s.uuid]].spore == s;
    if ConflictsWithStaging(st', s) {
      var u :| u in st'.staging && st'.staging[u] < |st'.triggers| &&
               SporesConflict(s, st'.triggers[st'.staging[u]].spore);
      assert u == s.uuid || st'.staging[u] == st.staging[u];
    }
  }

  /**
   * A spore received twice is both in staging and in waiting if and only if it conflicts with
   * itself, as every spore with a CONCAT does.
   */
  lemma TwiceReceived(cfg: Config, st: State, s: Spore)
    requires Stages(cfg, st, s) && s.uuid !in st.waiting
    ensures var st' := Endorse(cfg, Endorse(cfg, st, s, false), s, false);
            s.uuid in st'.staging && (s.uuid in st'.waiting <==> SporesConflict(s, s))
  {
    SecondVerdict(cfg, st, s);
  }

  /** Promotion from waiting starts a new trigger: only the node's own endorsement is in it. */
  lemma PromotionForgets(cfg: Config, st: State, k: string, missingFirst: set<string>)
    requires k in st.waiting && st.waiting[k] < |st.triggers|
    requires PathOf(cfg, st.triggers[st.waiting[k]].spore).ToStaging?
    requires CanEndorse(cfg, st, st.triggers[st.waiting[k]].spore, k in missingFirst) == Ok
    ensures var s, st' := st.triggers[st.waiting[k]].spore, Reconsider(cfg, st, k, missingFirst);
            && k !in st'.waiting && s.uuid in st'.staging && st'.staging[s.uuid] == |st.triggers|
            && st'.triggers[..|st.triggers|] == st.triggers
            && st'.triggers[|st.triggers|..] ==
               [Trigger(s, OwnEndorsements(cfg, s), Bypasses(st, s, k in missingFirst))]
            && |OwnEndorsements(cfg, s)| <= 1
  {
    var s := st.triggers[st.waiting[k]].spore;
    var t := Trigger(s, OwnEndorsements(cfg, s), Bypasses(st, s, k in missingFirst));
    assert Reconsider(cfg, st, k, missingFirst).triggers == st.triggers + [t];
  }

  // ---------------------------------------------------------------- what a gc pass leaves behind

  ghost function StagedSpores(st: State): set<Spore>
  {
    set u | u in st.staging && st.staging[u] < |st.triggers| :: st.triggers[st.staging[u]].spore
  }

  /** A refusal that has nothing to do with the deadline. */
  predicate Refusal(v: Verdict)
  {
    v != Ok && v != DeadlineExpired
  }

  /** Same clock and store, and at least the same spores staged. */
  ghost predicate MoreStaged(st: State, st': State)
  {
    && st'.store == st.store && st'.now == st.now
    && StagedSpores(st) <= StagedSpores(st')
    && st.triggers <= st'.triggers
  }

  lemma ConflictLasts(st: State, st': State, s: Spore)
    requires StagedSpores(st) <= StagedSpores(st') && ConflictsWithStaging(st, s)
    ensures ConflictsWithStaging(st', s)
  {
    var u :| u in st.staging && st.staging[u] < |st.triggers| &&
             SporesConflict(s, st.triggers[st.staging[u]].spore);
    var other := st.triggers[st.staging[u]].spore;
    assert other in StagedSpores(st');
    var v :| v in st'.staging && st'.staging[v] < |st'.triggers| && st'.triggers[st'.staging[v]].spore == other;
  }

  lemma RefusalLasts(cfg: Config, st: State, st': State, s: Spore, missingFirst: bool)
    requires MoreStaged(st, st') && Refusal(CanEndorse(cfg, st, s, missingFirst))
    ensures Refusal(CanEndorse(cfg, st', s, missingFirst))
  {
    if ConflictsWithStaging(st, s) {
      ConflictLasts(st, st', s);
    }
  }

  /** A uuid determines its spore. */
  ghost predicate Catalogued(st: State, catalog: string -> Spore)
  {
    forall r :: 0 <= r < |st.triggers| ==> st.triggers[r].spore == catalog(st.triggers[r].spore.uuid)
  }

  /** Promotion puts every spore in staging: the ring is unlocked and quorums are at least two. */
  ghost predicate AllStage(cfg: Config)
  {
    forall s: Spore :: s.policy in cfg.policies ==>
      cfg.policies[s.policy].quorum >= 2 && cfg.ring.sign(s).Some?
  }

  lemma StageGrows(catalog: string -> Spore, st: State, s: Spore, es: seq<Endorsement>, bypass: bool)
    requires WellFormed(st) && Catalogued(st, catalog) && s == catalog(s.uuid)
    ensures var st' := Stage(st, s, es, bypass);
            MoreStaged(st, st') && WellFormed(st') && Catalogued(st', catalog)
  {
    var st' := Stage(st, s, es, bypass);
    forall u ensures RefersTo(st', st'.staging, u) && RefersTo(st', st'.waiting, u) {
      assert RefersTo(st, st.staging, u) && RefersTo(st, st.waiting, u);
    }
    forall x | x in StagedSpores(st) ensures x in StagedSpores(st') {
      var u :| u in st.staging && st.staging[u] < |st.triggers| && st.triggers[st.staging[u]].spore == x;
      assert RefersTo(st, st.staging, u);
      assert st'.triggers[st'.staging[u]].spore == x;
    }
  }

  lemma PromoteStages(cfg: Config, catalog: string -> Spore, st: State, s: Spore, bypass: bool)
    requires AllStage(cfg) && s.policy in cfg.policies
    requires WellFormed(st) && Catalogued(st, catalog) && s == catalog(s.uuid)
    ensures var st' := Promote(cfg, st, s, bypass);
            && MoreStaged(st, st') && st'.waiting == st.waiting
            && WellFormed(st') && Catalogued(st', catalog)
  {
    assert cfg.policies[s.policy].quorum >= 2 && cfg.ring.sign(s).Some?;
    assert PathOf(cfg, s).ToStaging?;
    var logged := Log(st, Promoted(s, bypass, Signs(cfg, s), true));
    forall u ensures RefersTo(logged, logged.staging, u) && RefersTo(logged, logged.waiting, u) {
      assert RefersTo(st, st.staging, u) && RefersTo(st, st.waiting, u);
    }
    assert StagedSpores(logged) == StagedSpores(st);
    StageGrows(catalog, logged, s, OwnEndorsements(cfg, s), bypass);
  }

  /** The node knows the policy of the spore and holds a value under each key it has a requirement on. */
  predicate Familiar(cfg: Config, store: Store, s: Spore)
  {
    s.policy in cfg.policies && s.requirements.Keys <= store.Keys
  }

  ghost predicate WaitingFamiliar(cfg: Config, st: State)
  {
    forall k :: k in st.waiting && st.waiting[k] < |st.triggers| ==>
      Familiar(cfg, st.store, st.triggers[st.waiting[k]].spore)
  }

  /** No requirement can then be missing, and the order in which they are met does not matter. */
  lemma OrderIrrelevant(cfg: Config, st: State, s: Spore, missingFirst: bool, missingFirst': bool)
    requires Familiar(cfg, st.store, s)
    ensures CanEndorse(cfg, st, s, missingFirst) == CanEndorse(cfg, st, s, missingFirst')
  {
    assert !AnyMissing(st.store, s);
  }

  ghost predicate StillRefused(cfg: Config, st: State, k: string, missingFirst: set<string>)
  {
    k in st.waiting && st.waiting[k] < |st.triggers| ==>
      Refusal(CanEndorse(cfg, st, st.triggers[st.waiting[k]].spore, k in missingFirst))
  }

  ghost predicate PassInvariant(cfg: Config, catalog: string -> Spore, st: State)
  {
    WellFormed(st) && Catalogued(st, catalog) && WaitingFamiliar(cfg, st)
  }

  lemma OneReconsidered(cfg: Config, catalog: string -> Spore, st: State, k: string, missingFirst: set<string>)
    requires AllStage(cfg) && PassInvariant(cfg, catalog, st)
    ensures var st' := Reconsider(cfg, st, k, missingFirst);
            && PassInvariant(cfg, catalog, st') && MoreStaged(st, st')
            && (forall j :: j in st'.waiting ==> j in st.waiting && st'.waiting[j] == st.waiting[j])
            && StillRefused(cfg, st', k, missingFirst)
  {
    assert RefersTo(st, st.waiting, k);
    if k in st.waiting {
      var s := st.triggers[st.waiting[k]].spore;
      var v := CanEndorse(cfg, st, s, k in missingFirst);
      if v == Ok {
        OnePromoted(cfg, catalog, st, k, s, Bypasses(st, s, k in missingFirst));
      } else if v == DeadlineExpired {
        SmallerWaiting(cfg, catalog, st, st.(waiting := st.waiting - {k}), st);
      }
    }
  }

  lemma OnePromoted(cfg: Config, catalog: string -> Spore, st: State, k: string, s: Spore, bypass: bool)
    requires AllStage(cfg) && PassInvariant(cfg, catalog, st) && s == catalog(s.uuid) && s.policy in cfg.policies
    ensures var mid := Promote(cfg, st, s, bypass);
            var st' := mid.(waiting := mid.waiting - {k});
            PassInvariant(cfg, catalog, st') && MoreStaged(st, st') && mid.waiting == st.waiting
  {
    PromoteStages(cfg, catalog, st, s, bypass);
    var mid := Promote(cfg, st, s, bypass);
    SmallerWaiting(cfg, catalog, mid, mid.(waiting := mid.waiting - {k}), st);
  }

  lemma SmallerWaiting(cfg: Config, catalog: string -> Spore, st: State, st': State, base: State)
    requires WellFormed(st) && Catalogued(st, catalog) && WaitingFamiliar(cfg, base)
    requires st.waiting == base.waiting && base.triggers <= st.triggers && WellFormed(base)
    requires st'.staging == st.staging && st'.triggers == st.triggers && st'.store == base.store
    requires forall j :: j in st'.waiting ==> j in st.waiting && st'.waiting[j] == st.waiting[j]
    ensures PassInvariant(cfg, catalog, st') && StagedSpores(st') == StagedSpores(st)
  {
    forall u ensures RefersTo(st', st'.staging, u) && RefersTo(st', st'.waiting, u) {
      assert RefersTo(st, st.staging, u) && RefersTo(st, st.waiting, u);
    }
    forall k | k in st'.waiting && st'.waiting[k] < |st'.triggers|
      ensures Familiar(cfg, st'.store, st'.triggers[st'.waiting[k]].spore)
    {
      assert RefersTo(base, base.waiting, k);
    }
  }

  lemma {:induction false} PassRefusesTheRest(cfg: Config, catalog: string -> Spore, st: State,
                                              order: seq<string>, missingFirst: set<string>)
    requires AllStage(cfg) && PassInvariant(cfg, catalog, st)
    ensures var st' := ReconsiderAll(cfg, st, order, missingFirst);
            && MoreStaged(st, st') && PassInvariant(cfg, catalog, st')
            && (forall j :: j in st'.waiting ==> j in st.waiting && st'.waiting[j] == st.waiting[j])
            && (forall k :: k in order ==> StillRefused(cfg, st', k, missingFirst))
    decreases |order|
  {
    if order != [] {
      var k := order[0];
      var mid := Reconsider(cfg, st, k, missingFirst);
      OneReconsidered(cfg, catalog, st, k, missingFirst);
      PassRefusesTheRest(cfg, catalog, mid, order[1..], missingFirst);
      var st' := ReconsiderAll(cfg, st, order, missingFirst);
      assert RefersTo(mid, mid.waiting, k);
      if k in st'.waiting {
        assert StillRefused(cfg, mid, k, missingFirst);
        RefusalLasts(cfg, mid, st', mid.triggers[mid.waiting[k]].spore, k in missingFirst);
      }
      forall j | j in order ensures StillRefused(cfg, st', j, missingFirst) {
        if j != k {
          assert j in order[1..];
        }
      }
    }
  }

  /**
   * A gc pass promotes as much as it can: with quorums of at least two and an unlocked ring,
   * every spore it leaves in `waiting` would be refused again, in whatever order its requirements
   * are looked at, and not because of its deadline.
   */
  lemma GcPassIsMaximal(cfg: Config, catalog: string -> Spore, st: State, uuid: string, order: seq<string>,
                        missingFirst: set<string>, k: string)
    requires AllStage(cfg) && PassInvariant(cfg, catalog, st)
    requires forall u :: u in st.waiting ==> u in order
    ensures var st' := Collect(cfg, st, uuid, order, missingFirst);
            k in st'.waiting ==>
              && st'.waiting[k] < |st'.triggers|
              && forall first :: Refusal(CanEndorse(cfg, st', st'.triggers[st'.waiting[k]].spore, first))
  {
    var mid := Unstage(st, uuid, Expired(uuid));
    forall u ensures RefersTo(mid, mid.staging, u) && RefersTo(mid, mid.waiting, u) {
      assert RefersTo(st, st.staging, u) && RefersTo(st, st.waiting, u);
    }
    PassRefusesTheRest(cfg, catalog, mid, order, missingFirst);
    var st' := Collect(cfg, st, uuid, order, missingFirst);
    assert RefersTo(st', st'.waiting, k);
    if k in st'.waiting {
      assert StillRefused(cfg, st', k, missingFirst);
      var s := st'.triggers[st'.waiting[k]].spore;
      forall first ensures Refusal(CanEndorse(cfg, st', s, first)) {
        OrderIrrelevant(cfg, st', s, first, k in missingFirst);
      }
    }
  }

  // ---------------------------------------------------------------- the same for reachable states

  /** Every spore received is the one its uuid stands for. */
  ghost predicate FromCatalog(catalog: string -> Spore, ls: seq<Label>)
  {
    forall i :: 0 <= i < |ls| && ls[i].Receive? ==> ls[i].spore == catalog(ls[i].spore.uuid)
  }

  /** Spores come from the catalogue and waiting ones are familiar. */
  ghost predicate Listed(cfg: Config, catalog: string -> Spore, st: State)
  {
    Catalogued(st, catalog) && WaitingFamiliar(cfg, st)
  }

  lemma NeutralKeepsListed(cfg: Config, catalog: string -> Spore, st: State, st': State)
    requires Listed(cfg, catalog, st) && NoMoreStaged(st, st') && |st'.triggers| == |st.triggers|
    requires st.store.Keys <= st'.store.Keys
    ensures Listed(cfg, catalog, st')
  {
  }

  lemma PromoteListed(cfg: Config, catalog: string -> Spore, st: State, s: Spore, bypass: bool)
    requires WellFormed(st) && Listed(cfg, catalog, st) && s == catalog(s.uuid)
    ensures Listed(cfg, catalog, Promote(cfg, st, s, bypass))
  {
    var path := PathOf(cfg, s);
    var logged := Log(st, Promoted(s, bypass, Signs(cfg, s), path.ToStaging?));
    if path.AtOnce? {
      ApplyIsNeutral(cfg, logged, s, bypass);
      NeutralKeepsListed(cfg, catalog, st, Promote(cfg, st, s, bypass));
    } else if path.ToStaging? {
      forall u ensures RefersTo(logged, logged.waiting, u) {
        assert RefersTo(st, st.waiting, u);
      }
      StageListed(cfg, catalog, logged, s, OwnEndorsements(cfg, s), bypass);
    }
  }

  lemma StageListed(cfg: Config, catalog: string -> Spore, st: State, s: Spore, es: seq<Endorsement>, bypass: bool)
    requires (forall u :: RefersTo(st, st.waiting, u)) && Listed(cfg, catalog, st) && s == catalog(s.uuid)
    ensures Listed(cfg, catalog, Stage(st, s, es, bypass))
  {
    var st' := Stage(st, s, es, bypass);
    forall k | k in st'.waiting && st'.waiting[k] < |st'.triggers|
      ensures Familiar(cfg, st'.store, st'.triggers[st'.waiting[k]].spore)
    {
      assert RefersTo(st, st.waiting, k);
    }
  }

  lemma PostponeListed(cfg: Config, catalog: string -> Spore, st: State, s: Spore)
    requires WellFormed(st) && Listed(cfg, catalog, st) && s == catalog(s.uuid) && Familiar(cfg, st.store, s)
    ensures Listed(cfg, catalog, Postpone(st, s))
  {
    var st' := Postpone(st, s);
    forall k | k in st'.waiting && st'.waiting[k] < |st'.triggers|
      ensures Familiar(cfg, st'.store, st'.triggers[st'.waiting[k]].spore)
    {
      assert RefersTo(st, st.waiting, k);
    }
  }

  lemma ReconsiderListed(cfg: Config, catalog: string -> Spore, st: State, k: string, missingFirst: set<string>)
    requires WellFormed(st) && Listed(cfg, catalog, st)
    ensures Listed(cfg, catalog, Reconsider(cfg, st, k, missingFirst))
  {
    if k in st.waiting && st.waiting[k] < |st.triggers| {
      var s := st.triggers[st.waiting[k]].spore;
      if CanEndorse(cfg, st, s, k in missingFirst) == Ok {
        PromoteListed(cfg, catalog, st, s, Bypasses(st, s, k in missingFirst));
      }
    }
  }

  lemma {:induction false} ReconsiderAllListed(cfg: Config, catalog: string -> Spore, st: State,
                                               order: seq<string>, missingFirst: set<string>)
    requires Invariant(st) && Listed(cfg, catalog, st)
    ensures Listed(cfg, catalog, ReconsiderAll(cfg, st, order, missingFirst))
    decreases |order|
  {
    if order != [] {
      ReconsiderListed(cfg, catalog, st, order[0], missingFirst);
      ReconsiderKeeps(cfg, st, order[0], missingFirst);
      ReconsiderAllListed(cfg, catalog, Reconsider(cfg, st, order[0], missingFirst), order[1..], missingFirst);
    }
  }

  /** A spore is postponed only once its requirements are met and its operations are checked. */
  lemma PostponedIsFamiliar(cfg: Config, st: State, s: Spore, missingFirst: bool)
    requires CanEndorse(cfg, st, s, missingFirst) == ConflictingWithStaging
    ensures Familiar(cfg, st.store, s)
  {
    assert !AnyMissing(st.store, s);
  }

  lemma EndorseListed(cfg: Config, catalog: string -> Spore, st: State, s: Spore, missingFirst: bool)
    requires WellFormed(st) && Listed(cfg, catalog, st) && s == catalog(s.uuid)
    ensures Listed(cfg, catalog, Endorse(cfg, st, s, missingFirst))
  {
    if Signed(cfg, s) {
      var v := CanEndorse(cfg, st, s, missingFirst);
      if v == Ok {
        PromoteListed(cfg, catalog, st, s, Bypasses(st, s, missingFirst));
      } else if v == ConflictingWithStaging {
        PostponedIsFamiliar(cfg, st, s, missingFirst);
        PostponeListed(cfg, catalog, st, s);
      }
    }
  }

  lemma CollectListed(cfg: Config, catalog: string -> Spore, st: State, uuid: string, order: seq<string>,
                      missingFirst: set<string>)
    requires Invariant(st) && Listed(cfg, catalog, st)
    ensures Listed(cfg, catalog, Collect(cfg, st, uuid, order, missingFirst))
  {
    var mid := Unstage(st, uuid, Expired(uuid));
    UnstageIsNeutral(st, uuid, Expired(uuid));
    NoMoreStagedKeeps(st, mid);
    NeutralKeepsListed(cfg, catalog, st, mid);
    ReconsiderAllListed(cfg, catalog, mid, order, missingFirst);
  }

  lemma RunPendingListed(cfg: Config, catalog: string -> Spore, st: State, ref: nat)
    requires Listed(cfg, catalog, st)
    ensures Listed(cfg, catalog, RunPending(cfg, st, ref))
  {
    RunPendingIsNeutral(cfg, st, ref);
    NeutralKeepsListed(cfg, catalog, st, RunPending(cfg, st, ref));
  }

  lemma StepListed(cfg: Config, catalog: string -> Spore, st: State, l: Label)
    requires Invariant(st) && Listed(cfg, catalog, st)
    requires l.Receive? ==> l.spore == catalog(l.spore.uuid)
    ensures Listed(cfg, catalog, Step(cfg, st, l))
  {
    var st' := Step(cfg, st, l);
    match l {
      case Receive(s, missingFirst) => EndorseListed(cfg, catalog, st, s, missingFirst);
      case Timer(uuid, order, missingFirsts) => CollectListed(cfg, catalog, st, uuid, order, missingFirsts);
      case Spawned(ref) => RunPendingListed(cfg, catalog, st, ref);
      case FirstRegion(e) =>
        RegisterIsNeutral(cfg, st, e);
        NeutralKeepsListed(cfg, catalog, st, Register(cfg, st, e));
      case SecondRegion(ref) =>
        CommitIsNeutral(cfg, st, ref);
        NeutralKeepsListed(cfg, catalog, st, Commit(cfg, st, ref));
      case Tick(_) =>
      case Sweeping(_) =>
    }
  }

  lemma {:induction false} EveryRunIsListed(cfg: Config, catalog: string -> Spore, now: int, ls: seq<Label>)
    requires FromCatalog(catalog, ls)
    ensures Listed(cfg, catalog, RunLabels(cfg, Initial(now), ls))
    decreases |ls|
  {
    if ls != [] {
      var before := ls[..|ls| - 1];
      EveryRunIsListed(cfg, catalog, now, before);
      EveryRunStaysApart(cfg, now, before);
      StepListed(cfg, catalog, RunLabels(cfg, Initial(now), before), ls[|ls| - 1]);
    }
  }

  /** A gc pass at the end of any run leaves in `waiting` only spores that would be refused again. */
  lemma EveryGcPassIsMaximal(cfg: Config, catalog: string -> Spore, now: int, ls: seq<Label>, uuid: string,
                             order: seq<string>, missingFirst: set<string>, k: string)
    requires AllStage(cfg) && FromCatalog(catalog, ls)
    requires forall u :: u in RunLabels(cfg, Initial(now), ls).waiting ==> u in order
    ensures var st' := Collect(cfg, RunLabels(cfg, Initial(now), ls), uuid, order, missingFirst);
            k in st'.waiting ==>
              && st'.waiting[k] < |st'.triggers|
              && forall first :: Refusal(CanEndorse(cfg, st', st'.triggers[st'.waiting[k]].spore, first))
  {
    EveryRunStaysApart(cfg, now, ls);
    EveryRunIsListed(cfg, catalog, now, ls);
    GcPassIsMaximal(cfg, catalog, RunLabels(cfg, Initial(now), ls), uuid, order, missingFirst, k);
  }
}
