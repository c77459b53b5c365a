/**
 * No spore is applied twice: the duplicate check of Apply, the grace period and the cleaning
 * of `applied` (db/db.go, db/spore.go) over every interleaved run with a monotone clock.
 */
module AtMostOnce {
  import opened Prelude
  import opened Values
  import opened Operations
  import opened Execution
  import opened Node
  import Staging

  /** `s` was applied and cannot be applied again: remembered, or past its grace period. */
  ghost predicate Covered(cfg: Config, st: State, s: Spore)
  {
    && s.policy in cfg.policies
    && var death := Death(cfg.policies[s.policy], s);
       || (s.uuid in st.applied && st.applied[s.uuid] == death)
       || (s.deadline.Some? && death < st.now)
  }

  ghost predicate AllCovered(cfg: Config, st: State)
  {
    forall i :: 0 <= i < |st.writes| ==> Covered(cfg, st, st.writes[i].spore)
  }

  /** No two applications are of the same uuid. */
  ghost predicate WrittenOnce(st: State)
  {
    forall i, j :: 0 <= i < j < |st.writes| ==> st.writes[i].spore.uuid != st.writes[j].spore.uuid
  }

  /** Applications and triggers are of the spores their uuids stand for. */
  ghost predicate Known(catalog: string -> Spore, st: State)
  {
    && Staging.Catalogued(st, catalog)
    && (forall i :: 0 <= i < |st.writes| ==> st.writes[i].spore == catalog(st.writes[i].spore.uuid))
  }

  /** An application of `u` with the given end of its grace period. */
  ghost predicate WrittenAs(cfg: Config, writes: seq<Application>, u: string, death: int)
  {
    exists i :: 0 <= i < |writes| && writes[i].spore.uuid == u && writes[i].spore.policy in cfg.policies &&
                death == Death(cfg.policies[writes[i].spore.policy], writes[i].spore)
  }

  lemma WrittenForEver(cfg: Config, writes: seq<Application>, w: Application, u: string, death: int)
    requires WrittenAs(cfg, writes, u, death)
    ensures WrittenAs(cfg, writes + [w], u, death)
  {
    var i :| 0 <= i < |writes| && writes[i].spore.uuid == u && writes[i].spore.policy in cfg.policies &&
             death == Death(cfg.policies[writes[i].spore.policy], writes[i].spore);
    assert (writes + [w])[i] == writes[i];
  }

  /** Every remembered uuid was applied, and is remembered with its own grace period. */
  ghost predicate Honest(cfg: Config, st: State)
  {
    forall u :: u in st.applied ==> WrittenAs(cfg, st.writes, u, st.applied[u])
  }

  ghost predicate Once(cfg: Config, catalog: string -> Spore, st: State)
  {
    AllCovered(cfg, st) && WrittenOnce(st) && Known(catalog, st) && Honest(cfg, st)
  }

  // ---------------------------------------------------------------- the step that writes

  lemma ApplyIsNew(cfg: Config, catalog: string -> Spore, st: State, s: Spore)
    requires Once(cfg, catalog, st) && s == catalog(s.uuid) && ApplyVerdict(cfg, st, s) == Applied
    ensures forall i :: 0 <= i < |st.writes| ==> st.writes[i].spore.uuid != s.uuid
  {
    forall i | 0 <= i < |st.writes| ensures st.writes[i].spore.uuid != s.uuid {
      assert Covered(cfg, st, st.writes[i].spore);
    }
  }

  lemma ApplyKeeps(cfg: Config, catalog: string -> Spore, st: State, s: Spore, bypass: bool)
    requires Once(cfg, catalog, st) && s == catalog(s.uuid)
    ensures Once(cfg, catalog, Apply(cfg, st, s, bypass))
  {
    var st' := Apply(cfg, st, s, bypass);
    if ApplyVerdict(cfg, st, s) == Applied {
      ApplyIsNew(cfg, catalog, st, s);
      ApplyCovers(cfg, st, s, bypass);
      ApplyRemembers(cfg, st, s, bypass);
      ApplyAddsOne(cfg, catalog, st, s, bypass);
    }
  }

  lemma ApplyAddsOne(cfg: Config, catalog: string -> Spore, st: State, s: Spore, bypass: bool)
    requires WrittenOnce(st) && Known(catalog, st) && s == catalog(s.uuid) && ApplyVerdict(cfg, st, s) == Applied
    requires forall i :: 0 <= i < |st.writes| ==> st.writes[i].spore.uuid != s.uuid
    ensures WrittenOnce(Apply(cfg, st, s, bypass)) && Known(catalog, Apply(cfg, st, s, bypass))
  {
    OneMoreWrite(catalog, st, Apply(cfg, st, s, bypass), Application(s, bypass));
  }

  lemma OneMoreWrite(catalog: string -> Spore, st: State, st': State, w: Application)
    requires WrittenOnce(st) && Known(catalog, st) && w.spore == catalog(w.spore.uuid)
    requires forall i :: 0 <= i < |st.writes| ==> st.writes[i].spore.uuid != w.spore.uuid
    requires st'.writes == st.writes + [w] && st'.triggers == st.triggers
    ensures WrittenOnce(st') && Known(catalog, st')
  {
  }

  lemma ApplyCovers(cfg: Config, st: State, s: Spore, bypass: bool)
    requires AllCovered(cfg, st) && ApplyVerdict(cfg, st, s) == Applied
    requires forall i :: 0 <= i < |st.writes| ==> st.writes[i].spore.uuid != s.uuid
    ensures AllCovered(cfg, Apply(cfg, st, s, bypass))
  {
    var st' := Apply(cfg, st, s, bypass);
    var n := |st.writes|;
    assert st'.writes[n].spore == s;
    forall i | 0 <= i < n ensures Covered(cfg, st', st'.writes[i].spore) {
      assert Covered(cfg, st, st.writes[i].spore);
    }
  }

  lemma ApplyRemembers(cfg: Config, st: State, s: Spore, bypass: bool)
    requires Honest(cfg, st) && ApplyVerdict(cfg, st, s) == Applied
    ensures Honest(cfg, Apply(cfg, st, s, bypass))
  {
    var st' := Apply(cfg, st, s, bypass);
    assert st'.writes[|st.writes|].spore == s;
    forall u | u in st'.applied ensures WrittenAs(cfg, st'.writes, u, st'.applied[u]) {
      if u != s.uuid {
        WrittenForEver(cfg, st.writes, Application(s, bypass), u, st.applied[u]);
      }
    }
  }

  // ---------------------------------------------------------------- the steps that do not

  /** Same applications, same memory of them, no earlier clock, spores from the catalogue. */
  ghost predicate Quiet(st: State, st': State)
  {
    st'.writes == st.writes && st'.applied == st.applied && st.now <= st'.now
  }

  lemma QuietKeeps(cfg: Config, catalog: string -> Spore, st: State, st': State)
    requires Once(cfg, catalog, st) && Quiet(st, st') && Staging.Catalogued(st', catalog)
    ensures Once(cfg, catalog, st')
  {
    forall i | 0 <= i < |st'.writes| ensures Covered(cfg, st', st'.writes[i].spore) {
      assert Covered(cfg, st, st.writes[i].spore);
    }
  }

  lemma PromoteKeeps(cfg: Config, catalog: string -> Spore, st: State, s: Spore, bypass: bool)
    requires Once(cfg, catalog, st) && s == catalog(s.uuid)
    ensures Once(cfg, catalog, Promote(cfg, st, s, bypass))
  {
    var path := PathOf(cfg, s);
    var logged := Log(st, Promoted(s, bypass, Signs(cfg, s), path.ToStaging?));
    QuietKeeps(cfg, catalog, st, logged);
    if path.AtOnce? {
      ApplyKeeps(cfg, catalog, logged, s, bypass);
    } else if path.ToStaging? {
      QuietKeeps(cfg, catalog, logged, Stage(logged, s, OwnEndorsements(cfg, s), bypass));
    }
  }

  lemma EndorseKeeps(cfg: Config, catalog: string -> Spore, st: State, s: Spore, missingFirst: bool)
    requires Once(cfg, catalog, st) && s == catalog(s.uuid)
    ensures Once(cfg, catalog, Endorse(cfg, st, s, missingFirst))
  {
    if Signed(cfg, s) {
      var v := CanEndorse(cfg, st, s, missingFirst);
      if v == Ok {
        PromoteKeeps(cfg, catalog, st, s, Bypasses(st, s, missingFirst));
      } else if v == ConflictingWithStaging {
        QuietKeeps(cfg, catalog, st, Postpone(st, s));
      }
    }
  }

  lemma ReconsiderKeeps(cfg: Config, catalog: string -> Spore, st: State, k: string, missingFirst: set<string>)
    requires Once(cfg, catalog, st)
    ensures Once(cfg, catalog, Reconsider(cfg, st, k, missingFirst))
  {
    var st' := Reconsider(cfg, st, k, missingFirst);
    if k in st.waiting && st.waiting[k] < |st.triggers| {
      var s := st.triggers[st.waiting[k]].spore;
      var bypass := Bypasses(st, s, k in missingFirst);
      if CanEndorse(cfg, st, s, k in missingFirst) == Ok {
        PromoteKeeps(cfg, catalog, st, s, bypass);
        QuietKeeps(cfg, catalog, Promote(cfg, st, s, bypass), st');
      } else {
        QuietKeeps(cfg, catalog, st, st');
      }
    }
  }

  lemma {:induction false} ReconsiderAllKeeps(cfg: Config, catalog: string -> Spore, st: State,
                                              order: seq<string>, missingFirst: set<string>)
    requires Once(cfg, catalog, st)
    ensures Once(cfg, catalog, ReconsiderAll(cfg, st, order, missingFirst))
    decreases |order|
  {
    if order != [] {
      ReconsiderKeeps(cfg, catalog, st, order[0], missingFirst);
      ReconsiderAllKeeps(cfg, catalog, Reconsider(cfg, st, order[0], missingFirst), order[1..], missingFirst);
    }
  }

  /** A remembered spore whose death lies in the future: the guard of the deletion. */
  ghost predicate AnyAlive(st: State)
  {
    exists u :: u in st.applied && st.applied[u] > 0 && st.applied[u] > st.now
  }

  lemma CleanKeeps(cfg: Config, catalog: string -> Spore, st: State)
    requires Once(cfg, catalog, st)
    ensures Once(cfg, catalog, Clean(st, GraceOver))
  {
    var st' := Clean(st, GraceOver);
    forall i | 0 <= i < |st'.writes| ensures Covered(cfg, st', st'.writes[i].spore) {
      assert Covered(cfg, st, st.writes[i].spore);
    }
  }

  lemma RunPendingKeeps(cfg: Config, catalog: string -> Spore, st: State, ref: nat)
    requires Once(cfg, catalog, st)
    ensures Once(cfg, catalog, RunPending(cfg, st, ref))
  {
    if ref in st.pending && ref < |st.triggers| {
      var mid := st.(pending := st.pending - multiset{ref});
      QuietKeeps(cfg, catalog, st, mid);
      ApplyKeeps(cfg, catalog, mid, st.triggers[ref].spore, st.triggers[ref].bypass);
    }
  }

  lemma CommitKeeps(cfg: Config, catalog: string -> Spore, st: State, ref: nat)
    requires Once(cfg, catalog, st)
    ensures Once(cfg, catalog, Commit(cfg, st, ref))
  {
    CommitIsQuiet(cfg, st, ref);
    QuietKeeps(cfg, catalog, st, Commit(cfg, st, ref));
  }

  lemma CommitIsQuiet(cfg: Config, st: State, ref: nat)
    ensures Quiet(st, Commit(cfg, st, ref)) && Commit(cfg, st, ref).triggers == st.triggers
  {
  }

  lemma RegisterKeeps(cfg: Config, catalog: string -> Spore, st: State, e: Endorsement)
    requires Once(cfg, catalog, st)
    ensures Once(cfg, catalog, Register(cfg, st, e))
  {
    Staging.RegisterIsNeutral(cfg, st, e);
    QuietKeeps(cfg, catalog, st, Register(cfg, st, e));
  }

  lemma CollectKeeps(cfg: Config, catalog: string -> Spore, st: State, uuid: string, order: seq<string>,
                     missingFirst: set<string>)
    requires Once(cfg, catalog, st)
    ensures Once(cfg, catalog, Collect(cfg, st, uuid, order, missingFirst))
  {
    var mid := Unstage(st, uuid, Expired(uuid));
    QuietKeeps(cfg, catalog, st, mid);
    ReconsiderAllKeeps(cfg, catalog, mid, order, missingFirst);
  }

  lemma StepKeeps(cfg: Config, catalog: string -> Spore, st: State, l: Label)
    requires Once(cfg, catalog, st)
    requires l.Receive? ==> l.spore == catalog(l.spore.uuid)
    requires l.Sweeping? && l.sweep.AsWritten? ==> !AnyAlive(st)
    ensures Once(cfg, catalog, Step(cfg, st, l))
  {
    match l {
      case Receive(s, missingFirst) => EndorseKeeps(cfg, catalog, st, s, missingFirst);
      case Timer(uuid, order, missingFirsts) => CollectKeeps(cfg, catalog, st, uuid, order, missingFirsts);
      case Spawned(ref) => RunPendingKeeps(cfg, catalog, st, ref);
      case FirstRegion(e) => RegisterKeeps(cfg, catalog, st, e);
      case SecondRegion(ref) => CommitKeeps(cfg, catalog, st, ref);
      case Tick(_) => QuietKeeps(cfg, catalog, st, Step(cfg, st, l));
      case Sweeping(sweep) =>
        if sweep.GraceOver? {
          CleanKeeps(cfg, catalog, st);
        } else {
          CleanNothing(st);
        }
    }
  }

  /** With nothing alive the comparison as written deletes nothing. */
  lemma CleanNothing(st: State)
    requires !AnyAlive(st)
    ensures Clean(st, AsWritten) == st
  {
    assert Clean(st, AsWritten).applied == st.applied;
  }

  /** No sweep with the comparison as written happens while a remembered spore is alive. */
  ghost predicate HarmlessSweeps(cfg: Config, now: int, ls: seq<Label>)
  {
    forall i :: 0 <= i < |ls| && ls[i].Sweeping? && ls[i].sweep.AsWritten? ==>
      !AnyAlive(RunLabels(cfg, Initial(now), ls[..i]))
  }

  /**
   * At most once.  Whatever the interleaving of the lock regions, spawned applications,
   * promotions and restagings, no uuid is written twice, provided cleaning forgets only spores
   * whose grace period is over; the comparison as written may run only when it has nothing to
   * delete.
   */
  lemma {:induction false} EveryRunWritesOnce(cfg: Config, catalog: string -> Spore, now: int, ls: seq<Label>)
    requires Staging.FromCatalog(catalog, ls) && HarmlessSweeps(cfg, now, ls)
    ensures Once(cfg, catalog, RunLabels(cfg, Initial(now), ls))
    decreases |ls|
  {
    if ls != [] {
      var before := ls[..|ls| - 1];
      forall i | 0 <= i < |before| && before[i].Sweeping? && before[i].sweep.AsWritten?
        ensures !AnyAlive(RunLabels(cfg, Initial(now), before[..i]))
      {
        assert before[..i] == ls[..i];
      }
      EveryRunWritesOnce(cfg, catalog, now, before);
      StepKeeps(cfg, catalog, RunLabels(cfg, Initial(now), ls[..|ls| - 1]), ls[|ls| - 1]);
    }
  }

  // ---------------------------------------------------------------- cleaning as written

  /** An applied spore that passes the duplicate and grace-period checks once more. */
  ghost predicate Reappliable(cfg: Config, st: State, s: Spore)
  {
    && (exists i :: 0 <= i < |st.writes| && st.writes[i].spore == s)
    && s.policy in cfg.policies
    && s.uuid !in st.applied
    && WithinGrace(cfg.policies[s.policy], s, st.now)
  }

  /**
   * Cleaning with the comparison as written lets an applied spore be applied again if and
   * only if it deletes anything at all.
   */
  lemma CleanAsWrittenIff(cfg: Config, catalog: string -> Spore, st: State)
    requires Once(cfg, catalog, st)
    ensures (exists s :: Reappliable(cfg, Clean(st, AsWritten), s)) <==> AnyAlive(st)
    ensures !AnyAlive(st) ==> Clean(st, AsWritten) == st
  {
    var st' := Clean(st, AsWritten);
    if AnyAlive(st) {
      var u :| u in st.applied && st.applied[u] > 0 && st.applied[u] > st.now;
      assert WrittenAs(cfg, st.writes, u, st.applied[u]);
      var i :| 0 <= i < |st.writes| && st.writes[i].spore.uuid == u && st.writes[i].spore.policy in cfg.policies &&
               st.applied[u] == Death(cfg.policies[st.writes[i].spore.policy], st.writes[i].spore);
      assert Reappliable(cfg, st', st.writes[i].spore);
    } else {
      CleanNothing(st);
      forall s ensures !Reappliable(cfg, st', s) {
        if exists i :: 0 <= i < |st.writes| && st.writes[i].spore == s {
          var i :| 0 <= i < |st.writes| && st.writes[i].spore == s;
          assert Covered(cfg, st, st.writes[i].spore);
        }
      }
    }
  }

  /** A policy without quorum, quota or size limit that allows everything. */
  ghost predicate Open(cfg: Config, policy: string)
  {
    && policy in cfg.policies
    && var p := cfg.policies[policy];
       && p.quorum == 0 && p.maxOpSize == 0 && p.maxSize == 0
       && |p.specs| == 1 && p.specs[0].allowed == [] && (forall k :: SpecMatches(p, 0, k))
  }

  lemma OpenChecks(cfg: Config, s: Spore, raw: Bytes)
    requires Open(cfg, s.policy) && |s.operations| == 1 && !Internal(s.operations[0].key)
    ensures Check(cfg, s.policy, s.operations[0], raw) == Ok
  {
    var p := cfg.policies[s.policy];
    assert SpecMatches(p, 0, s.operations[0].key) && Allows(p.specs[0], s.operations[0].op);
  }

  /** A single SET under an open policy is applied as soon as it is received. */
  lemma OpenSetIsApplied(cfg: Config, st: State, s: Spore, k: string, d: Slice)
    requires Open(cfg, s.policy) && Signed(cfg, s)
    requires s.operations == [Operation(k, SET, d)] && !Internal(k) && s.requirements == map[]
    requires s.deadline.Some? && s.deadline.value >= st.now && WithinGrace(cfg.policies[s.policy], s, st.now)
    requires s.uuid !in st.applied && RecordedUsage(cfg, st.store, s.policy).Some?
    requires !ConflictsWithStaging(st, s)
    ensures var st' := Endorse(cfg, st, s, false);
            && st'.writes == st.writes + [Application(s, false)]
            && st'.applied == st.applied[s.uuid := Death(cfg.policies[s.policy], s)]
            && st'.staging == st.staging && st'.now == st.now && st'.triggers == st.triggers
            && st'.store == st.store + Batch(cfg, st.store, s.policy, map[k := NewValue(d)])
  {
    OpenChecks(cfg, s, d);
    var values: ValueMap := map[k := NewValue(d)];
    assert s.operations[1..] == [];
    assert DryRun(cfg, st.store, s.policy, s.operations, map[]) == Passed(values);
    assert RunOps(cfg.arith, st.store, s.operations, map[]) == Finished(values);
    assert CheckUsage(cfg, st.store, s.policy, values) == Ok;
    assert CanEndorse(cfg, st, s, false) == Ok;
    assert PathOf(cfg, s) == AtOnce;
  }

  lemma UsageStaysReadable(cfg: Config, store: Store, policy: string, k: string, d: Slice)
    requires Lawful(cfg.arith) && !Internal(k) && RecordedUsage(cfg, store, policy).Some?
    ensures RecordedUsage(cfg, store + Batch(cfg, store, policy, map[k := NewValue(d)]), policy).Some?
  {
    var values: ValueMap := map[k := NewValue(d)];
    var entry := UsageEntry(cfg, store, policy, values);
    assert Internal(UsageKey(policy));
    assert UsageKey(policy) != k;
    assert Load(store + Batch(cfg, store, policy, values), UsageKey(policy)) == entry.data;
    var usage := RecordedUsage(cfg, store, policy).value;
    var u := cfg.ofUint(Wrapped(usage, StoredSize(store, values.Keys), ValuesSize(values)));
    Rendered(cfg.arith, u);
  }

  /**
   * The short run that applies a spore twice: receive it, let Clean run while its deadline is
   * still ahead, receive it again.
   */
  lemma CleanAsWrittenAppliesTwice(cfg: Config, s: Spore, k: string, d: Slice, now: int)
    requires Open(cfg, s.policy) && Signed(cfg, s) && Lawful(cfg.arith)
    requires s.operations == [Operation(k, SET, d)] && !Internal(k) && s.requirements == map[]
    requires s.deadline == Some(now + 1) && 0 <= now && cfg.policies[s.policy].grace == None
    ensures RunLabels(cfg, Initial(now), [Receive(s, false), Sweeping(AsWritten), Receive(s, false)]).writes
            == [Application(s, false), Application(s, false)]
  {
    FirstTime(cfg, Initial(now), s, k, d, now);
    SecondTime(cfg, Endorse(cfg, Initial(now), s, false), s, k, d, now);
    ReceiveSweepReceive(cfg, Initial(now), s);
  }

  lemma ReceiveSweepReceive(cfg: Config, st: State, s: Spore)
    ensures RunLabels(cfg, st, [Receive(s, false), Sweeping(AsWritten), Receive(s, false)]) ==
            Endorse(cfg, Clean(Endorse(cfg, st, s, false), AsWritten), s, false)
  {
    var l1, l2 := Receive(s, false), Sweeping(AsWritten);
    RunThree(cfg, st, l1, l2, l1);
    assert Step(cfg, st, l1) == Endorse(cfg, st, s, false);
    var st1 := Step(cfg, st, l1);
    assert Step(cfg, st1, l2) == Clean(st1, AsWritten);
  }

  lemma FirstTime(cfg: Config, st: State, s: Spore, k: string, d: Slice, now: int)
    requires Open(cfg, s.policy) && Signed(cfg, s) && Lawful(cfg.arith)
    requires s.operations == [Operation(k, SET, d)] && !Internal(k) && s.requirements == map[]
    requires s.deadline == Some(now + 1) && cfg.policies[s.policy].grace == None
    requires st == Initial(now)
    ensures var st1 := Endorse(cfg, st, s, false);
            && st1.writes == [Application(s, false)] && st1.applied == map[s.uuid := now + 1]
            && st1.staging == map[] && st1.now == now
            && RecordedUsage(cfg, st1.store, s.policy).Some?
  {
    assert RecordedUsage(cfg, st.store, s.policy) == Some(cfg.toUint(cfg.arith.zero));
    OpenSetIsApplied(cfg, st, s, k, d);
    UsageStaysReadable(cfg, st.store, s.policy, k, d);
  }

  lemma SecondTime(cfg: Config, st: State, s: Spore, k: string, d: Slice, now: int)
    requires Open(cfg, s.policy) && Signed(cfg, s) && Lawful(cfg.arith)
    requires s.operations == [Operation(k, SET, d)] && !Internal(k) && s.requirements == map[]
    requires s.deadline == Some(now + 1) && 0 <= now && cfg.policies[s.policy].grace == None
    requires st.writes == [Application(s, false)] && st.applied == map[s.uuid := now + 1]
    requires st.staging == map[] && st.now == now && RecordedUsage(cfg, st.store, s.policy).Some?
    ensures Endorse(cfg, Clean(st, AsWritten), s, false).writes == [Application(s, false), Application(s, false)]
  {
    var st' := Clean(st, AsWritten);
    assert st'.applied == map[];
    OpenSetIsApplied(cfg, st', s, k, d);
  }
}
