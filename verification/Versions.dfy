/**
 * Versions and internal keys over runs that mix consensus and recovery: db/db.go,
 * db/policy.go, db/version/version.go and myc/recovery.go on one store.
 */
module Versions {
  import opened Prelude
  import opened Values
  import opened Operations
  import opened Execution
  import opened Node
  import Staging
  import AtMostOnce
  import Recovery

  /** Every value outside the internal keys carries its own hash. */
  ghost predicate Versioned(hash: Bytes -> Version, store: Store)
  {
    forall k :: k in store && !Internal(k) ==> store[k].version == hash(store[k].data)
  }

  /** The spore names no internal key. */
  ghost predicate NoInternal(s: Spore)
  {
    forall i :: 0 <= i < |s.operations| ==> !Internal(s.operations[i].key)
  }

  /** Spores name internal keys only if they were let in by a requirement mismatch. */
  ghost predicate Clear(st: State)
  {
    && (forall r :: 0 <= r < |st.triggers| ==> st.triggers[r].bypass || NoInternal(st.triggers[r].spore))
    && (forall i :: 0 <= i < |st.writes| ==> st.writes[i].bypass || NoInternal(st.writes[i].spore))
  }

  ghost predicate Neat(cfg: Config, st: State)
  {
    Versioned(cfg.hash, st.store) && Clear(st)
  }

  /** The dry run refuses internal keys. */
  lemma {:induction false} DryRunIsClear(cfg: Config, store: Store, policy: string, ops: seq<Operation>,
                                         values: ValueMap)
    requires DryRun(cfg, store, policy, ops, values).Passed?
    ensures forall i :: 0 <= i < |ops| ==> !Internal(ops[i].key)
    decreases |ops|
  {
    if ops != [] {
      var o := ops[0];
      var v := Exec(cfg.arith, o.op, o.data, Current(store, values, o.key)).value;
      assert Check(cfg, policy, o, v.raw) == Ok;
      DryRunIsClear(cfg, store, policy, ops[1..], values[o.key := v]);
      forall i | 0 <= i < |ops| ensures !Internal(ops[i].key) {
        assert i > 0 ==> ops[i] == ops[1..][i - 1];
      }
    }
  }

  /** What CanEndorse has looked at when it accepts a spore or sends it to `waiting`. */
  lemma CheckedIsClear(cfg: Config, st: State, s: Spore, missingFirst: bool)
    requires var v := CanEndorse(cfg, st, s, missingFirst); v == Ok || v == ConflictingWithStaging
    ensures Bypasses(st, s, missingFirst) || NoInternal(s)
    ensures CanEndorse(cfg, st, s, missingFirst) == ConflictingWithStaging ==> NoInternal(s)
  {
    if !Bypasses(st, s, missingFirst) {
      DryRunIsClear(cfg, st.store, s.policy, s.operations, map[]);
    }
  }

  /** A spore that names an internal key is let through if and only if a requirement does not match. */
  lemma InternalKeyIff(cfg: Config, st: State, s: Spore, missingFirst: bool)
    requires !NoInternal(s)
    ensures CanEndorse(cfg, st, s, missingFirst) == Ok <==> CheckDeadline(s, st.now) && Bypasses(st, s, missingFirst)
  {
    if CanEndorse(cfg, st, s, missingFirst) == Ok {
      CheckedIsClear(cfg, st, s, missingFirst);
    }
  }

  lemma BatchVersioned(cfg: Config, store: Store, policy: string, values: ValueMap)
    requires Versioned(cfg.hash, store) && RecordedUsage(cfg, store, policy).Some?
    ensures Versioned(cfg.hash, store + Batch(cfg, store, policy, values))
  {
    assert Internal(UsageKey(policy));
  }

  lemma ApplyNeat(cfg: Config, st: State, s: Spore, bypass: bool)
    requires Neat(cfg, st) && (bypass || NoInternal(s))
    ensures Neat(cfg, Apply(cfg, st, s, bypass))
  {
    if ApplyVerdict(cfg, st, s) == Applied {
      BatchVersioned(cfg, st.store, s.policy, RunOps(cfg.arith, st.store, s.operations, map[]).values);
    }
  }

  lemma SameNeat(cfg: Config, st: State, st': State)
    requires Neat(cfg, st) && st'.store == st.store && st'.writes == st.writes && st'.triggers == st.triggers
    ensures Neat(cfg, st')
  {
  }

  lemma AppendNeat(cfg: Config, st: State, st': State, t: Trigger)
    requires Neat(cfg, st) && st'.store == st.store && st'.writes == st.writes && st'.triggers == st.triggers + [t]
    requires t.bypass || NoInternal(t.spore)
    ensures Neat(cfg, st')
  {
  }

  lemma PromoteNeat(cfg: Config, st: State, s: Spore, bypass: bool)
    requires Neat(cfg, st) && (bypass || NoInternal(s))
    ensures Neat(cfg, Promote(cfg, st, s, bypass))
  {
    var path := PathOf(cfg, s);
    var logged := Log(st, Promoted(s, bypass, Signs(cfg, s), path.ToStaging?));
    SameNeat(cfg, st, logged);
    if path.AtOnce? {
      ApplyNeat(cfg, logged, s, bypass);
    } else if path.ToStaging? {
      AppendNeat(cfg, logged, Promote(cfg, st, s, bypass), Trigger(s, OwnEndorsements(cfg, s), bypass));
    }
  }

  lemma EndorseNeat(cfg: Config, st: State, s: Spore, missingFirst: bool)
    requires Neat(cfg, st)
    ensures Neat(cfg, Endorse(cfg, st, s, missingFirst))
  {
    if Signed(cfg, s) {
      var v := CanEndorse(cfg, st, s, missingFirst);
      if v == Ok {
        CheckedIsClear(cfg, st, s, missingFirst);
        PromoteNeat(cfg, st, s, Bypasses(st, s, missingFirst));
      } else if v == ConflictingWithStaging {
        CheckedIsClear(cfg, st, s, missingFirst);
        AppendNeat(cfg, st, Postpone(st, s), Trigger(s, [], false));
      }
    }
  }

  lemma ReconsiderNeat(cfg: Config, st: State, k: string, missingFirst: set<string>)
    requires Neat(cfg, st)
    ensures Neat(cfg, Reconsider(cfg, st, k, missingFirst))
  {
    var st' := Reconsider(cfg, st, k, missingFirst);
    if k in st.waiting && st.waiting[k] < |st.triggers| {
      var s := st.triggers[st.waiting[k]].spore;
      var bypass := Bypasses(st, s, k in missingFirst);
      if CanEndorse(cfg, st, s, k in missingFirst) == Ok {
        CheckedIsClear(cfg, st, s, k in missingFirst);
        PromoteNeat(cfg, st, s, bypass);
        SameNeat(cfg, Promote(cfg, st, s, bypass), st');
      } else {
        SameNeat(cfg, st, st');
      }
    }
  }

  lemma {:induction false} ReconsiderAllNeat(cfg: Config, st: State, order: seq<string>, missingFirst: set<string>)
    requires Neat(cfg, st)
    ensures Neat(cfg, ReconsiderAll(cfg, st, order, missingFirst))
    decreases |order|
  {
    if order != [] {
      ReconsiderNeat(cfg, st, order[0], missingFirst);
      ReconsiderAllNeat(cfg, Reconsider(cfg, st, order[0], missingFirst), order[1..], missingFirst);
    }
  }

  lemma CollectNeat(cfg: Config, st: State, uuid: string, order: seq<string>, missingFirst: set<string>)
    requires Neat(cfg, st)
    ensures Neat(cfg, Collect(cfg, st, uuid, order, missingFirst))
  {
    SameNeat(cfg, st, Unstage(st, uuid, Expired(uuid)));
    ReconsiderAllNeat(cfg, Unstage(st, uuid, Expired(uuid)), order, missingFirst);
  }

  lemma RegisterNeat(cfg: Config, st: State, e: Endorsement)
    requires Neat(cfg, st)
    ensures Neat(cfg, Register(cfg, st, e))
  {
    Staging.RegisterIsNeutral(cfg, st, e);
    assert |Register(cfg, st, e).triggers| == |st.triggers|;
  }

  lemma RunPendingNeat(cfg: Config, st: State, ref: nat)
    requires Neat(cfg, st)
    ensures Neat(cfg, RunPending(cfg, st, ref))
  {
    if ref in st.pending && ref < |st.triggers| {
      var mid := st.(pending := st.pending - multiset{ref});
      SameNeat(cfg, st, mid);
      ApplyNeat(cfg, mid, st.triggers[ref].spore, st.triggers[ref].bypass);
    }
  }

  lemma CommitNeat(cfg: Config, st: State, ref: nat)
    requires Neat(cfg, st)
    ensures Neat(cfg, Commit(cfg, st, ref))
  {
    AtMostOnce.CommitIsQuiet(cfg, st, ref);
    assert Commit(cfg, st, ref).store == st.store;
    SameNeat(cfg, st, Commit(cfg, st, ref));
  }

  lemma StepNeat(cfg: Config, st: State, l: Label)
    requires Neat(cfg, st)
    ensures Neat(cfg, Step(cfg, st, l))
  {
    match l {
      case Receive(s, missingFirst) => EndorseNeat(cfg, st, s, missingFirst);
      case Timer(uuid, order, missingFirsts) => CollectNeat(cfg, st, uuid, order, missingFirsts);
      case Spawned(ref) => RunPendingNeat(cfg, st, ref);
      case FirstRegion(e) => RegisterNeat(cfg, st, e);
      case SecondRegion(ref) => CommitNeat(cfg, st, ref);
      case Tick(_) => SameNeat(cfg, st, Step(cfg, st, l));
      case Sweeping(_) => SameNeat(cfg, st, Step(cfg, st, l));
    }
  }

  // ---------------------------------------------------------------- together with recovery

  /** A node and the recoveries it runs on the same store. */
  datatype Replica = Replica(node: State, recoveries: map<string, Recovery.Process>, decisions: seq<Recovery.Decision>)

  function Book(r: Replica): Recovery.Book
  {
    Recovery.Book(r.node.store, r.recoveries, r.decisions)
  }

  datatype MixedLabel = Consensus(action: Label) | Restore(answer: Recovery.Label)

  ghost function MixedStep(cfg: Config, env: Recovery.Env, r: Replica, l: MixedLabel): Replica
  {
    match l
    case Consensus(action) => r.(node := Step(cfg, r.node, action))
    case Restore(answer) =>
      var b := Recovery.Step(env, Book(r), answer);
      Replica(r.node.(store := b.store), b.recoveries, b.decisions)
  }

  ghost function MixedRun(cfg: Config, env: Recovery.Env, now: int, ls: seq<MixedLabel>): Replica
    decreases |ls|
  {
    if ls == [] then Replica(Initial(now), map[], [])
    else MixedStep(cfg, env, MixedRun(cfg, env, now, ls[..|ls| - 1]), ls[|ls| - 1])
  }

  ghost predicate PossibleMix(cfg: Config, env: Recovery.Env, now: int, ls: seq<MixedLabel>)
  {
    forall i :: 0 <= i < |ls| && ls[i].Restore? ==>
      Recovery.Possible(env, Book(MixedRun(cfg, env, now, ls[..i])), ls[i].answer)
  }

  /** A recovered value carries its own hash, except under an internal key. */
  lemma RestoreVersioned(env: Recovery.Env, b: Recovery.Book, l: Recovery.Label)
    requires Versioned(env.hash, b.store) && Recovery.Running(env, b) && Recovery.AllJustified(env, b)
    requires Recovery.Possible(env, b, l)
    ensures Versioned(env.hash, Recovery.Step(env, b, l).store)
  {
    if l.Answer? && Recovery.Admissible(env, b, l.peer, l.trusted, l.raw, l.at) {
      var answers := b.recoveries[l.raw.key].answers;
      var answers' := answers[l.peer := l.raw];
      assert Recovery.AllFiled(env, l.raw.key, answers);
      forall q | q in answers'
        ensures Recovery.Filed(env, l.raw.key, q, answers'[q])
      {
        assert q != l.peer ==> Recovery.Filed(env, l.raw.key, q, answers[q]);
      }
    }
  }

  ghost predicate ReplicaNeat(cfg: Config, env: Recovery.Env, r: Replica)
  {
    Neat(cfg, r.node) && Recovery.Running(env, Book(r)) && Recovery.AllJustified(env, Book(r))
  }

  lemma MixedStepNeat(cfg: Config, env: Recovery.Env, r: Replica, l: MixedLabel)
    requires ReplicaNeat(cfg, env, r) && env.hash == cfg.hash
    requires l.Restore? ==> Recovery.Possible(env, Book(r), l.answer)
    ensures ReplicaNeat(cfg, env, MixedStep(cfg, env, r, l))
  {
    match l {
      case Consensus(action) => StepNeat(cfg, r.node, action);
      case Restore(answer) =>
        RestoreVersioned(env, Book(r), answer);
        Recovery.StepKeeps(env, Book(r), answer);
        assert Book(MixedStep(cfg, env, r, l)) == Recovery.Step(env, Book(r), answer);
    }
  }

  /**
   * In every run mixing spores and recovery, each stored value outside the internal keys has
   * the hash of its data as version, and a written spore names an internal key only if it was
   * promoted by way of a requirement mismatch.
   */
  lemma {:induction false} EveryMixedRunIsNeat(cfg: Config, env: Recovery.Env, now: int, ls: seq<MixedLabel>)
    requires env.hash == cfg.hash && PossibleMix(cfg, env, now, ls)
    ensures ReplicaNeat(cfg, env, MixedRun(cfg, env, now, ls))
    decreases |ls|
  {
    if ls != [] {
      var before := ls[..|ls| - 1];
      forall i | 0 <= i < |before| && before[i].Restore?
        ensures Recovery.Possible(env, Book(MixedRun(cfg, env, now, before[..i])), before[i].answer)
      {
        assert before[..i] == ls[..i] && before[i] == ls[i];
      }
      EveryMixedRunIsNeat(cfg, env, now, before);
      MixedStepNeat(cfg, env, MixedRun(cfg, env, now, before), ls[|ls| - 1]);
    }
  }

  /** The same for runs without recovery. */
  lemma {:induction false} EveryRunIsNeat(cfg: Config, now: int, ls: seq<Label>)
    ensures Neat(cfg, RunLabels(cfg, Initial(now), ls))
    decreases |ls|
  {
    if ls != [] {
      EveryRunIsNeat(cfg, now, ls[..|ls| - 1]);
      StepNeat(cfg, RunLabels(cfg, Initial(now), ls[..|ls| - 1]), ls[|ls| - 1]);
    }
  }

  // ---------------------------------------------------------------- the way around the checks

  /** A spore with one requirement on a key stored with another version. */
  ghost predicate Outdated(st: State, s: Spore, k: string)
  {
    k in st.store && s.requirements.Keys == {k} && st.store[k].version != s.requirements[k]
  }

  lemma OutdatedPasses(cfg: Config, st: State, s: Spore, k: string)
    requires CheckDeadline(s, st.now) && Outdated(st, s, k)
    ensures CanEndorse(cfg, st, s, false) == Ok && Bypasses(st, s, false)
  {
    assert AnyMismatch(st.store, s);
    assert !AnyMissing(st.store, s);
  }

  /** Applying a single SET. */
  lemma OneSetApplied(cfg: Config, st: State, s: Spore, k: string, d: Slice, bypass: bool)
    requires s.policy in cfg.policies && WithinGrace(cfg.policies[s.policy], s, st.now) && s.uuid !in st.applied
    requires RecordedUsage(cfg, st.store, s.policy).Some? && s.operations == [Operation(k, SET, d)]
    ensures Apply(cfg, st, s, bypass).store == st.store + Batch(cfg, st.store, s.policy, map[k := NewValue(d)])
    ensures Apply(cfg, st, s, bypass).writes == st.writes + [Application(s, bypass)]
  {
    var values: ValueMap := map[k := NewValue(d)];
    assert s.operations[1..] == [];
    assert RunOps(cfg.arith, st.store, s.operations, map[]) == Finished(values);
  }

  /** A SET with an outdated requirement, about to be applied under a policy without quorum. */
  ghost predicate Skipping(cfg: Config, st: State, s: Spore, k: string, key: string, d: Slice)
  {
    && Signed(cfg, s) && s.deadline == Some(st.now) && Outdated(st, s, k)
    && s.policy in cfg.policies && cfg.policies[s.policy].quorum == 0 && cfg.policies[s.policy].grace == None
    && s.uuid !in st.applied && RecordedUsage(cfg, st.store, s.policy).Some?
    && s.operations == [Operation(key, SET, d)]
  }

  /**
   * A requirement mismatch skips every later check: under a policy without quorum such a
   * spore is applied whatever keys it names.
   */
  lemma MismatchSkipsTheChecks(cfg: Config, st: State, s: Spore, k: string, key: string, d: Slice)
    requires Skipping(cfg, st, s, k, key, d)
    ensures Bypasses(st, s, false)
    ensures var st' := Endorse(cfg, st, s, false);
            && key in st'.store && st'.store[key] == Entry(d, cfg.hash(d))
            && st'.store == st.store + Batch(cfg, st.store, s.policy, map[key := NewValue(d)])
            && st'.writes == st.writes + [Application(s, true)]
  {
    OutdatedPasses(cfg, st, s, k);
    assert PathOf(cfg, s) == AtOnce;
    OneSetApplied(cfg, Log(st, Promoted(s, true, Signs(cfg, s), false)), s, key, d, true);
  }
}
