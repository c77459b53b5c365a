/**
 * Where the spores of a node come from: everything it keeps or writes was signed by its emitter
 * and, unless a requirement mismatch let it in, allowed by its policy (db/endorsement.go,
 * db/policy.go).  The properties are written on the fields of the configuration, without the
 * predicates the state machine decides by.
 */
module Provenance {
  import opened Prelude
  import opened Values
  import opened Operations
  import opened Execution
  import opened Node
  import Staging

  // ---------------------------------------------------------------- a property of every spore kept

  /** A property of a spore, given whether it skipped the checks. */
  type Property = (Spore, bool) -> bool

  ghost predicate Everywhere(st: State, holds: Property)
  {
    && (forall r :: 0 <= r < |st.triggers| ==> holds(st.triggers[r].spore, st.triggers[r].bypass))
    && (forall i :: 0 <= i < |st.writes| ==> holds(st.writes[i].spore, st.writes[i].bypass))
  }

  /** A received spore that is kept has the property. */
  ghost predicate Entering(cfg: Config, holds: Property, st: State, s: Spore, missingFirst: bool)
  {
    Signed(cfg, s) ==>
      && (CanEndorse(cfg, st, s, missingFirst) == Ok ==> holds(s, Bypasses(st, s, missingFirst)))
      && (CanEndorse(cfg, st, s, missingFirst) == ConflictingWithStaging ==> holds(s, false))
  }

  /** A spore promoted later still has it. */
  ghost predicate Returning(cfg: Config, holds: Property, st: State, s: Spore, missingFirst: bool)
  {
    (holds(s, false) || holds(s, true)) && CanEndorse(cfg, st, s, missingFirst) == Ok ==>
      holds(s, Bypasses(st, s, missingFirst))
  }

  ghost predicate Guarded(cfg: Config, holds: Property)
  {
    && (forall st, s, missingFirst :: Entering(cfg, holds, st, s, missingFirst))
    && (forall st, s, missingFirst :: Returning(cfg, holds, st, s, missingFirst))
  }

  lemma ApplyEverywhere(cfg: Config, holds: Property, st: State, s: Spore, bypass: bool)
    requires Everywhere(st, holds) && holds(s, bypass)
    ensures Everywhere(Apply(cfg, st, s, bypass), holds)
  {
  }

  lemma AppendEverywhere(holds: Property, st: State, st': State, t: Trigger)
    requires Everywhere(st, holds) && holds(t.spore, t.bypass)
    requires st'.triggers == st.triggers + [t] && st'.writes == st.writes
    ensures Everywhere(st', holds)
  {
  }

  lemma PromoteEverywhere(cfg: Config, holds: Property, st: State, s: Spore, bypass: bool)
    requires Everywhere(st, holds) && holds(s, bypass)
    ensures Everywhere(Promote(cfg, st, s, bypass), holds)
  {
    var path := PathOf(cfg, s);
    var logged := Log(st, Promoted(s, bypass, Signs(cfg, s), path.ToStaging?));
    if path.AtOnce? {
      ApplyEverywhere(cfg, holds, logged, s, bypass);
    } else if path.ToStaging? {
      AppendEverywhere(holds, logged, Promote(cfg, st, s, bypass), Trigger(s, OwnEndorsements(cfg, s), bypass));
    }
  }

  lemma EndorseEverywhere(cfg: Config, holds: Property, st: State, s: Spore, missingFirst: bool)
    requires Guarded(cfg, holds) && Everywhere(st, holds)
    ensures Everywhere(Endorse(cfg, st, s, missingFirst), holds)
  {
    assert Entering(cfg, holds, st, s, missingFirst);
    if Signed(cfg, s) {
      var v := CanEndorse(cfg, st, s, missingFirst);
      if v == Ok {
        PromoteEverywhere(cfg, holds, st, s, Bypasses(st, s, missingFirst));
      } else if v == ConflictingWithStaging {
        AppendEverywhere(holds, st, Postpone(st, s), Trigger(s, [], false));
      }
    }
  }

  lemma ReconsiderEverywhere(cfg: Config, holds: Property, st: State, k: string, missingFirst: set<string>)
    requires Guarded(cfg, holds) && Everywhere(st, holds)
    ensures Everywhere(Reconsider(cfg, st, k, missingFirst), holds)
  {
    if k in st.waiting && st.waiting[k] < |st.triggers| {
      var t := st.triggers[st.waiting[k]];
      assert holds(t.spore, t.bypass);
      assert Returning(cfg, holds, st, t.spore, k in missingFirst);
      if CanEndorse(cfg, st, t.spore, k in missingFirst) == Ok {
        PromoteEverywhere(cfg, holds, st, t.spore, Bypasses(st, t.spore, k in missingFirst));
      }
    }
  }

  lemma {:induction false} ReconsiderAllEverywhere(cfg: Config, holds: Property, st: State, order: seq<string>,
                                                   missingFirst: set<string>)
    requires Guarded(cfg, holds) && Everywhere(st, holds)
    ensures Everywhere(ReconsiderAll(cfg, st, order, missingFirst), holds)
    decreases |order|
  {
    if order != [] {
      ReconsiderEverywhere(cfg, holds, st, order[0], missingFirst);
      ReconsiderAllEverywhere(cfg, holds, Reconsider(cfg, st, order[0], missingFirst), order[1..], missingFirst);
    }
  }

  lemma RegisterEverywhere(cfg: Config, holds: Property, st: State, e: Endorsement)
    requires Everywhere(st, holds)
    ensures Everywhere(Register(cfg, st, e), holds)
  {
    Staging.RegisterIsNeutral(cfg, st, e);
    var st' := Register(cfg, st, e);
    forall r | 0 <= r < |st'.triggers| ensures holds(st'.triggers[r].spore, st'.triggers[r].bypass) {
      assert holds(st.triggers[r].spore, st.triggers[r].bypass);
    }
  }

  lemma StepEverywhere(cfg: Config, holds: Property, st: State, l: Label)
    requires Guarded(cfg, holds) && Everywhere(st, holds)
    ensures Everywhere(Step(cfg, st, l), holds)
  {
    match l {
      case Receive(s, missingFirst) => EndorseEverywhere(cfg, holds, st, s, missingFirst);
      case Timer(uuid, order, missingFirsts) =>
        ReconsiderAllEverywhere(cfg, holds, Unstage(st, uuid, Expired(uuid)), order, missingFirsts);
      case Spawned(ref) =>
        if ref in st.pending && ref < |st.triggers| {
          var t := st.triggers[ref];
          ApplyEverywhere(cfg, holds, st.(pending := st.pending - multiset{ref}), t.spore, t.bypass);
        }
      case FirstRegion(e) => RegisterEverywhere(cfg, holds, st, e);
      case SecondRegion(ref) => assert Commit(cfg, st, ref).triggers == st.triggers;
      case Tick(_) =>
      case Sweeping(_) =>
    }
  }

  lemma {:induction false} EveryRunKeeps(cfg: Config, holds: Property, now: int, ls: seq<Label>)
    requires Guarded(cfg, holds)
    ensures Everywhere(RunLabels(cfg, Initial(now), ls), holds)
    decreases |ls|
  {
    if ls != [] {
      EveryRunKeeps(cfg, holds, now, ls[..|ls| - 1]);
      StepEverywhere(cfg, holds, RunLabels(cfg, Initial(now), ls[..|ls| - 1]), ls[|ls| - 1]);
    }
  }

  // ---------------------------------------------------------------- the emitter's signature

  /** The key ring vouches for the emitter's signature; the local node is known under the empty identity. */
  ghost predicate Emitted(cfg: Config, s: Spore)
  {
    cfg.ring.verify(if s.emitter == cfg.identity then "" else s.emitter, s.(signature := []), s.signature)
  }

  /** In every run, every spore kept in a trigger or written was signed by its emitter. */
  lemma EverySporeIsEmitted(cfg: Config, now: int, ls: seq<Label>)
    ensures var st := RunLabels(cfg, Initial(now), ls);
            && (forall r :: 0 <= r < |st.triggers| ==> Emitted(cfg, st.triggers[r].spore))
            && (forall i :: 0 <= i < |st.writes| ==> Emitted(cfg, st.writes[i].spore))
  {
    var holds: Property := (s: Spore, bypass: bool) => Emitted(cfg, s);
    forall st, s, missingFirst
      ensures Entering(cfg, holds, st, s, missingFirst) && Returning(cfg, holds, st, s, missingFirst)
    {
    }
    EveryRunKeeps(cfg, holds, now, ls);
    var st := RunLabels(cfg, Initial(now), ls);
    forall r | 0 <= r < |st.triggers| ensures Emitted(cfg, st.triggers[r].spore) {
      assert holds(st.triggers[r].spore, st.triggers[r].bypass);
    }
    forall i | 0 <= i < |st.writes| ensures Emitted(cfg, st.writes[i].spore) {
      assert holds(st.writes[i].spore, st.writes[i].bypass);
    }
  }

  /** Receiving a forged spore is an error and changes nothing; any other one is looked at. */
  lemma ForgedIsRefused(cfg: Config, st: State, s: Spore, missingFirst: bool)
    ensures !Emitted(cfg, s) ==> Step(cfg, st, Receive(s, missingFirst)) == st
    ensures EndorseError(cfg, st, s, missingFirst) == BadSignature <==> !Emitted(cfg, s)
  {
    assert CanEndorse(cfg, st, s, missingFirst) != BadSignature by {
      NoBadSignature(cfg, st, s, missingFirst);
    }
  }

  lemma NoBadSignature(cfg: Config, st: State, s: Spore, missingFirst: bool)
    ensures CanEndorse(cfg, st, s, missingFirst) != BadSignature
  {
    DryRunSignature(cfg, st.store, s.policy, s.operations, map[]);
  }

  lemma {:induction false} DryRunSignature(cfg: Config, store: Store, policy: string, ops: seq<Operation>,
                                           values: ValueMap)
    ensures DryRun(cfg, store, policy, ops, values) != Refused(BadSignature)
    decreases |ops|
  {
    if ops != [] {
      var o := ops[0];
      var v := Exec(cfg.arith, o.op, o.data, Current(store, values, o.key));
      if v.Done? {
        DryRunSignature(cfg, store, policy, ops[1..], values[o.key := v.value]);
      }
    }
  }

  // ---------------------------------------------------------------- what the policy allows

  /** Some specification of the policy is for the key, and every one that is allows the operation. */
  ghost predicate Permits(p: Policy, o: Operation)
  {
    && (exists i :: 0 <= i < |p.specs| && p.specs[i].matches(o.key))
    && (forall i :: 0 <= i < |p.specs| && p.specs[i].matches(o.key) ==>
          p.specs[i].allowed == [] || o.op in p.specs[i].allowed)
  }

  /** The spore's policy is known and permits all its operations, none of them on a reserved key. */
  ghost predicate Permitted(cfg: Config, s: Spore)
  {
    && s.policy in cfg.policies
    && forall i :: 0 <= i < |s.operations| ==>
         Permits(cfg.policies[s.policy], s.operations[i]) && !("__internal" <= s.operations[i].key)
  }

  lemma {:induction false} DryRunPermits(cfg: Config, store: Store, policy: string, ops: seq<Operation>,
                                         values: ValueMap)
    requires policy in cfg.policies && DryRun(cfg, store, policy, ops, values).Passed?
    ensures forall i :: 0 <= i < |ops| ==> Permits(cfg.policies[policy], ops[i]) && !("__internal" <= ops[i].key)
    decreases |ops|
  {
    if ops != [] {
      var o := ops[0];
      var v := Exec(cfg.arith, o.op, o.data, Current(store, values, o.key)).value;
      CheckPermits(cfg, policy, o, v.raw);
      DryRunPermits(cfg, store, policy, ops[1..], values[o.key := v]);
      forall i | 0 <= i < |ops| ensures Permits(cfg.policies[policy], ops[i]) && !("__internal" <= ops[i].key) {
        assert i > 0 ==> ops[i] == ops[1..][i - 1];
      }
    }
  }

  lemma CheckPermits(cfg: Config, policy: string, o: Operation, raw: Bytes)
    requires policy in cfg.policies && Check(cfg, policy, o, raw) == Ok
    ensures Permits(cfg.policies[policy], o) && !("__internal" <= o.key)
  {
    var p := cfg.policies[policy];
    var j: nat :| j < |p.specs| && SpecMatches(p, j, o.key);
    assert p.specs[j].matches(o.key);
    forall i: nat | i < |p.specs| && p.specs[i].matches(o.key)
      ensures p.specs[i].allowed == [] || o.op in p.specs[i].allowed
    {
      assert SpecMatches(p, i, o.key);
    }
  }

  lemma EndorsablePermits(cfg: Config, st: State, s: Spore, missingFirst: bool)
    requires var v := CanEndorse(cfg, st, s, missingFirst); v == Ok || v == ConflictingWithStaging
    ensures Permitted(cfg, s) || (Bypasses(st, s, missingFirst) && CanEndorse(cfg, st, s, missingFirst) == Ok)
  {
    if !Bypasses(st, s, missingFirst) {
      DryRunPermits(cfg, st.store, s.policy, s.operations, map[]);
    }
  }

  /**
   * In every run, every spore kept in a trigger or written is permitted by its policy, unless a
   * requirement mismatch let it skip the checks.
   */
  lemma EverySporeIsPermitted(cfg: Config, now: int, ls: seq<Label>)
    ensures var st := RunLabels(cfg, Initial(now), ls);
            && (forall r :: 0 <= r < |st.triggers| ==> st.triggers[r].bypass || Permitted(cfg, st.triggers[r].spore))
            && (forall i :: 0 <= i < |st.writes| ==> st.writes[i].bypass || Permitted(cfg, st.writes[i].spore))
  {
    var holds: Property := (s: Spore, bypass: bool) => bypass || Permitted(cfg, s);
    forall st, s, missingFirst
      ensures Entering(cfg, holds, st, s, missingFirst) && Returning(cfg, holds, st, s, missingFirst)
    {
      var v := CanEndorse(cfg, st, s, missingFirst);
      if v == Ok || v == ConflictingWithStaging {
        EndorsablePermits(cfg, st, s, missingFirst);
      }
    }
    EveryRunKeeps(cfg, holds, now, ls);
    var st := RunLabels(cfg, Initial(now), ls);
    forall r | 0 <= r < |st.triggers| ensures st.triggers[r].bypass || Permitted(cfg, st.triggers[r].spore) {
      assert holds(st.triggers[r].spore, st.triggers[r].bypass);
    }
    forall i | 0 <= i < |st.writes| ensures st.writes[i].bypass || Permitted(cfg, st.writes[i].spore) {
      assert holds(st.writes[i].spore, st.writes[i].bypass);
    }
  }
}
