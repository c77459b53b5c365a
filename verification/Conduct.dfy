/**
 * What each step of a node does, written out on the fields of its state and configuration: the
 * exact conditions of CanEndorse, Check, Apply, executeEndorsement and addEndorsementMap, without
 * the predicates the state machine is made of.
 */
module Conduct {
  import opened Prelude
  import opened Values
  import opened Operations
  import opened Execution
  import opened Node
  import opened Provenance

  // ---------------------------------------------------------------- Check

  ghost predicate Matched(p: Policy, k: string)
  {
    exists i :: 0 <= i < |p.specs| && p.specs[i].matches(k)
  }

  ghost predicate Forbidden(p: Policy, o: Operation)
  {
    exists i :: 0 <= i < |p.specs| && p.specs[i].matches(o.key) &&
                p.specs[i].allowed != [] && o.op !in p.specs[i].allowed
  }

  ghost predicate TooLarge(p: Policy, raw: Bytes)
  {
    p.maxOpSize > 0 && |raw| > p.maxOpSize
  }

  lemma SpecsAgree(p: Policy, o: Operation)
    ensures Matched(p, o.key) <==> exists i: nat :: i < |p.specs| && SpecMatches(p, i, o.key)
    ensures Forbidden(p, o) <==>
            exists i: nat :: i < |p.specs| && SpecMatches(p, i, o.key) && !Allows(p.specs[i], o.op)
  {
    if Matched(p, o.key) {
      var i :| 0 <= i < |p.specs| && p.specs[i].matches(o.key);
      assert SpecMatches(p, i, o.key);
    }
    if Forbidden(p, o) {
      var i :| 0 <= i < |p.specs| && p.specs[i].matches(o.key) && p.specs[i].allowed != [] &&
               o.op !in p.specs[i].allowed;
      assert SpecMatches(p, i, o.key) && !Allows(p.specs[i], o.op);
    }
  }

  /** The policy check accepts exactly the permitted operations of allowed size, and says what is wrong with others. */
  lemma CheckVerdicts(cfg: Config, policy: string, o: Operation, raw: Bytes)
    ensures policy !in cfg.policies ==> Check(cfg, policy, o, raw) == UnknownPolicy
    ensures policy in cfg.policies ==>
              var p, v := cfg.policies[policy], Check(cfg, policy, o, raw);
              && (v == OpSystemKey <==> "__internal" <= o.key)
              && (v == OpTooLarge <==> !("__internal" <= o.key) && TooLarge(p, raw))
              && (v == OpNotAllowed <==> !("__internal" <= o.key) && !TooLarge(p, raw) && Forbidden(p, o))
              && (v == OpDisabledKey <==> !("__internal" <= o.key) && !TooLarge(p, raw) && !Matched(p, o.key))
              && (v == Ok <==> !("__internal" <= o.key) && !TooLarge(p, raw) && Permits(p, o))
  {
    if policy in cfg.policies {
      SpecsAgree(cfg.policies[policy], o);
    }
  }

  // ---------------------------------------------------------------- CanEndorse

  predicate InTime(s: Spore, now: int)
  {
    s.deadline == None || now <= s.deadline.value
  }

  /** A requirement on a key the store does not hold. */
  ghost predicate Missing(store: Store, s: Spore)
  {
    exists k :: k in s.requirements && k !in store
  }

  /** A requirement on a key the store holds in another version. */
  ghost predicate Outdated(store: Store, s: Spore)
  {
    exists k :: k in s.requirements && k in store && store[k].version != s.requirements[k]
  }

  /** Operation `i` succeeds after those before it, is permitted, and leaves a value of allowed size. */
  ghost predicate GoodAt(cfg: Config, store: Store, policy: string, ops: seq<Operation>, values: ValueMap, i: int)
    requires 0 <= i < |ops| && policy in cfg.policies
  {
    var r := RunOps(cfg.arith, store, ops[..i + 1], values);
    && r.Finished? && ops[i].key in r.values
    && Permits(cfg.policies[policy], ops[i]) && !("__internal" <= ops[i].key)
    && !TooLarge(cfg.policies[policy], r.values[ops[i].key].raw)
  }

  ghost predicate AllGood(cfg: Config, store: Store, policy: string, ops: seq<Operation>, values: ValueMap)
    requires policy in cfg.policies
  {
    forall i :: 0 <= i < |ops| ==> GoodAt(cfg, store, policy, ops, values, i)
  }

  lemma GoodLater(cfg: Config, store: Store, policy: string, ops: seq<Operation>, values: ValueMap,
                  v: ValueState, i: nat)
    requires policy in cfg.policies && i + 1 < |ops|
    requires Exec(cfg.arith, ops[0].op, ops[0].data, Current(store, values, ops[0].key)) == Done(v)
    ensures GoodAt(cfg, store, policy, ops, values, i + 1) <==>
            GoodAt(cfg, store, policy, ops[1..], values[ops[0].key := v], i)
  {
    assert ops[..i + 2][0] == ops[0] && ops[..i + 2][1..] == ops[1..][..i + 1];
  }

  lemma GoodFirst(cfg: Config, store: Store, policy: string, ops: seq<Operation>, values: ValueMap)
    requires policy in cfg.policies && ops != []
    ensures var o, e := ops[0], Exec(cfg.arith, ops[0].op, ops[0].data, Current(store, values, ops[0].key));
            GoodAt(cfg, store, policy, ops, values, 0) <==> e.Done? && Check(cfg, policy, o, e.value.raw) == Ok
  {
    var o := ops[0];
    assert ops[..1][0] == o && ops[..1][1..] == [];
    match Exec(cfg.arith, o.op, o.data, Current(store, values, o.key)) {
      case Done(v) =>
        CheckVerdicts(cfg, policy, o, v.raw);
        assert RunOps(cfg.arith, store, [], values[o.key := v]) == Finished(values[o.key := v]);
      case Failed(_) =>
    }
  }

  /** The dry run passes exactly when every operation is good. */
  lemma {:induction false} DryRunIff(cfg: Config, store: Store, policy: string, ops: seq<Operation>, values: ValueMap)
    requires policy in cfg.policies
    ensures DryRun(cfg, store, policy, ops, values).Passed? <==> AllGood(cfg, store, policy, ops, values)
    ensures DryRun(cfg, store, policy, ops, values).Passed? ==>
              RunOps(cfg.arith, store, ops, values) == Finished(DryRun(cfg, store, policy, ops, values).values)
    decreases |ops|
  {
    if ops != [] {
      var o := ops[0];
      GoodFirst(cfg, store, policy, ops, values);
      if GoodAt(cfg, store, policy, ops, values, 0) {
        var v := Exec(cfg.arith, o.op, o.data, Current(store, values, o.key)).value;
        DryRunIff(cfg, store, policy, ops[1..], values[o.key := v]);
        AllGoodCons(cfg, store, policy, ops, values, v);
      }
    }
  }

  lemma AllGoodCons(cfg: Config, store: Store, policy: string, ops: seq<Operation>, values: ValueMap, v: ValueState)
    requires policy in cfg.policies && ops != [] && GoodAt(cfg, store, policy, ops, values, 0)
    requires Exec(cfg.arith, ops[0].op, ops[0].data, Current(store, values, ops[0].key)) == Done(v)
    ensures AllGood(cfg, store, policy, ops, values) <==>
            AllGood(cfg, store, policy, ops[1..], values[ops[0].key := v])
  {
    forall i | 0 < i < |ops|
      ensures GoodAt(cfg, store, policy, ops, values, i) <==>
              GoodAt(cfg, store, policy, ops[1..], values[ops[0].key := v], i - 1)
    {
      GoodLater(cfg, store, policy, ops, values, v, i - 1);
    }
    if AllGood(cfg, store, policy, ops[1..], values[ops[0].key := v]) {
      forall i | 0 <= i < |ops| ensures GoodAt(cfg, store, policy, ops, values, i) {
        if i > 0 {
          assert GoodAt(cfg, store, policy, ops[1..], values[ops[0].key := v], i - 1);
        }
      }
    } else {
      var i :| 0 <= i < |ops[1..]| && !GoodAt(cfg, store, policy, ops[1..], values[ops[0].key := v], i);
      assert !GoodAt(cfg, store, policy, ops, values, i + 1);
    }
  }

  /** The recorded usage is a number and, with the spore's values in place, no larger than MaxSize. */
  ghost predicate WithinQuota(cfg: Config, store: Store, policy: string, values: ValueMap)
    requires policy in cfg.policies
  {
    var usage := FloatOf(cfg.arith, Load(store, "__internal/size/" + policy));
    && usage.Some?
    && (cfg.policies[policy].maxSize > 0 ==>
          (cfg.toUint(usage.value) - StoredSize(store, values.Keys) + ValuesSize(values)) % TWO64
          <= cfg.policies[policy].maxSize)
  }

  lemma UsageKeyIs(policy: string)
    ensures UsageKey(policy) == "__internal/size/" + policy
  {
  }

  lemma QuotaIff(cfg: Config, store: Store, policy: string, values: ValueMap)
    ensures CheckUsage(cfg, store, policy, values) == Ok <==>
            policy in cfg.policies && WithinQuota(cfg, store, policy, values)
  {
    UsageKeyIs(policy);
  }

  /** All checks on the spore itself. */
  ghost predicate Sound(cfg: Config, store: Store, s: Spore)
  {
    && s.policy in cfg.policies
    && AllGood(cfg, store, s.policy, s.operations, map[])
    && RunOps(cfg.arith, store, s.operations, map[]).Finished?
    && WithinQuota(cfg, store, s.policy, RunOps(cfg.arith, store, s.operations, map[]).values)
  }

  /** A staged spore is in conflict with `s`. */
  ghost predicate Promised(st: State, s: Spore)
  {
    exists u :: u in st.staging && st.staging[u] < |st.triggers| && SporesConflict(s, st.triggers[st.staging[u]].spore)
  }

  lemma SoundIff(cfg: Config, store: Store, s: Spore)
    ensures Sound(cfg, store, s) <==>
            var c := DryRun(cfg, store, s.policy, s.operations, map[]);
            c.Passed? && CheckUsage(cfg, store, s.policy, c.values) == Ok
  {
    var c := DryRun(cfg, store, s.policy, s.operations, map[]);
    if s.policy in cfg.policies {
      DryRunIff(cfg, store, s.policy, s.operations, map[]);
      if c.Passed? {
        QuotaIff(cfg, store, s.policy, c.values);
      }
    } else if c.Passed? {
      QuotaIff(cfg, store, s.policy, c.values);
    }
  }

  /**
   * The exact conditions of CanEndorse.  A spore in time is accepted when every requirement is met,
   * the spore is sound and no staged spore conflicts; it is also accepted, unseen, when the
   * requirement loop stops at an outdated one.
   */
  lemma EndorsableIff(cfg: Config, st: State, s: Spore, missingFirst: bool)
    ensures var v := CanEndorse(cfg, st, s, missingFirst);
            var missing := Missing(st.store, s) && (missingFirst || !Outdated(st.store, s));
            && (v == DeadlineExpired <==> !InTime(s, st.now))
            && (v == KeyNotFound <==> InTime(s, st.now) && missing)
            && (v == ConflictingWithStaging <==>
                  && InTime(s, st.now) && !missing && !Outdated(st.store, s)
                  && Sound(cfg, st.store, s) && Promised(st, s))
            && (v == Ok <==>
                  && InTime(s, st.now) && !missing
                  && (Outdated(st.store, s) || (Sound(cfg, st.store, s) && !Promised(st, s))))
  {
    SoundIff(cfg, st.store, s);
    assert AnyMissing(st.store, s) <==> Missing(st.store, s);
    assert AnyMismatch(st.store, s) <==> Outdated(st.store, s);
    assert ConflictsWithStaging(st, s) <==> Promised(st, s);
    DryRunErrors(cfg, st.store, s.policy, s.operations, map[]);
  }

  lemma {:induction false} DryRunErrors(cfg: Config, store: Store, policy: string, ops: seq<Operation>,
                                        values: ValueMap)
    ensures DryRun(cfg, store, policy, ops, values) != Refused(KeyNotFound)
    decreases |ops|
  {
    if ops != [] {
      var o := ops[0];
      var v := Exec(cfg.arith, o.op, o.data, Current(store, values, o.key));
      if v.Done? {
        DryRunErrors(cfg, store, policy, ops[1..], values[o.key := v.value]);
      }
    }
  }

  // ---------------------------------------------------------------- Apply

  /** The end of the grace period; zero stands for no limit. */
  function Until(p: Policy, s: Spore): int
  {
    if s.deadline == None then 0
    else if p.grace == None then s.deadline.value
    else s.deadline.value + p.grace.value
  }

  /** Everything Apply asks for. */
  ghost predicate Applies(cfg: Config, st: State, s: Spore)
  {
    && s.policy in cfg.policies
    && (s.deadline != None ==> st.now <= Until(cfg.policies[s.policy], s))
    && s.uuid !in st.applied
    && RunOps(cfg.arith, st.store, s.operations, map[]).Finished?
    && FloatOf(cfg.arith, Load(st.store, "__internal/size/" + s.policy)).Some?
  }

  lemma AppliesIff(cfg: Config, st: State, s: Spore)
    ensures ApplyVerdict(cfg, st, s) == Applied <==> Applies(cfg, st, s)
    ensures s.policy in cfg.policies ==>
              && (ApplyVerdict(cfg, st, s) == GracePeriodExpired <==>
                    s.deadline != None && st.now > Until(cfg.policies[s.policy], s))
              && (ApplyVerdict(cfg, st, s) == DuplicatedApplication <==>
                    s.uuid in st.applied && (s.deadline != None ==> st.now <= Until(cfg.policies[s.policy], s)))
  {
    UsageKeyIs(s.policy);
  }

  /** The entry for the usage: the old figure, less the old bytes, plus the new ones, modulo 2^64. */
  ghost predicate UsageAfter(cfg: Config, store: Store, policy: string, values: ValueMap, e: Entry)
  {
    var usage := FloatOf(cfg.arith, Load(store, "__internal/size/" + policy));
    && usage.Some? && e.version == cfg.nilVersion
    && var u := (cfg.toUint(usage.value) - StoredSize(store, values.Keys) + ValuesSize(values)) % TWO64;
       e.data == cfg.arith.render(cfg.ofUint(u))
  }

  /** What a successful application leaves in the store. */
  ghost predicate StoreAfter(cfg: Config, store: Store, policy: string, values: ValueMap, store': Store)
  {
    var usage := "__internal/size/" + policy;
    && (forall k :: k in values ==> k in store' && store'[k] == Entry(values[k].raw, cfg.hash(values[k].raw)))
    && (usage !in values ==> usage in store' && UsageAfter(cfg, store, policy, values, store'[usage]))
    && (forall k :: k !in values && k != usage ==>
          (k in store' <==> k in store) && (k in store ==> store'[k] == store[k]))
  }

  lemma BatchLeaves(cfg: Config, store: Store, policy: string, values: ValueMap)
    requires RecordedUsage(cfg, store, policy).Some?
    ensures StoreAfter(cfg, store, policy, values, store + Batch(cfg, store, policy, values))
  {
    UsageKeyIs(policy);
    EntryIs(cfg, store, policy, values);
  }

  lemma EntryIs(cfg: Config, store: Store, policy: string, values: ValueMap)
    requires RecordedUsage(cfg, store, policy).Some?
    ensures UsageAfter(cfg, store, policy, values, UsageEntry(cfg, store, policy, values))
  {
    UsageKeyIs(policy);
  }

  lemma AppliedState(cfg: Config, st: State, s: Spore, bypass: bool, values: ValueMap)
    requires ApplyVerdict(cfg, st, s) == Applied && RunOps(cfg.arith, st.store, s.operations, map[]) == Finished(values)
    ensures Apply(cfg, st, s, bypass).store == st.store + Batch(cfg, st.store, s.policy, values)
    ensures Apply(cfg, st, s, bypass).applied == st.applied[s.uuid := Death(cfg.policies[s.policy], s)]
    ensures Apply(cfg, st, s, bypass).writes == st.writes + [Application(s, bypass)]
  {
  }

  lemma UntilIsDeath(p: Policy, s: Spore)
    ensures Until(p, s) == Death(p, s)
  {
  }

  lemma NotApplied(cfg: Config, st: State, s: Spore, bypass: bool)
    requires ApplyVerdict(cfg, st, s) != Applied
    ensures Apply(cfg, st, s, bypass) == st
  {
  }

  /** Apply does all of it or nothing. */
  lemma ApplyDoes(cfg: Config, st: State, s: Spore, bypass: bool)
    ensures var st' := Apply(cfg, st, s, bypass);
            if !Applies(cfg, st, s) then st' == st
            else
              && st'.applied == st.applied[s.uuid := Until(cfg.policies[s.policy], s)]
              && st'.writes == st.writes + [Application(s, bypass)]
              && StoreAfter(cfg, st.store, s.policy, RunOps(cfg.arith, st.store, s.operations, map[]).values, st'.store)
              && st'.triggers == st.triggers && st'.staging == st.staging && st'.waiting == st.waiting
  {
    AppliesIff(cfg, st, s);
    if Applies(cfg, st, s) {
      var values := RunOps(cfg.arith, st.store, s.operations, map[]).values;
      AppliedState(cfg, st, s, bypass, values);
      UntilIsDeath(cfg.policies[s.policy], s);
      BatchLeaves(cfg, st.store, s.policy, values);
    } else {
      NotApplied(cfg, st, s, bypass);
    }
  }

  // ---------------------------------------------------------------- executeEndorsement

  /** The public key of the local node, as executeEndorsement gets it. */
  function LocalKey(cfg: Config): Bytes
  {
    match cfg.ring.publicOf("") case Some(pub) => pub case None => []
  }

  /** A trigger for `s` is new, staged under its uuid, and nothing else of it changes. */
  ghost predicate StagedWith(st: State, st': State, s: Spore, es: seq<Endorsement>, bypass: bool)
  {
    && st'.triggers == st.triggers + [Trigger(s, es, bypass)]
    && st'.staging == st.staging[s.uuid := |st.triggers|]
    && SameRest(st, st')
  }

  /** Store, waiting list, applied spores, writes, clock and goroutines are as before. */
  ghost predicate SameRest(st: State, st': State)
  {
    && st'.store == st.store && st'.waiting == st.waiting && st'.applied == st.applied && st'.writes == st.writes
    && st'.now == st.now && st'.calls == st.calls && st'.pending == st.pending && st'.sent == st.sent
  }

  /** The spore is applied, if it can be, and staging is as before. */
  ghost predicate AppliedFrom(cfg: Config, st: State, st': State, s: Spore, bypass: bool)
  {
    && st'.store == Apply(cfg, st, s, bypass).store && st'.applied == Apply(cfg, st, s, bypass).applied
    && st'.writes == Apply(cfg, st, s, bypass).writes
    && st'.triggers == st.triggers && st'.staging == st.staging && st'.waiting == st.waiting
    && st'.now == st.now && st'.calls == st.calls && st'.pending == st.pending && st'.sent == st.sent
  }

  /** How a promotion depends on the quorum, on the local node being an endorser and on its key. */
  lemma PromoteDoes(cfg: Config, st: State, s: Spore, bypass: bool)
    ensures var st' := Promote(cfg, st, s, bypass);
            if s.policy !in cfg.policies then st' == st else
              var p := cfg.policies[s.policy];
              if p.quorum == 0 then AppliedFrom(cfg, st, st', s, bypass)
              else if LocalKey(cfg) !in p.endorsers then StagedWith(st, st', s, [], bypass)
              else match cfg.ring.sign(s)
                   case None => st' == st
                   case Some(sig) =>
                     if p.quorum == 1 then AppliedFrom(cfg, st, st', s, bypass)
                     else StagedWith(st, st', s, [Endorsement(s.uuid, cfg.identity, sig)], bypass)
  {
    var path := PathOf(cfg, s);
    if path.AtOnce? {
      LogApply(cfg, st, s, bypass, Promoted(s, bypass, Signs(cfg, s), false));
    }
  }

  /** A promotion is logged with whether the node signed: it does as an endorser of a policy with a quorum. */
  lemma PromoteLogs(cfg: Config, st: State, s: Spore, bypass: bool)
    ensures var st' := Promote(cfg, st, s, bypass);
            if s.policy !in cfg.policies then st'.events == st.events else
              var p := cfg.policies[s.policy];
              var endorser := p.quorum > 0 && LocalKey(cfg) in p.endorsers;
              if endorser && cfg.ring.sign(s) == None then st'.events == st.events
              else
                var staged := p.quorum > 1 || (p.quorum == 1 && !endorser);
                st'.events == st.events + [Promoted(s, bypass, endorser, staged)]
  {
  }

  lemma LogApply(cfg: Config, st: State, s: Spore, bypass: bool, e: Event)
    ensures AppliedFrom(cfg, st, Apply(cfg, Log(st, e), s, bypass), s, bypass)
  {
    LogVerdict(cfg, st, s, e);
    if ApplyVerdict(cfg, st, s) == Applied {
      assert Apply(cfg, Log(st, e), s, bypass) == Log(Apply(cfg, st, s, bypass), e);
    }
  }

  lemma LogVerdict(cfg: Config, st: State, s: Spore, e: Event)
    ensures ApplyVerdict(cfg, Log(st, e), s) == ApplyVerdict(cfg, st, s)
  {
  }

  /** The whole of Endorse: refused, put on the waiting list, or promoted. */
  lemma EndorseDoes(cfg: Config, st: State, s: Spore, missingFirst: bool)
    ensures var st', v := Endorse(cfg, st, s, missingFirst), CanEndorse(cfg, st, s, missingFirst);
            if Emitted(cfg, s) && v == Ok then st' == Promote(cfg, st, s, Outdated(st.store, s))
            else if Emitted(cfg, s) && v == ConflictingWithStaging then
              && st'.triggers == st.triggers + [Trigger(s, [], false)]
              && st'.waiting == st.waiting[s.uuid := |st.triggers|]
              && st'.staging == st.staging && SameRest(st.(waiting := st'.waiting), st')
            else st' == st
  {
    if CanEndorse(cfg, st, s, missingFirst) == Ok {
      PassedBy(cfg, st, s, missingFirst);
    }
  }

  lemma PassedBy(cfg: Config, st: State, s: Spore, missingFirst: bool)
    requires CanEndorse(cfg, st, s, missingFirst) == Ok
    ensures Bypasses(st, s, missingFirst) <==> Outdated(st.store, s)
  {
    assert AnyMissing(st.store, s) <==> Missing(st.store, s);
    assert AnyMismatch(st.store, s) <==> Outdated(st.store, s);
  }

  /** A promotion panics for an unknown policy, and when an application at once meets an unreadable usage. */
  ghost predicate Crashes(cfg: Config, st: State, s: Spore)
  {
    s.policy !in cfg.policies ||
    var p := cfg.policies[s.policy];
    && (p.quorum == 0 || (p.quorum == 1 && LocalKey(cfg) in p.endorsers && cfg.ring.sign(s) != None))
    && (s.deadline != None ==> st.now <= Until(p, s)) && s.uuid !in st.applied
    && RunOps(cfg.arith, st.store, s.operations, map[]).Finished?
    && FloatOf(cfg.arith, Load(st.store, "__internal/size/" + s.policy)) == None
  }

  lemma CrashesIff(cfg: Config, st: State, s: Spore)
    ensures PromoteCrashes(cfg, st, s) <==> Crashes(cfg, st, s)
  {
    UsageKeyIs(s.policy);
  }

  /** Endorse returns an error for a forged spore and for one that is refused; waiting is no error. */
  lemma EndorseReturns(cfg: Config, st: State, s: Spore, missingFirst: bool)
    ensures var e, v := EndorseError(cfg, st, s, missingFirst), CanEndorse(cfg, st, s, missingFirst);
            if !Emitted(cfg, s) then e == BadSignature
            else if v == ConflictingWithStaging then e == Ok
            else if v == Ok then e == if Crashes(cfg, st, s) then Crashed else Ok
            else e == v
  {
    CrashesIff(cfg, st, s);
  }

  // ---------------------------------------------------------------- addEndorsementMap

  /** The endorsement is by a new emitter whose listed key signed the spore. */
  ghost predicate Welcome(cfg: Config, t: Trigger, e: Endorsement)
  {
    var from := if e.emitter == cfg.identity then "" else e.emitter;
    && (forall i :: 0 <= i < |t.endorsements| ==> t.endorsements[i].emitter != e.emitter)
    && cfg.ring.publicOf(from).Some?
    && t.spore.policy in cfg.policies
    && cfg.ring.publicOf(from).value in cfg.policies[t.spore.policy].endorsers
    && cfg.ring.verify(from, t.spore, e.signature)
  }

  lemma WelcomeIff(cfg: Config, t: Trigger, e: Endorsement)
    ensures Vet(cfg, t, e) == Accepted <==> Welcome(cfg, t, e)
    ensures Vet(cfg, t, e) != NoRelatedSpore
  {
  }

  /** Why an endorsement is not welcome: the first of these reasons. */
  lemma Unwelcome(cfg: Config, t: Trigger, e: Endorsement)
    ensures var v, from := Vet(cfg, t, e), if e.emitter == cfg.identity then "" else e.emitter;
            if exists i :: 0 <= i < |t.endorsements| && t.endorsements[i].emitter == e.emitter
            then v == DuplicatedEndorsement
            else if cfg.ring.publicOf(from) == None then v == UnknownIdentity
            else if t.spore.policy !in cfg.policies ||
                    cfg.ring.publicOf(from).value !in cfg.policies[t.spore.policy].endorsers then v == UnallowedEndorser
            else if !cfg.ring.verify(from, t.spore, e.signature) then v == InvalidSignature
            else v == Accepted
  {
  }

  /** What AddEndorsement returns: the verdict on the staged trigger, or else on the waiting one. */
  lemma RegisterReturns(cfg: Config, st: State, e: Endorsement)
    ensures var v := VetAnywhere(cfg, st, e);
            if Kept(st, st.staging, e.uuid) then v == Vet(cfg, st.triggers[st.staging[e.uuid]], e)
            else if Kept(st, st.waiting, e.uuid) then v == Vet(cfg, st.triggers[st.waiting[e.uuid]], e)
            else v == NoRelatedSpore
    ensures var r := Joined(cfg, st, e);
            r == if Kept(st, st.staging, e.uuid) && Welcome(cfg, st.triggers[st.staging[e.uuid]], e)
                 then Some(st.staging[e.uuid]) else None
  {
    if Kept(st, st.staging, e.uuid) {
      WelcomeIff(cfg, st.triggers[st.staging[e.uuid]], e);
    }
  }

  /** The trigger of `uuid` in one of the two maps. */
  ghost predicate Kept(st: State, ma: map<string, nat>, uuid: string)
  {
    uuid in ma && ma[uuid] < |st.triggers|
  }

  /** Trigger `ref` has one endorsement more, the others are as they were. */
  ghost predicate Joins(st: State, st': State, ref: nat, e: Endorsement)
    requires ref < |st.triggers|
  {
    var t := st.triggers[ref];
    st'.triggers == st.triggers[ref := Trigger(t.spore, t.endorsements + [e], t.bypass)]
  }

  /** Which trigger an endorsement joins, and which call goes on to the second region. */
  lemma RegisterDoes(cfg: Config, st: State, e: Endorsement)
    ensures var st' := Register(cfg, st, e);
            && st'.staging == st.staging && SameRest(st.(calls := st'.calls), st')
            && if Kept(st, st.staging, e.uuid) then
                 var ref := st.staging[e.uuid];
                 if Welcome(cfg, st.triggers[ref], e)
                 then Joins(st, st', ref, e) && st'.calls == st.calls + multiset{ref}
                 else st' == st
               else if Kept(st, st.waiting, e.uuid) && Welcome(cfg, st.triggers[st.waiting[e.uuid]], e)
               then Joins(st, st', st.waiting[e.uuid], e) && st'.calls == st.calls
               else st' == st
  {
    if Kept(st, st.staging, e.uuid) {
      WelcomeIff(cfg, st.triggers[st.staging[e.uuid]], e);
    } else if Kept(st, st.waiting, e.uuid) {
      WelcomeIff(cfg, st.triggers[st.waiting[e.uuid]], e);
    }
  }

  // ---------------------------------------------------------------- the quorum

  /** The spore has as many endorsements as its policy asks for. */
  ghost predicate Enough(cfg: Config, t: Trigger)
  {
    t.spore.policy in cfg.policies && cfg.policies[t.spore.policy].quorum <= |t.endorsements|
  }

  /** The second region sends the spore if and only if it has enough endorsements by then. */
  lemma CommitDoes(cfg: Config, st: State, ref: nat)
    requires ref in st.calls && ref < |st.triggers|
    ensures var st', t := Commit(cfg, st, ref), st.triggers[ref];
            && st'.calls == st.calls - multiset{ref} && st'.triggers == st.triggers && st'.waiting == st.waiting
            && if Enough(cfg, t)
               then st'.staging == st.staging - {t.spore.uuid} && st'.pending == st.pending + multiset{ref}
               else st'.staging == st.staging && st'.pending == st.pending
  {
  }

  /**
   * An endorsement that a staged spore welcomes: it is sent to Apply and leaves staging if this one
   * completes its quorum, and stays staged with it otherwise.
   */
  lemma CompletedIff(cfg: Config, st: State, e: Endorsement)
    requires Kept(st, st.staging, e.uuid) && st.triggers[st.staging[e.uuid]].spore.uuid == e.uuid
    requires Welcome(cfg, st.triggers[st.staging[e.uuid]], e)
    ensures var ref, t := st.staging[e.uuid], st.triggers[st.staging[e.uuid]];
            var st' := Commit(cfg, Register(cfg, st, e), ref);
            && Joins(st, st', ref, e) && st'.calls == st.calls
            && (e.uuid !in st'.staging <==> cfg.policies[t.spore.policy].quorum <= |t.endorsements| + 1)
            && st'.pending == if e.uuid in st'.staging then st.pending else st.pending + multiset{ref}
  {
    var ref := st.staging[e.uuid];
    RegisterDoes(cfg, st, e);
    CommitDoes(cfg, Register(cfg, st, e), ref);
  }

  /** A spawned Apply runs once, on the trigger it was spawned for. */
  lemma PendingDoes(cfg: Config, st: State, ref: nat)
    requires ref in st.pending && ref < |st.triggers|
    ensures RunPending(cfg, st, ref).pending == st.pending - multiset{ref}
    ensures RunPending(cfg, st, ref).store == Apply(cfg, st, st.triggers[ref].spore, st.triggers[ref].bypass).store
    ensures RunPending(cfg, st, ref).applied == Apply(cfg, st, st.triggers[ref].spore, st.triggers[ref].bypass).applied
  {
  }
}
