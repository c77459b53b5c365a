/**
 * Policy usage (db/policy.go, db/db.go): the recorded figure is the number of bytes the policy
 * owns, and policies that apply at once never outgrow their limits.
 */
module Accounting {
  import opened Prelude
  import opened Values
  import opened Operations
  import opened Execution
  import opened Node
  import Staging
  import Versions

  /** Integers up to here go through a Float unchanged. */
  const EXACT: int := 0x20_0000_0000_0000

  ghost predicate ExactUsage(cfg: Config)
  {
    && Lawful(cfg.arith)
    && cfg.toUint(cfg.arith.zero) == 0
    && (forall u: nat :: u <= EXACT ==> cfg.toUint(cfg.ofUint(u)) == u)
  }

  // ---------------------------------------------------------------- ownership

  /** A key reserved for the usage of some policy. */
  predicate IsUsage(k: string)
  {
    INTERNAL_PREFIX + "/size" + "/" <= k
  }

  /** The keys of a policy that hold a value. */
  function Owned(store: Store, owner: string -> string, p: string): set<string>
  {
    set k | k in store && !IsUsage(k) && owner(k) == p
  }

  /** The bytes held under the keys of a policy. */
  ghost function OwnedSize(store: Store, owner: string -> string, p: string): int
  {
    StoredSize(store, Owned(store, owner, p))
  }

  /** The spore writes only keys of its own policy. */
  ghost predicate Keeping(owner: string -> string, s: Spore)
  {
    forall i :: 0 <= i < |s.operations| ==> owner(s.operations[i].key) == s.policy
  }

  /** The spore names no usage key. */
  ghost predicate Sparing(s: Spore)
  {
    forall i :: 0 <= i < |s.operations| ==> !IsUsage(s.operations[i].key)
  }

  ghost predicate Tidy(owner: string -> string, s: Spore)
  {
    Keeping(owner, s) && Sparing(s)
  }

  lemma TidyKeys(owner: string -> string, s: Spore, k: string)
    requires Tidy(owner, s) && k in Keys(s.operations)
    ensures !IsUsage(k) && owner(k) == s.policy
  {
  }

  lemma UsageKeys(p: string, q: string)
    ensures IsUsage(UsageKey(p))
    ensures UsageKey(p) == UsageKey(q) ==> p == q
  {
    var prefix := INTERNAL_PREFIX + "/size" + "/";
    assert UsageKey(p) == prefix + p && UsageKey(q) == prefix + q;
    assert UsageKey(p)[|prefix|..] == p && UsageKey(q)[|prefix|..] == q;
  }

  // ---------------------------------------------------------------- one batch

  /** The bytes under keys of one policy, old and new, split by whether the batch writes them. */
  lemma SplitSizes(store: Store, o: set<string>, ks: set<string>)
    requires forall k :: k in ks - o ==> k !in store
    ensures StoredSize(store, o) == StoredSize(store, o - ks) + StoredSize(store, ks)
    ensures 0 <= StoredSize(store, ks) <= StoredSize(store, o)
  {
    var len := StoredLength(store);
    assert o == (o - ks) + (o * ks);
    SumUnion(o - ks, o * ks, len);
    assert ks == (o * ks) + (ks - o);
    SumUnion(o * ks, ks - o, len);
    SumOfZeros(ks - o, len);
    SumMonotone(o * ks, o, len);
  }

  lemma MergedSizes(store: Store, store': Store, o: set<string>, values: ValueMap)
    requires forall k :: k in o - values.Keys ==> Load(store', k) == Load(store, k)
    requires forall k :: k in values ==> Load(store', k) == values[k].raw
    ensures StoredSize(store', (o - values.Keys) + values.Keys) ==
            StoredSize(store, o - values.Keys) + ValuesSize(values)
  {
    var ks := values.Keys;
    SumUnion(o - ks, ks, StoredLength(store'));
    SumAgree(o - ks, StoredLength(store'), StoredLength(store));
    SumAgree(ks, StoredLength(store'), ValueLength(values));
  }

  /** What a batch does to the bytes of the policy it is written under. */
  lemma BatchSize(cfg: Config, store: Store, owner: string -> string, p: string, values: ValueMap)
    requires RecordedUsage(cfg, store, p).Some?
    requires forall k :: k in values ==> !IsUsage(k) && owner(k) == p
    ensures var store' := store + Batch(cfg, store, p, values);
            OwnedSize(store', owner, p) ==
            OwnedSize(store, owner, p) - StoredSize(store, values.Keys) + ValuesSize(values)
    ensures 0 <= StoredSize(store, values.Keys) <= OwnedSize(store, owner, p)
  {
    BatchOwns(cfg, store, owner, p, values);
    SplitSizes(store, Owned(store, owner, p), values.Keys);
    MergedSizes(store, store + Batch(cfg, store, p, values), Owned(store, owner, p), values);
  }

  /** Which keys the policy owns after the batch, and with what. */
  lemma BatchOwns(cfg: Config, store: Store, owner: string -> string, p: string, values: ValueMap)
    requires RecordedUsage(cfg, store, p).Some?
    requires forall k :: k in values ==> !IsUsage(k) && owner(k) == p
    ensures var store' := store + Batch(cfg, store, p, values);
            && Owned(store', owner, p) == (Owned(store, owner, p) - values.Keys) + values.Keys
            && (forall k :: k in Owned(store, owner, p) - values.Keys ==> Load(store', k) == Load(store, k))
            && (forall k :: k in values ==> Load(store', k) == values[k].raw)
  {
    var store' := store + Batch(cfg, store, p, values);
    UsageKeys(p, p);
    forall k
      ensures k in Owned(store', owner, p) <==> k in (Owned(store, owner, p) - values.Keys) + values.Keys
      ensures !IsUsage(k) && k !in values ==> Load(store', k) == Load(store, k)
      ensures k in values ==> Load(store', k) == values[k].raw
    {
      BatchAt(cfg, store, p, values, k);
    }
  }

  /** What a key holds after a batch. */
  lemma BatchAt(cfg: Config, store: Store, p: string, values: ValueMap, k: string)
    requires RecordedUsage(cfg, store, p).Some?
    ensures var store' := store + Batch(cfg, store, p, values);
            && (k in store' <==> k in store || k in values || k == UsageKey(p))
            && (k in values ==> Load(store', k) == values[k].raw)
            && (k !in values && k != UsageKey(p) ==> Load(store', k) == Load(store, k))
  {
  }

  /** ... and to those of every other policy. */
  lemma BatchElsewhere(cfg: Config, store: Store, owner: string -> string, p: string, q: string, values: ValueMap)
    requires RecordedUsage(cfg, store, p).Some? && q != p
    requires forall k :: k in values ==> !IsUsage(k) && owner(k) == p
    ensures var store' := store + Batch(cfg, store, p, values);
            && Owned(store', owner, q) == Owned(store, owner, q)
            && (forall k :: k in Owned(store, owner, q) ==> Load(store', k) == Load(store, k))
            && OwnedSize(store', owner, q) == OwnedSize(store, owner, q)
            && RecordedUsage(cfg, store', q) == RecordedUsage(cfg, store, q)
  {
    var store' := store + Batch(cfg, store, p, values);
    UsageKeys(p, q);
    UsageKeys(q, p);
    BatchAt(cfg, store, p, values, UsageKey(q));
    forall k ensures k in Owned(store', owner, q) <==> k in Owned(store, owner, q) {
      BatchAt(cfg, store, p, values, k);
    }
    forall k | k in Owned(store, owner, q) ensures Load(store', k) == Load(store, k) {
      BatchAt(cfg, store, p, values, k);
    }
    SumAgree(Owned(store, owner, q), StoredLength(store'), StoredLength(store));
  }

  /** What the batch records for its own policy. */
  lemma BatchUsage(cfg: Config, store: Store, p: string, values: ValueMap)
    requires Lawful(cfg.arith) && RecordedUsage(cfg, store, p).Some? && UsageKey(p) !in values
    ensures var store' := store + Batch(cfg, store, p, values);
            var u := Wrapped(RecordedUsage(cfg, store, p).value, StoredSize(store, values.Keys), ValuesSize(values));
            RecordedUsage(cfg, store', p) == Some(cfg.toUint(cfg.ofUint(u)))
  {
    var u := Wrapped(RecordedUsage(cfg, store, p).value, StoredSize(store, values.Keys), ValuesSize(values));
    UsageKeys(p, p);
    var x := cfg.ofUint(u);
    Rendered(cfg.arith, x);
  }

  // ---------------------------------------------------------------- the books

  /** Every policy's recorded usage is the number of bytes it owns. */
  ghost predicate Accounted(cfg: Config, owner: string -> string, store: Store)
  {
    forall p :: RecordedUsage(cfg, store, p) == Some(OwnedSize(store, owner, p))
  }

  ghost predicate Small(owner: string -> string, store: Store)
  {
    forall p :: OwnedSize(store, owner, p) <= EXACT
  }

  /** The values of a run are those of the spore's own keys. */
  lemma TidyValues(cfg: Config, owner: string -> string, store: Store, s: Spore)
    requires Tidy(owner, s) && RunOps(cfg.arith, store, s.operations, map[]).Finished?
    ensures forall k :: k in RunOps(cfg.arith, store, s.operations, map[]).values ==>
              !IsUsage(k) && owner(k) == s.policy
  {
    Projection(cfg.arith, store, s.operations, map[]);
    forall k | k in RunOps(cfg.arith, store, s.operations, map[]).values
      ensures !IsUsage(k) && owner(k) == s.policy
    {
      TidyKeys(owner, s, k);
    }
  }

  lemma SmallDoesNotWrap(usage: nat, oldSize: int, newSize: int)
    requires 0 <= usage - oldSize + newSize <= EXACT
    ensures Wrapped(usage, oldSize, newSize) == usage - oldSize + newSize
  {
  }

  /** The policy's bytes once `values` are written, as the code computes them. */
  ghost function SizeAfter(store: Store, owner: string -> string, p: string, values: ValueMap): int
  {
    OwnedSize(store, owner, p) - StoredSize(store, values.Keys) + ValuesSize(values)
  }

  /** The unsigned computation does not wrap, and gives the bytes owned afterwards. */
  lemma NoWrap(cfg: Config, owner: string -> string, store: Store, p: string, values: ValueMap)
    requires Accounted(cfg, owner, store)
    requires forall k :: k in values ==> !IsUsage(k) && owner(k) == p
    requires SizeAfter(store, owner, p, values) <= EXACT
    ensures RecordedUsage(cfg, store, p).Some?
    ensures var usage := RecordedUsage(cfg, store, p).value;
            var oldSize, newSize := StoredSize(store, values.Keys), ValuesSize(values);
            && 0 <= oldSize <= usage
            && Wrapped(usage, oldSize, newSize) == usage - oldSize + newSize
            && usage - oldSize + newSize == OwnedSize(store + Batch(cfg, store, p, values), owner, p)
  {
    assert RecordedUsage(cfg, store, p) == Some(OwnedSize(store, owner, p));
    BatchSize(cfg, store, owner, p, values);
    SumMonotone({}, values.Keys, ValueLength(values));
    SmallDoesNotWrap(RecordedUsage(cfg, store, p).value, StoredSize(store, values.Keys), ValuesSize(values));
  }

  /** The books of the policy the batch is written under ... */
  lemma BatchAccountsOwn(cfg: Config, owner: string -> string, store: Store, p: string, values: ValueMap)
    requires ExactUsage(cfg) && Accounted(cfg, owner, store)
    requires forall k :: k in values ==> !IsUsage(k) && owner(k) == p
    requires SizeAfter(store, owner, p, values) <= EXACT
    ensures RecordedUsage(cfg, store, p).Some?
    ensures var store' := store + Batch(cfg, store, p, values);
            RecordedUsage(cfg, store', p) == Some(OwnedSize(store', owner, p))
  {
    NoWrap(cfg, owner, store, p, values);
    var u := Wrapped(RecordedUsage(cfg, store, p).value, StoredSize(store, values.Keys), ValuesSize(values));
    assert u == OwnedSize(store + Batch(cfg, store, p, values), owner, p);
    UsageSurvives(cfg, u);
    UsageKeys(p, p);
    BatchUsage(cfg, store, p, values);
  }

  lemma UsageSurvives(cfg: Config, u: nat)
    requires ExactUsage(cfg) && u <= EXACT
    ensures cfg.toUint(cfg.ofUint(u)) == u
  {
  }

  /** ... and those of every policy. */
  lemma BatchAccounted(cfg: Config, owner: string -> string, store: Store, p: string, values: ValueMap)
    requires ExactUsage(cfg) && Accounted(cfg, owner, store)
    requires forall k :: k in values ==> !IsUsage(k) && owner(k) == p
    requires SizeAfter(store, owner, p, values) <= EXACT
    ensures RecordedUsage(cfg, store, p).Some?
    ensures Accounted(cfg, owner, store + Batch(cfg, store, p, values))
  {
    BatchAccountsOwn(cfg, owner, store, p, values);
    var store' := store + Batch(cfg, store, p, values);
    forall q ensures RecordedUsage(cfg, store', q) == Some(OwnedSize(store', owner, q)) {
      if q != p {
        BatchElsewhere(cfg, store, owner, p, q, values);
        assert RecordedUsage(cfg, store, q) == Some(OwnedSize(store, owner, q));
      }
    }
  }

  // ---------------------------------------------------------------- the dry run

  /** CanEndorse's dry run leaves exactly the values that Apply writes from the same store. */
  lemma {:induction false} DryRunIsTheRun(cfg: Config, store: Store, policy: string, ops: seq<Operation>,
                                          values: ValueMap)
    requires DryRun(cfg, store, policy, ops, values).Passed?
    ensures RunOps(cfg.arith, store, ops, values) == Finished(DryRun(cfg, store, policy, ops, values).values)
    decreases |ops|
  {
    if ops != [] {
      var o := ops[0];
      var v := Exec(cfg.arith, o.op, o.data, Current(store, values, o.key)).value;
      DryRunIsTheRun(cfg, store, policy, ops[1..], values[o.key := v]);
    }
  }

  ghost predicate ShortValues(p: Policy, values: ValueMap)
  {
    forall k :: k in values && p.maxOpSize > 0 ==> |values[k].raw| <= p.maxOpSize
  }

  /** Every value that survives the dry run respects MaxOpSize. */
  lemma {:induction false} DryRunIsShort(cfg: Config, store: Store, policy: string, ops: seq<Operation>,
                                         values: ValueMap)
    requires policy in cfg.policies && ShortValues(cfg.policies[policy], values)
    requires DryRun(cfg, store, policy, ops, values).Passed?
    ensures ShortValues(cfg.policies[policy], DryRun(cfg, store, policy, ops, values).values)
    decreases |ops|
  {
    if ops != [] {
      var o := ops[0];
      var v := Exec(cfg.arith, o.op, o.data, Current(store, values, o.key)).value;
      assert Check(cfg, policy, o, v.raw) == Ok;
      DryRunIsShort(cfg, store, policy, ops[1..], values[o.key := v]);
    }
  }

  // ---------------------------------------------------------------- limits

  /** The policy applies its spores without staging them. */
  ghost predicate Immediate(cfg: Config, q: string)
  {
    && q in cfg.policies
    && (forall s: Spore :: s.policy == q ==> PathOf(cfg, s).AtOnce?)
  }

  /** The policy's bytes are within MaxSize and each of its values within MaxOpSize. */
  ghost predicate Within(p: Policy, owner: string -> string, q: string, store: Store)
  {
    && (p.maxSize > 0 ==> OwnedSize(store, owner, q) <= p.maxSize)
    && (forall k :: k in Owned(store, owner, q) && p.maxOpSize > 0 ==> |Load(store, k)| <= p.maxOpSize)
  }

  /** Some spore of the policy was written by way of a requirement mismatch. */
  ghost predicate Bypassed(st: State, q: string)
  {
    exists i :: 0 <= i < |st.writes| && st.writes[i].bypass && st.writes[i].spore.policy == q
  }

  ghost predicate NotOf(st: State, q: string, ref: nat)
  {
    ref < |st.triggers| ==> st.triggers[ref].spore.policy != q
  }

  /** No spore of the policy is on its way through staging. */
  ghost predicate NoneStaged(st: State, q: string)
  {
    && (forall u :: u in st.staging ==> st.staging[u] < |st.triggers| && NotOf(st, q, st.staging[u]))
    && (forall r :: r in st.calls ==> r < |st.triggers| && NotOf(st, q, r))
    && (forall r :: r in st.pending ==> r < |st.triggers| && NotOf(st, q, r))
  }

  /** Nothing to say about staging unless the policy applies at once. */
  ghost predicate Flow(cfg: Config, st: State, q: string)
  {
    Immediate(cfg, q) ==> NoneStaged(st, q)
  }

  /** Everything written so far is tidy. */
  ghost predicate WritesTidy(owner: string -> string, st: State)
  {
    forall i :: 0 <= i < |st.writes| ==> Tidy(owner, st.writes[i].spore)
  }

  ghost predicate Limited(cfg: Config, owner: string -> string, q: string, st: State)
  {
    Immediate(cfg, q) ==>
      NoneStaged(st, q) && (Bypassed(st, q) || Within(cfg.policies[q], owner, q, st.store))
  }

  ghost predicate Good(cfg: Config, owner: string -> string, q: string, st: State)
  {
    Accounted(cfg, owner, st.store) && Limited(cfg, owner, q, st)
  }

  // ---------------------------------------------------------------- the step that writes

  /** What the caller of Apply knows about a spore of the limited policy. */
  ghost predicate Vetted(cfg: Config, st: State, s: Spore)
  {
    && DryRun(cfg, st.store, s.policy, s.operations, map[]).Passed?
    && CheckUsage(cfg, st.store, s.policy, DryRun(cfg, st.store, s.policy, s.operations, map[]).values) == Ok
  }

  lemma BypassedGrows(st: State, st': State, q: string)
    requires Bypassed(st, q) && st.writes <= st'.writes
    ensures Bypassed(st', q)
  {
    var i :| 0 <= i < |st.writes| && st.writes[i].bypass && st.writes[i].spore.policy == q;
    assert st'.writes[i] == st.writes[i];
  }

  /** A vetted spore keeps its policy within its limits. */
  lemma WriteWithin(cfg: Config, owner: string -> string, st: State, s: Spore, values: ValueMap)
    requires Accounted(cfg, owner, st.store) && s.policy in cfg.policies
    requires Within(cfg.policies[s.policy], owner, s.policy, st.store) && Vetted(cfg, st, s)
    requires values == DryRun(cfg, st.store, s.policy, s.operations, map[]).values
    requires forall k :: k in values ==> !IsUsage(k) && owner(k) == s.policy
    requires SizeAfter(st.store, owner, s.policy, values) <= EXACT
    ensures Within(cfg.policies[s.policy], owner, s.policy, st.store + Batch(cfg, st.store, s.policy, values))
  {
    NoWrap(cfg, owner, st.store, s.policy, values);
    DryRunIsShort(cfg, st.store, s.policy, s.operations, map[]);
    UsageKeys(s.policy, s.policy);
    var p := cfg.policies[s.policy];
    var store' := st.store + Batch(cfg, st.store, s.policy, values);
    forall k | k in Owned(store', owner, s.policy) && p.maxOpSize > 0 ensures |Load(store', k)| <= p.maxOpSize {
      if k in values {
        assert Load(store', k) == values[k].raw;
      } else {
        assert k in Owned(st.store, owner, s.policy) && Load(store', k) == Load(st.store, k);
      }
    }
  }

  /** What Apply writes is on record. */
  lemma AppliedIsTidy(cfg: Config, owner: string -> string, st: State, s: Spore, bypass: bool)
    requires ApplyVerdict(cfg, st, s) == Applied && WritesTidy(owner, Apply(cfg, st, s, bypass))
    ensures Tidy(owner, s)
  {
    assert Apply(cfg, st, s, bypass).writes[|st.writes|] == Application(s, bypass);
  }

  lemma ApplyAccounted(cfg: Config, owner: string -> string, st: State, s: Spore, bypass: bool)
    requires ExactUsage(cfg) && Accounted(cfg, owner, st.store) && WritesTidy(owner, Apply(cfg, st, s, bypass))
    requires Small(owner, Apply(cfg, st, s, bypass).store)
    ensures Accounted(cfg, owner, Apply(cfg, st, s, bypass).store)
  {
    if ApplyVerdict(cfg, st, s) == Applied {
      var values := RunOps(cfg.arith, st.store, s.operations, map[]).values;
      AppliedIsTidy(cfg, owner, st, s, bypass);
      TidyValues(cfg, owner, st.store, s);
      BatchSize(cfg, st.store, owner, s.policy, values);
      BatchAccounted(cfg, owner, st.store, s.policy, values);
    }
  }

  lemma ApplyWithin(cfg: Config, owner: string -> string, st: State, s: Spore)
    requires Accounted(cfg, owner, st.store) && Tidy(owner, s) && Vetted(cfg, st, s)
    requires ApplyVerdict(cfg, st, s) == Applied && Within(cfg.policies[s.policy], owner, s.policy, st.store)
    requires Small(owner, Apply(cfg, st, s, false).store)
    ensures Within(cfg.policies[s.policy], owner, s.policy, Apply(cfg, st, s, false).store)
  {
    var values := RunOps(cfg.arith, st.store, s.operations, map[]).values;
    TidyValues(cfg, owner, st.store, s);
    DryRunIsTheRun(cfg, st.store, s.policy, s.operations, map[]);
    BatchSize(cfg, st.store, owner, s.policy, values);
    WriteWithin(cfg, owner, st, s, values);
  }

  lemma ApplyLimited(cfg: Config, owner: string -> string, q: string, st: State, s: Spore, bypass: bool)
    requires ExactUsage(cfg) && Good(cfg, owner, q, st) && WritesTidy(owner, Apply(cfg, st, s, bypass))
    requires Immediate(cfg, q) && s.policy == q && !bypass ==> Vetted(cfg, st, s)
    requires Small(owner, Apply(cfg, st, s, bypass).store)
    ensures Immediate(cfg, q) ==>
              Bypassed(Apply(cfg, st, s, bypass), q) ||
                Within(cfg.policies[q], owner, q, Apply(cfg, st, s, bypass).store)
  {
    var st' := Apply(cfg, st, s, bypass);
    if ApplyVerdict(cfg, st, s) == Applied && Immediate(cfg, q) {
      var values := RunOps(cfg.arith, st.store, s.operations, map[]).values;
      AppliedIsTidy(cfg, owner, st, s, bypass);
      TidyValues(cfg, owner, st.store, s);
      if Bypassed(st, q) {
        BypassedGrows(st, st', q);
      } else if s.policy != q {
        BatchElsewhere(cfg, st.store, owner, s.policy, q, values);
      } else if bypass {
        assert st'.writes[|st.writes|] == Application(s, true);
      } else {
        ApplyWithin(cfg, owner, st, s);
      }
    }
  }

  lemma ApplyGood(cfg: Config, owner: string -> string, q: string, st: State, s: Spore, bypass: bool)
    requires ExactUsage(cfg) && Good(cfg, owner, q, st) && WritesTidy(owner, Apply(cfg, st, s, bypass))
    requires Immediate(cfg, q) && s.policy == q && !bypass ==> Vetted(cfg, st, s)
    requires Small(owner, Apply(cfg, st, s, bypass).store)
    ensures Good(cfg, owner, q, Apply(cfg, st, s, bypass))
  {
    ApplyAccounted(cfg, owner, st, s, bypass);
    ApplyLimited(cfg, owner, q, st, s, bypass);
    Staging.ApplyIsNeutral(cfg, st, s, bypass);
    SameFlow(cfg, st, Apply(cfg, st, s, bypass), q);
  }

  lemma SameFlow(cfg: Config, st: State, st': State, q: string)
    requires Flow(cfg, st, q) && Staging.Extends(st, st')
    requires forall u :: u in st'.staging ==> u in st.staging && st'.staging[u] == st.staging[u]
    requires st'.calls <= st.calls && st'.pending <= st.pending
    ensures Flow(cfg, st', q)
  {
    if Immediate(cfg, q) {
      forall r | r in st'.calls || r in st'.pending ensures r < |st'.triggers| && NotOf(st', q, r) {
        assert r in st.calls || r in st.pending;
        assert NotOf(st, q, r);
      }
      forall u | u in st'.staging ensures st'.staging[u] < |st'.triggers| && NotOf(st', q, st'.staging[u]) {
        assert NotOf(st, q, st.staging[u]);
      }
    }
  }

  // ---------------------------------------------------------------- the other steps

  /** Store and applications unchanged. */
  lemma QuietGood(cfg: Config, owner: string -> string, q: string, st: State, st': State)
    requires Good(cfg, owner, q, st) && st'.store == st.store && st'.writes == st.writes
    requires Flow(cfg, st', q)
    ensures Good(cfg, owner, q, st')
  {
  }

  lemma LogGood(cfg: Config, owner: string -> string, q: string, st: State, e: Event)
    requires Good(cfg, owner, q, st)
    ensures Good(cfg, owner, q, Log(st, e))
  {
    SameFlow(cfg, st, Log(st, e), q);
    QuietGood(cfg, owner, q, st, Log(st, e));
  }

  lemma StageGood(cfg: Config, owner: string -> string, q: string, st: State, s: Spore, es: seq<Endorsement>,
                  bypass: bool)
    requires Good(cfg, owner, q, st) && (Immediate(cfg, q) ==> s.policy != q)
    ensures Good(cfg, owner, q, Stage(st, s, es, bypass))
  {
    var st' := Stage(st, s, es, bypass);
    if Immediate(cfg, q) {
      forall u | u in st'.staging ensures st'.staging[u] < |st'.triggers| && NotOf(st', q, st'.staging[u]) {
        assert u != s.uuid ==> NotOf(st, q, st.staging[u]);
      }
      forall r | r in st'.calls || r in st'.pending ensures r < |st'.triggers| && NotOf(st', q, r) {
        assert NotOf(st, q, r);
      }
    }
    QuietGood(cfg, owner, q, st, st');
  }

  lemma PromoteGood(cfg: Config, owner: string -> string, q: string, st: State, s: Spore, bypass: bool)
    requires ExactUsage(cfg) && Good(cfg, owner, q, st) && WritesTidy(owner, Promote(cfg, st, s, bypass))
    requires !bypass ==> Vetted(cfg, st, s)
    requires Small(owner, Promote(cfg, st, s, bypass).store)
    ensures Good(cfg, owner, q, Promote(cfg, st, s, bypass))
  {
    var path := PathOf(cfg, s);
    var e := Promoted(s, bypass, Signs(cfg, s), path.ToStaging?);
    LogGood(cfg, owner, q, st, e);
    if path.AtOnce? {
      ApplyGood(cfg, owner, q, Log(st, e), s, bypass);
    } else if path.ToStaging? {
      StageGood(cfg, owner, q, Log(st, e), s, OwnEndorsements(cfg, s), bypass);
    }
  }

  /** What CanEndorse has established when it lets a spore through the regular way. */
  lemma EndorsableIsVetted(cfg: Config, st: State, s: Spore, missingFirst: bool)
    requires CanEndorse(cfg, st, s, missingFirst) == Ok
    ensures Bypasses(st, s, missingFirst) || Vetted(cfg, st, s)
  {
  }

  /** A spore beyond its policy's limits is let through if and only if a requirement does not match. */
  lemma UnvettedIff(cfg: Config, st: State, s: Spore, missingFirst: bool)
    requires !Vetted(cfg, st, s)
    ensures CanEndorse(cfg, st, s, missingFirst) == Ok <==> CheckDeadline(s, st.now) && Bypasses(st, s, missingFirst)
  {
    if CanEndorse(cfg, st, s, missingFirst) == Ok {
      EndorsableIsVetted(cfg, st, s, missingFirst);
    }
  }

  lemma EndorseGood(cfg: Config, owner: string -> string, q: string, st: State, s: Spore, missingFirst: bool)
    requires ExactUsage(cfg) && Good(cfg, owner, q, st) && WritesTidy(owner, Endorse(cfg, st, s, missingFirst))
    requires Small(owner, Endorse(cfg, st, s, missingFirst).store)
    ensures Good(cfg, owner, q, Endorse(cfg, st, s, missingFirst))
  {
    if Signed(cfg, s) {
      var v := CanEndorse(cfg, st, s, missingFirst);
      if v == Ok {
        EndorsableIsVetted(cfg, st, s, missingFirst);
        PromoteGood(cfg, owner, q, st, s, Bypasses(st, s, missingFirst));
      } else if v == ConflictingWithStaging {
        PostponeGood(cfg, owner, q, st, s);
      }
    }
  }

  lemma PostponeGood(cfg: Config, owner: string -> string, q: string, st: State, s: Spore)
    requires Good(cfg, owner, q, st)
    ensures Good(cfg, owner, q, Postpone(st, s))
  {
    var st' := Postpone(st, s);
    SameFlow(cfg, st, st', q);
    QuietGood(cfg, owner, q, st, st');
  }

  lemma ReconsiderGood(cfg: Config, owner: string -> string, q: string, st: State, k: string, missingFirst: set<string>)
    requires ExactUsage(cfg) && Good(cfg, owner, q, st) && WritesTidy(owner, Reconsider(cfg, st, k, missingFirst))
    requires Small(owner, Reconsider(cfg, st, k, missingFirst).store)
    ensures Good(cfg, owner, q, Reconsider(cfg, st, k, missingFirst))
  {
    var st' := Reconsider(cfg, st, k, missingFirst);
    if k in st.waiting && st.waiting[k] < |st.triggers| {
      var s := st.triggers[st.waiting[k]].spore;
      var bypass := Bypasses(st, s, k in missingFirst);
      if CanEndorse(cfg, st, s, k in missingFirst) == Ok {
        EndorsableIsVetted(cfg, st, s, k in missingFirst);
        var mid := Promote(cfg, st, s, bypass);
        PromoteGood(cfg, owner, q, st, s, bypass);
        SameFlow(cfg, mid, st', q);
        QuietGood(cfg, owner, q, mid, st');
      } else {
        SameFlow(cfg, st, st', q);
        QuietGood(cfg, owner, q, st, st');
      }
    }
  }

  /** Every store on the way through a gc pass is small. */
  ghost predicate SmallPass(cfg: Config, owner: string -> string, st: State, order: seq<string>,
                            missingFirst: set<string>)
    decreases |order|
  {
    && Small(owner, st.store)
    && (order != [] ==> SmallPass(cfg, owner, Reconsider(cfg, st, order[0], missingFirst), order[1..], missingFirst))
  }

  lemma {:induction false} ReconsiderAllGood(cfg: Config, owner: string -> string, q: string, st: State,
                                             order: seq<string>, missingFirst: set<string>)
    requires ExactUsage(cfg) && Good(cfg, owner, q, st)
    requires WritesTidy(owner, ReconsiderAll(cfg, st, order, missingFirst))
    requires SmallPass(cfg, owner, st, order, missingFirst)
    ensures Good(cfg, owner, q, ReconsiderAll(cfg, st, order, missingFirst))
    decreases |order|
  {
    if order != [] {
      var mid := Reconsider(cfg, st, order[0], missingFirst);
      assert SmallPass(cfg, owner, mid, order[1..], missingFirst);
      ReconsiderAllWrites(cfg, mid, order[1..], missingFirst);
      TidyBefore(owner, mid, ReconsiderAll(cfg, st, order, missingFirst));
      ReconsiderGood(cfg, owner, q, st, order[0], missingFirst);
      ReconsiderAllGood(cfg, owner, q, mid, order[1..], missingFirst);
    }
  }

  lemma CollectGood(cfg: Config, owner: string -> string, q: string, st: State, uuid: string,
                    order: seq<string>, missingFirst: set<string>)
    requires ExactUsage(cfg) && Good(cfg, owner, q, st)
    requires WritesTidy(owner, Collect(cfg, st, uuid, order, missingFirst))
    requires SmallPass(cfg, owner, Unstage(st, uuid, Expired(uuid)), order, missingFirst)
    ensures Good(cfg, owner, q, Collect(cfg, st, uuid, order, missingFirst))
  {
    var mid := Unstage(st, uuid, Expired(uuid));
    SameFlow(cfg, st, mid, q);
    QuietGood(cfg, owner, q, st, mid);
    ReconsiderAllGood(cfg, owner, q, mid, order, missingFirst);
  }

  lemma RegisterFlow(cfg: Config, q: string, st: State, e: Endorsement)
    requires Flow(cfg, st, q)
    ensures Flow(cfg, Register(cfg, st, e), q)
  {
    var st' := Register(cfg, st, e);
    Staging.RegisterIsNeutral(cfg, st, e);
    var mid := st'.(calls := st.calls);
    SameFlow(cfg, st, mid, q);
    if VetIn(cfg, st, st.staging, e) == Accepted {
      var ref := st.staging[e.uuid];
      assert Immediate(cfg, q) ==> NotOf(mid, q, mid.staging[e.uuid]);
      AddRef(cfg, q, mid, st', ref);
    }
  }

  /** One more reference to a trigger of another policy. */
  lemma AddRef(cfg: Config, q: string, st: State, st': State, ref: nat)
    requires Flow(cfg, st, q) && st'.triggers == st.triggers && st'.staging == st.staging
    requires Immediate(cfg, q) ==> ref < |st.triggers| && NotOf(st, q, ref)
    requires forall r :: r in st'.calls ==> r in st.calls || r == ref
    requires forall r :: r in st'.pending ==> r in st.pending || r == ref
    ensures Flow(cfg, st', q)
  {
    if Immediate(cfg, q) {
      forall r | r in st'.calls || r in st'.pending || r in st'.staging.Values
        ensures r < |st'.triggers| && NotOf(st', q, r)
      {
        assert r < |st.triggers| && NotOf(st, q, r);
      }
    }
  }

  lemma RegisterGood(cfg: Config, owner: string -> string, q: string, st: State, e: Endorsement)
    requires Good(cfg, owner, q, st)
    ensures Good(cfg, owner, q, Register(cfg, st, e))
  {
    RegisterFlow(cfg, q, st, e);
    Staging.RegisterIsNeutral(cfg, st, e);
    QuietGood(cfg, owner, q, st, Register(cfg, st, e));
  }

  lemma CommitFields(cfg: Config, st: State, ref: nat)
    ensures var st' := Commit(cfg, st, ref);
            && st'.store == st.store && st'.writes == st.writes && st'.triggers == st.triggers
            && st'.calls <= st.calls
            && (st'.pending == st.pending || (ref in st.calls && st'.pending == st.pending + multiset{ref}))
  {
  }

  lemma CommitFlow(cfg: Config, q: string, st: State, ref: nat)
    requires Flow(cfg, st, q)
    ensures Flow(cfg, Commit(cfg, st, ref), q)
  {
    var st' := Commit(cfg, st, ref);
    Staging.CommitIsNeutral(cfg, st, ref);
    CommitFields(cfg, st, ref);
    var mid := st'.(pending := st.pending);
    SameFlow(cfg, st, mid, q);
    if st'.pending != st.pending {
      assert Immediate(cfg, q) ==> NotOf(st, q, ref);
      AddRef(cfg, q, mid, st', ref);
    }
  }

  lemma CommitGood(cfg: Config, owner: string -> string, q: string, st: State, ref: nat)
    requires Good(cfg, owner, q, st)
    ensures Good(cfg, owner, q, Commit(cfg, st, ref))
  {
    CommitFlow(cfg, q, st, ref);
    CommitFields(cfg, st, ref);
    QuietGood(cfg, owner, q, st, Commit(cfg, st, ref));
  }

  lemma RunPendingGood(cfg: Config, owner: string -> string, q: string, st: State, ref: nat)
    requires ExactUsage(cfg) && Good(cfg, owner, q, st) && WritesTidy(owner, RunPending(cfg, st, ref))
    requires Small(owner, RunPending(cfg, st, ref).store)
    ensures Good(cfg, owner, q, RunPending(cfg, st, ref))
  {
    if ref in st.pending && ref < |st.triggers| {
      var mid := st.(pending := st.pending - multiset{ref});
      assert Immediate(cfg, q) ==> NotOf(st, q, ref);
      SameFlow(cfg, st, mid, q);
      QuietGood(cfg, owner, q, st, mid);
      ApplyGood(cfg, owner, q, mid, st.triggers[ref].spore, st.triggers[ref].bypass);
    }
  }

  /** The step and everything on its way keeps each policy's bytes below the exact range. */
  ghost predicate SmallStep(cfg: Config, owner: string -> string, st: State, l: Label)
  {
    if l.Timer? then SmallPass(cfg, owner, Unstage(st, l.uuid, Expired(l.uuid)), l.order, l.missingFirsts)
    else Small(owner, Step(cfg, st, l).store)
  }

  lemma StepGood(cfg: Config, owner: string -> string, q: string, st: State, l: Label)
    requires ExactUsage(cfg) && Good(cfg, owner, q, st) && WritesTidy(owner, Step(cfg, st, l))
    requires SmallStep(cfg, owner, st, l)
    ensures Good(cfg, owner, q, Step(cfg, st, l))
  {
    match l {
      case Receive(s, missingFirst) => EndorseGood(cfg, owner, q, st, s, missingFirst);
      case Timer(uuid, order, missingFirsts) => CollectGood(cfg, owner, q, st, uuid, order, missingFirsts);
      case Spawned(ref) => RunPendingGood(cfg, owner, q, st, ref);
      case FirstRegion(e) => RegisterGood(cfg, owner, q, st, e);
      case SecondRegion(ref) => CommitGood(cfg, owner, q, st, ref);
      case Tick(_) => SameGood(cfg, owner, q, st, Step(cfg, st, l));
      case Sweeping(_) => SameGood(cfg, owner, q, st, Step(cfg, st, l));
    }
  }

  lemma SameGood(cfg: Config, owner: string -> string, q: string, st: State, st': State)
    requires Good(cfg, owner, q, st) && st'.store == st.store && st'.writes == st.writes
    requires st'.triggers == st.triggers && st'.staging == st.staging
    requires st'.calls == st.calls && st'.pending == st.pending
    ensures Good(cfg, owner, q, st')
  {
    SameFlow(cfg, st, st', q);
    QuietGood(cfg, owner, q, st, st');
  }

  // ---------------------------------------------------------------- writes only grow

  lemma {:induction false} ReconsiderAllWrites(cfg: Config, st: State, order: seq<string>, missingFirst: set<string>)
    ensures st.writes <= ReconsiderAll(cfg, st, order, missingFirst).writes
    decreases |order|
  {
    if order != [] {
      ReconsiderAllWrites(cfg, Reconsider(cfg, st, order[0], missingFirst), order[1..], missingFirst);
    }
  }

  lemma StepWrites(cfg: Config, st: State, l: Label)
    ensures st.writes <= Step(cfg, st, l).writes
  {
    match l {
      case Timer(uuid, order, missingFirsts) =>
        ReconsiderAllWrites(cfg, Unstage(st, uuid, Expired(uuid)), order, missingFirsts);
      case _ =>
    }
  }

  lemma TidyBefore(owner: string -> string, st: State, st': State)
    requires WritesTidy(owner, st') && st.writes <= st'.writes
    ensures WritesTidy(owner, st)
  {
    forall i | 0 <= i < |st.writes| ensures Tidy(owner, st.writes[i].spore) {
      assert st'.writes[i] == st.writes[i];
    }
  }

  // ---------------------------------------------------------------- every run

  /** No policy outgrows the exact range on the way. */
  ghost predicate SmallRun(cfg: Config, owner: string -> string, now: int, ls: seq<Label>)
  {
    forall i :: 0 <= i < |ls| ==> SmallStep(cfg, owner, RunLabels(cfg, Initial(now), ls[..i]), ls[i])
  }

  lemma InitialGood(cfg: Config, owner: string -> string, q: string, now: int)
    requires ExactUsage(cfg)
    ensures Good(cfg, owner, q, Initial(now))
  {
    forall p ensures RecordedUsage(cfg, map[], p) == Some(OwnedSize(map[], owner, p)) {
      assert Owned(map[], owner, p) == {};
    }
    assert Owned(map[], owner, q) == {};
  }

  lemma {:induction false} TidyRunsAreGood(cfg: Config, owner: string -> string, q: string, now: int, ls: seq<Label>)
    requires ExactUsage(cfg) && SmallRun(cfg, owner, now, ls) && WritesTidy(owner, RunLabels(cfg, Initial(now), ls))
    ensures Good(cfg, owner, q, RunLabels(cfg, Initial(now), ls))
    decreases |ls|
  {
    if ls == [] {
      InitialGood(cfg, owner, q, now);
    } else {
      var before, last := ls[..|ls| - 1], ls[|ls| - 1];
      SmallPrefix(cfg, owner, now, ls);
      var st := RunLabels(cfg, Initial(now), before);
      StepWrites(cfg, st, last);
      TidyBefore(owner, st, Step(cfg, st, last));
      TidyRunsAreGood(cfg, owner, q, now, before);
      StepGood(cfg, owner, q, st, last);
    }
  }

  lemma SmallPrefix(cfg: Config, owner: string -> string, now: int, ls: seq<Label>)
    requires SmallRun(cfg, owner, now, ls) && ls != []
    ensures SmallRun(cfg, owner, now, ls[..|ls| - 1])
    ensures SmallStep(cfg, owner, RunLabels(cfg, Initial(now), ls[..|ls| - 1]), ls[|ls| - 1])
  {
    var before := ls[..|ls| - 1];
    forall i | 0 <= i < |before|
      ensures SmallStep(cfg, owner, RunLabels(cfg, Initial(now), before[..i]), before[i])
    {
      assert before[..i] == ls[..i] && before[i] == ls[i];
    }
  }

  /** Each key is only written under one policy. */
  ghost predicate OneOwner(owner: string -> string, st: State)
  {
    forall i :: 0 <= i < |st.writes| ==> Keeping(owner, st.writes[i].spore)
  }

  /** No spore let in by a requirement mismatch has overwritten a usage. */
  ghost predicate UsagesSpared(st: State)
  {
    forall i :: 0 <= i < |st.writes| && st.writes[i].bypass ==> Sparing(st.writes[i].spore)
  }

  lemma ClearIsTidy(owner: string -> string, st: State)
    requires Versions.Clear(st) && OneOwner(owner, st) && UsagesSpared(st)
    ensures WritesTidy(owner, st)
  {
    forall i | 0 <= i < |st.writes| ensures Tidy(owner, st.writes[i].spore) {
      var s := st.writes[i].spore;
      if !st.writes[i].bypass {
        assert Versions.NoInternal(s);
        forall j | 0 <= j < |s.operations| ensures !IsUsage(s.operations[j].key) {
          UsageIsInternal(s.operations[j].key);
        }
      }
    }
  }

  lemma UsageIsInternal(k: string)
    ensures IsUsage(k) ==> Internal(k)
  {
    if IsUsage(k) {
      var prefix := INTERNAL_PREFIX + "/size" + "/";
      assert k[..|INTERNAL_PREFIX|] == prefix[..|INTERNAL_PREFIX|] == INTERNAL_PREFIX;
    }
  }

  /**
   * In every run from an empty store in which each key is written under one policy only, whatever
   * else is received, the recorded usage of every policy equals the bytes it owns, unless a spore
   * let in by a requirement mismatch has overwritten a usage; and a policy that applies its spores
   * at once stays within MaxSize and MaxOpSize, unless one of its own spores was let in that way.
   */
  lemma EveryRunIsAccounted(cfg: Config, owner: string -> string, q: string, now: int, ls: seq<Label>)
    requires ExactUsage(cfg) && SmallRun(cfg, owner, now, ls)
    requires OneOwner(owner, RunLabels(cfg, Initial(now), ls)) && UsagesSpared(RunLabels(cfg, Initial(now), ls))
    ensures Good(cfg, owner, q, RunLabels(cfg, Initial(now), ls))
  {
    Versions.EveryRunIsNeat(cfg, now, ls);
    ClearIsTidy(owner, RunLabels(cfg, Initial(now), ls));
    TidyRunsAreGood(cfg, owner, q, now, ls);
  }
}
