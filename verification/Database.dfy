/**
 * The DB object of db/db.go, db/endorsement.go and db/policy.go: the methods with their loops
 * and in-place updates, each proved to make the step that module Node describes.
 */
module Database {
  import opened Prelude
  import opened Values
  import opened Operations
  import opened Execution
  import opened Node

  // ---------------------------------------------------------------- loops that only read

  /** The requirement loop of CanEndorse, in the order of a Go map. */
  method ScanRequirements(store: Store, s: Spore) returns (r: Requirement, ghost missingFirst: bool)
    ensures r.Met? <==> !AnyMissing(store, s) && !AnyMismatch(store, s)
    ensures (r.Missing? ==> AnyMissing(store, s)) && (r.Mismatch? ==> AnyMismatch(store, s))
    ensures r == CheckRequirements(store, s, missingFirst)
  {
    missingFirst := false;
    var todo := s.requirements.Keys;
    while todo != {}
      invariant todo <= s.requirements.Keys
      invariant forall k :: k in s.requirements.Keys - todo ==> k in store && store[k].version == s.requirements[k]
    {
      var k :| k in todo;
      if k !in store {
        missingFirst := true;
        return Missing, missingFirst;
      }
      if store[k].version != s.requirements[k] {
        return Mismatch, missingFirst;
      }
      todo := todo - {k};
    }
    return Met, missingFirst;
  }

  /** DB.Check: the specifications are scanned in order. */
  method CheckOperation(cfg: Config, policy: string, o: Operation, raw: Bytes) returns (v: Verdict)
    ensures v == Check(cfg, policy, o, raw)
  {
    if policy !in cfg.policies {
      return UnknownPolicy;
    }
    var p := cfg.policies[policy];
    if Internal(o.key) {
      return OpSystemKey;
    }
    if p.maxOpSize > 0 && |raw| > p.maxOpSize {
      return OpTooLarge;
    }
    var valid := false;
    for i := 0 to |p.specs|
      invariant valid <==> exists j: nat :: j < i && SpecMatches(p, j, o.key)
      invariant forall j: nat :: j < i && SpecMatches(p, j, o.key) ==> Allows(p.specs[j], o.op)
    {
      if SpecMatches(p, i, o.key) {
        if !Allows(p.specs[i], o.op) {
          return OpNotAllowed;
        }
        valid := true;
      }
    }
    if !valid {
      return OpDisabledKey;
    }
    return Ok;
  }

  /** The first time a key is met its old size is added. */
  method Fetch(store: Store, values: ValueMap, k: string, oldSize: nat)
    returns (v: ValueState, values': ValueMap, oldSize': nat)
    requires oldSize == StoredSize(store, values.Keys)
    ensures v == Current(store, values, k)
    ensures values' == values[k := v] && oldSize' == StoredSize(store, values'.Keys)
  {
    v, values', oldSize' := Current(store, values, k), values, oldSize;
    if k !in values {
      SumInsert(values.Keys, StoredLength(store), k);
      oldSize' := oldSize + |Load(store, k)|;
      values' := values[k := v];
      assert values'.Keys == values.Keys + {k};
    } else {
      assert values[k := v] == values;
    }
  }

  /** The dry run of CanEndorse. */
  method Simulate(cfg: Config, store: Store, s: Spore) returns (c: Checked, oldSize: nat)
    ensures c == DryRun(cfg, store, s.policy, s.operations, map[])
    ensures c.Passed? ==> oldSize == StoredSize(store, c.values.Keys)
  {
    var values: ValueMap := map[];
    oldSize := 0;
    for i := 0 to |s.operations|
      invariant DryRun(cfg, store, s.policy, s.operations, map[]) ==
                DryRun(cfg, store, s.policy, s.operations[i..], values)
      invariant oldSize == StoredSize(store, values.Keys)
    {
      var o := s.operations[i];
      assert s.operations[i..][1..] == s.operations[i + 1..];
      var v;
      ghost var before := values;
      v, values, oldSize := Fetch(store, values, o.key, oldSize);
      match Exec(cfg.arith, o.op, o.data, v) {
        case Failed(e) =>
          return Refused(ExecFailed(e)), oldSize;
        case Done(v') =>
          var check := CheckOperation(cfg, s.policy, o, v'.raw);
          if check != Ok {
            return Refused(check), oldSize;
          }
          assert before[o.key := v'] == values[o.key := v'];
          assert values[o.key := v'].Keys == values.Keys;
          values := values[o.key := v'];
      }
    }
    c := Passed(values);
  }

  /** The loop of Apply. */
  method Execute(cfg: Config, store: Store, s: Spore) returns (r: Run, oldSize: nat)
    ensures r == RunOps(cfg.arith, store, s.operations, map[])
    ensures r.Finished? ==> oldSize == StoredSize(store, r.values.Keys)
  {
    var values: ValueMap := map[];
    oldSize := 0;
    for i := 0 to |s.operations|
      invariant RunOps(cfg.arith, store, s.operations, map[]) == RunOps(cfg.arith, store, s.operations[i..], values)
      invariant oldSize == StoredSize(store, values.Keys)
    {
      var o := s.operations[i];
      assert s.operations[i..][1..] == s.operations[i + 1..];
      var v;
      ghost var before := values;
      v, values, oldSize := Fetch(store, values, o.key, oldSize);
      match Exec(cfg.arith, o.op, o.data, v) {
        case Failed(e) =>
          return Aborted(e), oldSize;
        case Done(v') =>
          assert before[o.key := v'] == values[o.key := v'];
          assert values[o.key := v'].Keys == values.Keys;
          values := values[o.key := v'];
      }
    }
    r := Finished(values);
  }

  /** Every value of the run fits in memory. */
  ghost predicate RunFits(a: Arithmetic, store: Store, ops: seq<Operation>, values: ValueMap)
    decreases |ops|
  {
    ops != [] ==>
      var o := ops[0];
      && Allocatable(Current(store, values, o.key), o.data)
      && match Exec(a, o.op, o.data, Current(store, values, o.key))
         case Done(v) => RunFits(a, store, ops[1..], values[o.key := v])
         case Failed(_) => true
  }

  /** The object under a key stands for the value of the specification. */
  ghost predicate Stands(objects: map<string, Value>, values: ValueMap, k: string)
    requires k in objects && k in values
    reads objects[k], objects[k].vset
  {
    objects[k].Valid() && objects[k].State() == values[k]
  }

  /** Two keys share neither their object nor its cached set. */
  ghost predicate Separate(objects: map<string, Value>, j: string, k: string)
    requires j in objects && k in objects
    reads objects[j], objects[k]
  {
    j != k ==> objects[j] != objects[k] && (objects[j].vset == null || objects[j].vset != objects[k].vset)
  }

  ghost predicate Mirrors(objects: map<string, Value>, values: ValueMap)
    reads set k | k in objects :: objects[k]
    reads set k | k in objects :: objects[k].vset
  {
    && objects.Keys == values.Keys
    && (forall k :: k in objects ==> Stands(objects, values, k))
    && (forall j, k :: j in objects && k in objects ==> Separate(objects, j, k))
  }

  /** One operation on the object of its key; no other object is touched. */
  method RunObject(a: Arithmetic, objects: map<string, Value>, ghost values: ValueMap, o: Operation)
    returns (err: Option<ExecError>)
    requires o.key in objects && Mirrors(objects, values) && Allocatable(values[o.key], o.data)
    modifies objects[o.key], objects[o.key].vset
    ensures forall k :: k in objects ==>
              objects[k].vset == old(objects[k].vset) || objects[k].vset == null || fresh(objects[k].vset)
    ensures match Exec(a, o.op, o.data, values[o.key])
            case Done(v) => err.None? && Mirrors(objects, values[o.key := v])
            case Failed(e) => err == Some(e)
  {
    assert Stands(objects, values, o.key);
    var x := objects[o.key];
    x.EnoughRoom(o.data);
    forall k | k in objects && k != o.key
      ensures objects[k] != x && (objects[k].vset == null || objects[k].vset != x.vset) && Stands(objects, values, k)
    {
      assert Separate(objects, k, o.key);
    }
    err := x.Run(a, o.op, o.data);
    if err.None? {
      ghost var values' := values[o.key := Exec(a, o.op, o.data, values[o.key]).value];
      forall j, k | j in objects && k in objects ensures Separate(objects, j, k) {
        assert old(Separate(objects, j, k));
      }
    }
  }

  /** A key met for the first time gets an object of its own. */
  method FetchObject(store: Store, objects: map<string, Value>, ghost values: ValueMap, k: string)
    returns (objects': map<string, Value>)
    requires Mirrors(objects, values)
    ensures Mirrors(objects', values[k := Current(store, values, k)])
    ensures forall j :: j in objects' ==>
              (j in objects && objects'[j] == objects[j]) || (fresh(objects'[j]) && objects'[j].vset == null)
  {
    if k in objects {
      assert values[k := Current(store, values, k)] == values;
      return objects;
    }
    var v := new Value(Load(store, k));
    objects' := objects[k := v];
    ghost var values' := values[k := Current(store, values, k)];
    forall j | j in objects' ensures Stands(objects', values', j) {
      assert j != k ==> Stands(objects, values, j);
    }
    forall i, j | i in objects' && j in objects' ensures Separate(objects', i, j) {
      assert i != k && j != k ==> Separate(objects, i, j);
    }
  }

  lemma RunUnfolds(a: Arithmetic, store: Store, ops: seq<Operation>, i: nat, values: ValueMap, values': ValueMap)
    requires i < |ops| && RunFits(a, store, ops[i..], values)
    requires values' == values[ops[i].key := Current(store, values, ops[i].key)]
    ensures var o := ops[i];
            && Allocatable(values'[o.key], o.data)
            && match Exec(a, o.op, o.data, values'[o.key])
               case Done(v) =>
                 && RunFits(a, store, ops[i + 1..], values'[o.key := v])
                 && RunOps(a, store, ops[i..], values) == RunOps(a, store, ops[i + 1..], values'[o.key := v])
               case Failed(e) => RunOps(a, store, ops[i..], values) == Aborted(e)
  {
    var o := ops[i];
    assert ops[i..][0] == o && ops[i..][1..] == ops[i + 1..];
    match Exec(a, o.op, o.data, values'[o.key]) {
      case Done(v) => assert values'[o.key := v] == values[o.key := v];
      case Failed(_) =>
    }
  }

  /**
   * The loop of Apply and of CanEndorse on the Value objects themselves, caches included: one
   * object per key, loaded from the store the first time the key is met.
   */
  method ExecuteOnValues(a: Arithmetic, store: Store, s: Spore)
    returns (err: Option<ExecError>, objects: map<string, Value>)
    requires RunFits(a, store, s.operations, map[])
    ensures match RunOps(a, store, s.operations, map[])
            case Finished(values) => err.None? && Mirrors(objects, values)
            case Aborted(e) => err == Some(e)
  {
    objects := map[];
    ghost var values: ValueMap := map[];
    for i := 0 to |s.operations|
      invariant Mirrors(objects, values)
      invariant forall k :: k in objects ==> fresh(objects[k]) && (objects[k].vset != null ==> fresh(objects[k].vset))
      invariant RunFits(a, store, s.operations[i..], values)
      invariant RunOps(a, store, s.operations, map[]) == RunOps(a, store, s.operations[i..], values)
    {
      var o := s.operations[i];
      ghost var values' := values[o.key := Current(store, values, o.key)];
      RunUnfolds(a, store, s.operations, i, values, values');
      objects := FetchObject(store, objects, values, o.key);
      err := RunObject(a, objects, values', o);
      if err.Some? {
        return;
      }
      values := values'[o.key := Exec(a, o.op, o.data, values'[o.key]).value];
    }
    err := None;
  }

  /** The sum of the lengths of the simulated values. */
  method TotalSize(values: ValueMap) returns (n: nat)
    ensures n == ValuesSize(values)
  {
    n := 0;
    var todo := values.Keys;
    ghost var done := {};
    while todo != {}
      invariant todo !! done && todo + done == values.Keys
      invariant n == Sum(done, ValueLength(values))
    {
      var k :| k in todo;
      SumInsert(done, ValueLength(values), k);
      n := n + |values[k].raw|;
      todo, done := todo - {k}, done + {k};
    }
    assert done == values.Keys;
  }

  /** The batch that Apply hands to the store, usage entry included. */
  method Prepare(cfg: Config, store: Store, s: Spore) returns (r: Run, batch: Option<Store>)
    ensures r == RunOps(cfg.arith, store, s.operations, map[])
    ensures r.Finished? ==> (batch.Some? <==> RecordedUsage(cfg, store, s.policy).Some?)
    ensures r.Finished? && batch.Some? ==> batch.value == Batch(cfg, store, s.policy, r.values)
  {
    batch := None;
    var oldSize;
    r, oldSize := Execute(cfg, store, s);
    if r.Aborted? {
      return;
    }
    var newSize := TotalSize(r.values);
    var usage := RecordedUsage(cfg, store, s.policy);
    if usage.None? {
      return;
    }
    var recorded := Entry(cfg.arith.render(cfg.ofUint(Wrapped(usage.value, oldSize, newSize))), cfg.nilVersion);
    batch := Some(map[UsageKey(s.policy) := recorded] + Written(cfg.hash, r.values));
  }

  /** addEndorsementMap: has this emitter endorsed already? */
  method EndorsedBy(es: seq<Endorsement>, emitter: string) returns (found: bool)
    ensures found <==> AlreadyBy(es, emitter)
  {
    for i := 0 to |es|
      invariant forall j :: 0 <= j < i ==> es[j].emitter != emitter
    {
      if es[i].emitter == emitter {
        return true;
      }
    }
    return false;
  }

  // ---------------------------------------------------------------- the object

  class DB {
    const cfg: Config
    var store: Store
    var triggers: seq<Trigger>
    var staging: map<string, nat>
    var waiting: map<string, nat>
    var applied: map<string, int>
    var now: int
    ghost var calls: multiset<nat>
    ghost var pending: multiset<nat>
    ghost var events: seq<Event>
    ghost var writes: seq<Application>
    ghost var sent: set<nat>

    ghost function Value(): State
      reads this
    {
      State(store, triggers, staging, waiting, applied, calls, pending, now, events, writes, sent)
    }

    constructor (cfg: Config, now: int)
      ensures this.cfg == cfg && Value() == Initial(now)
    {
      this.cfg, this.now := cfg, now;
      store, triggers, staging, waiting, applied := map[], [], map[], map[], map[];
      calls, pending, events, writes, sent := multiset{}, multiset{}, [], [], {};
    }

    method CheckConflictWithStaging(s: Spore) returns (conflict: bool)
      ensures conflict <==> ConflictsWithStaging(Value(), s)
    {
      var todo := staging.Keys;
      while todo != {}
        invariant todo <= staging.Keys
        invariant forall u :: u in staging.Keys - todo && staging[u] < |triggers| ==>
                    !SporesConflict(s, triggers[staging[u]].spore)
      {
        var u :| u in todo;
        if staging[u] < |triggers| {
          var err := CheckConflict(s, triggers[staging[u]].spore);
          if err {
            return true;
          }
        }
        todo := todo - {u};
      }
      return false;
    }

    /** `mismatch` tells that the checks after the requirements were skipped. */
    method CanEndorse(s: Spore) returns (v: Verdict, mismatch: bool, ghost missingFirst: bool)
      ensures v == Node.CanEndorse(cfg, Value(), s, true) || v == Node.CanEndorse(cfg, Value(), s, false)
      ensures v == Node.CanEndorse(cfg, Value(), s, missingFirst)
      ensures v == Ok ==> mismatch == Bypasses(Value(), s, missingFirst)
    {
      mismatch, missingFirst := false, false;
      if !CheckDeadline(s, now) {
        return DeadlineExpired, mismatch, missingFirst;
      }
      var requirement;
      requirement, missingFirst := ScanRequirements(store, s);
      match requirement {
        case Missing => return KeyNotFound, mismatch, missingFirst;
        case Mismatch => return Ok, true, missingFirst;
        case Met =>
      }
      var run, oldSize := Simulate(cfg, store, s);
      if run.Refused? {
        return run.verdict, mismatch, missingFirst;
      }
      var usage := RecordedUsage(cfg, store, s.policy);
      if usage.None? || s.policy !in cfg.policies {
        return Crashed, mismatch, missingFirst;
      }
      var newSize := TotalSize(run.values);
      var quota := cfg.policies[s.policy].maxSize;
      if quota > 0 && Wrapped(usage.value, oldSize, newSize) > quota {
        return QuotaExceeded, mismatch, missingFirst;
      }
      var conflict := CheckConflictWithStaging(s);
      return if conflict then ConflictingWithStaging else Ok, mismatch, missingFirst;
    }

    /** The grace-period and duplicate checks of Apply. */
    method MayApply(s: Spore) returns (err: ApplyError)
      ensures err == Applied || err == ApplyVerdict(cfg, Value(), s)
      ensures err == Applied ==>
                s.policy in cfg.policies && WithinGrace(cfg.policies[s.policy], s, now) && s.uuid !in applied
    {
      if s.policy !in cfg.policies {
        return ApplyCrashed;
      }
      if !WithinGrace(cfg.policies[s.policy], s, now) {
        return GracePeriodExpired;
      }
      if s.uuid in applied {
        return DuplicatedApplication;
      }
      return Applied;
    }

    method Apply(s: Spore, bypass: bool) returns (err: ApplyError)
      modifies this
      ensures err == ApplyVerdict(cfg, old(Value()), s)
      ensures Value() == Node.Apply(cfg, old(Value()), s, bypass)
    {
      err := MayApply(s);
      if err != Applied {
        return;
      }
      var run, batch := Prepare(cfg, store, s);
      if run.Aborted? {
        return ApplyFailed(run.error);
      }
      if batch.None? {
        return ApplyCrashed;
      }
      assert ApplyVerdict(cfg, old(Value()), s) == Applied;
      store := store + batch.value;
      applied := applied[s.uuid := Death(cfg.policies[s.policy], s)];
      writes := writes + [Application(s, bypass)];
    }

    /** A promotion that does not go through staging. */
    method ApplyAtOnce(s: Spore, bypass: bool, ghost signed: bool) returns (crashed: bool)
      modifies this
      ensures Value() == Node.Apply(cfg, Log(old(Value()), Promoted(s, bypass, signed, false)), s, bypass)
      ensures crashed <==> ApplyVerdict(cfg, old(Value()), s).ApplyCrashed?
    {
      events := events + [Promoted(s, bypass, signed, false)];
      assert Value() == Log(old(Value()), Promoted(s, bypass, signed, false));
      SameVerdict(cfg, old(Value()), Value(), s);
      var err := Apply(s, bypass);
      crashed := err == ApplyCrashed;
    }

    method ExecuteEndorsement(s: Spore, bypass: bool) returns (crashed: bool)
      modifies this
      ensures Value() == Promote(cfg, old(Value()), s, bypass)
      ensures crashed <==> PromoteCrashes(cfg, old(Value()), s)
    {
      if s.policy !in cfg.policies {
        return true;
      }
      var policy := cfg.policies[s.policy];
      if policy.quorum == 0 {
        crashed := ApplyAtOnce(s, bypass, false);
        return;
      }
      var es: seq<Endorsement> := [];
      if LocalEndorser(cfg, policy) {
        var signature := cfg.ring.sign(s);
        if signature.None? {
          return false;
        }
        if policy.quorum == 1 {
          crashed := ApplyAtOnce(s, bypass, true);
          return;
        }
        es := [Endorsement(s.uuid, cfg.identity, signature.value)];
      }
      events := events + [Promoted(s, bypass, es != [], true)];
      staging := staging[s.uuid := |triggers|];
      triggers := triggers + [Trigger(s, es, bypass)];
      return false;
    }

    method Endorse(s: Spore) returns (v: Verdict, ghost missingFirst: bool)
      modifies this
      ensures Value() == Node.Endorse(cfg, old(Value()), s, missingFirst)
      ensures v == EndorseError(cfg, old(Value()), s, missingFirst)
    {
      missingFirst := false;
      if !Signed(cfg, s) {
        return BadSignature, missingFirst;
      }
      var mismatch;
      v, mismatch, missingFirst := CanEndorse(s);
      if v == ConflictingWithStaging {
        waiting := waiting[s.uuid := |triggers|];
        triggers := triggers + [Trigger(s, [], false)];
        v := Ok;
      } else if v == Ok {
        var crashed := ExecuteEndorsement(s, mismatch);
        v := if crashed then Crashed else Ok;
      }
    }

    /** addEndorsementMap, up to the append. */
    method VetEndorsement(e: Endorsement, ma: map<string, nat>) returns (v: Vetting)
      ensures v == VetIn(cfg, Value(), ma, e)
    {
      if e.uuid !in ma || ma[e.uuid] >= |triggers| {
        return NoRelatedSpore;
      }
      var t := triggers[ma[e.uuid]];
      var already := EndorsedBy(t.endorsements, e.emitter);
      if already {
        return DuplicatedEndorsement;
      }
      var from := Local(cfg, e.emitter);
      var pub := cfg.ring.publicOf(from);
      if pub.None? {
        return UnknownIdentity;
      }
      if t.spore.policy !in cfg.policies || !Endorser(cfg.policies[t.spore.policy], pub.value) {
        return UnallowedEndorser;
      }
      if !cfg.ring.verify(from, t.spore, e.signature) {
        return InvalidSignature;
      }
      return Accepted;
    }

    /** The first lock region of AddEndorsement, and the waiting list if there is no staged spore. */
    method RegisterEndorsement(e: Endorsement) returns (v: Vetting, trigger: Option<nat>)
      modifies this
      ensures Value() == Register(cfg, old(Value()), e)
      ensures v == VetAnywhere(cfg, old(Value()), e) && trigger == Joined(cfg, old(Value()), e)
      ensures trigger.Some? ==> trigger.value in calls && trigger.value < |triggers|
    {
      trigger := None;
      v := VetEndorsement(e, staging);
      if v == Accepted {
        var ref := staging[e.uuid];
        triggers := triggers[ref := triggers[ref].(endorsements := triggers[ref].endorsements + [e])];
        calls := calls + multiset{ref};
        trigger := Some(ref);
      } else if v == NoRelatedSpore {
        v := VetEndorsement(e, waiting);
        if v == Accepted {
          var ref := waiting[e.uuid];
          triggers := triggers[ref := triggers[ref].(endorsements := triggers[ref].endorsements + [e])];
        }
      }
    }

    /** delete(db.staging, uuid): nothing happens if the spore is not there. */
    method Unlist(uuid: string, ghost e: Event)
      modifies this`staging, this`events
      ensures Value() == Unstage(old(Value()), uuid, e)
    {
      if uuid in staging {
        events := events + [e];
      }
      staging := staging - {uuid};
    }

    /** The second lock region: should the spore be executed? */
    method CommitEndorsement(ref: nat) returns (spawn: bool)
      requires ref in calls && ref < |triggers|
      modifies this
      ensures Value() == Commit(cfg, old(Value()), ref)
      ensures spawn <==> QuorumReached(cfg, old(triggers)[ref])
    {
      var t := triggers[ref];
      spawn := QuorumReached(cfg, t);
      if spawn {
        Unlist(t.spore.uuid, Quorate(t.spore.uuid));
        pending := pending + multiset{ref};
        sent := sent + {ref};
      }
      calls := calls - multiset{ref};
    }

    /** The iteration of the gc loop on one waiting spore. */
    method ReconsiderOne(k: string) returns (ghost missingFirst: bool)
      requires k in waiting && waiting[k] < |triggers|
      modifies this
      ensures Value() == Reconsider(cfg, old(Value()), k, if missingFirst then {k} else {})
    {
      var s := triggers[waiting[k]].spore;
      var v, mismatch;
      v, mismatch, missingFirst := CanEndorse(s);
      if v == Ok {
        var crashed := ExecuteEndorsement(s, mismatch);
        if crashed {
          return;
        }
        waiting := waiting - {k};
      } else if v == DeadlineExpired {
        waiting := waiting - {k};
      }
    }

    /** AddEndorsement without any other step between its two regions. */
    method AddEndorsement(e: Endorsement) returns (v: Vetting)
      modifies this
      ensures v == VetAnywhere(cfg, old(Value()), e)
      ensures Value() == match Joined(cfg, old(Value()), e)
                         case None => Register(cfg, old(Value()), e)
                         case Some(ref) => Commit(cfg, Register(cfg, old(Value()), e), ref)
    {
      var trigger;
      v, trigger := RegisterEndorsement(e);
      if trigger.Some? {
        var _ := CommitEndorsement(trigger.value);
      }
    }

    /** A message on the gc channel: drop the spore, then go through `waiting` in the order of a Go map. */
    method CollectGarbage(uuid: string) returns (ghost order: seq<string>, ghost missingFirst: set<string>)
      requires forall k :: k in waiting ==> waiting[k] < |triggers|
      modifies this
      ensures Distinct(order) && Elements(order) == old(waiting).Keys
      ensures Value() == Collect(cfg, old(Value()), uuid, order, missingFirst)
    {
      Unlist(uuid, Expired(uuid));
      ghost var start := Value();
      order, missingFirst := [], {};
      var todo := waiting.Keys;
      while todo != {}
        invariant todo <= waiting.Keys && forall k :: k in waiting ==> waiting[k] < |triggers|
        invariant Distinct(order) && forall k :: k in order <==> k in old(waiting).Keys - todo
        invariant missingFirst <= Elements(order)
        invariant Value() == ReconsiderAll(cfg, start, order, missingFirst)
      {
        var k :| k in todo;
        todo := todo - {k};
        assert k !in order;
        ghost var first := ReconsiderOne(k);
        PassSnoc(cfg, start, order, k, missingFirst, first);
        ElementsSnoc(order, k);
        order, missingFirst := order + [k], if first then missingFirst + {k} else missingFirst;
      }
    }

    /** Clean, with the comparison as written. */
    method CleanApplied()
      modifies this
      ensures Value() == Clean(old(Value()), AsWritten)
    {
      var todo := applied.Keys;
      var before := applied;
      while todo != {}
        invariant todo <= before.Keys
        invariant applied == map u | u in before && (u in todo || !Sweeps(AsWritten, before[u], now)) :: before[u]
        invariant Value() == old(Value()).(applied := applied)
      {
        var u :| u in todo;
        if before[u] > 0 && before[u] > now {
          applied := applied - {u};
        }
        todo := todo - {u};
      }
    }
  }

  /** Apply looks at the store, the applied spores and the clock only. */
  lemma SameVerdict(cfg: Config, st: State, st': State, s: Spore)
    requires st'.store == st.store && st'.applied == st.applied && st'.now == st.now
    ensures ApplyVerdict(cfg, st', s) == ApplyVerdict(cfg, st, s)
  {
  }

  // ---------------------------------------------------------------- the gc pass as a sequence

  lemma ReconsiderOnlyAsks(cfg: Config, st: State, k: string, a: set<string>, b: set<string>)
    requires k in a <==> k in b
    ensures Reconsider(cfg, st, k, a) == Reconsider(cfg, st, k, b)
  {
  }

  lemma {:induction false} ReconsiderAllOnlyAsks(cfg: Config, st: State, order: seq<string>, a: set<string>,
                                                 b: set<string>)
    requires forall k :: k in order ==> (k in a <==> k in b)
    ensures ReconsiderAll(cfg, st, order, a) == ReconsiderAll(cfg, st, order, b)
    decreases |order|
  {
    if order != [] {
      assert order[0] in order;
      ReconsiderOnlyAsks(cfg, st, order[0], a, b);
      ReconsiderAllOnlyAsks(cfg, Reconsider(cfg, st, order[0], a), order[1..], a, b);
    }
  }

  /** One more iteration, on a key not visited yet. */
  lemma PassSnoc(cfg: Config, st: State, order: seq<string>, k: string, missingFirst: set<string>, first: bool)
    requires k !in order && missingFirst <= Elements(order)
    ensures var more := if first then missingFirst + {k} else missingFirst;
            ReconsiderAll(cfg, st, order + [k], more) ==
            Reconsider(cfg, ReconsiderAll(cfg, st, order, missingFirst), k, if first then {k} else {})
  {
    var more := if first then missingFirst + {k} else missingFirst;
    ReconsiderOnlyAsks(cfg, ReconsiderAll(cfg, st, order, missingFirst), k, if first then {k} else {}, more);
    ReconsiderAllOnlyAsks(cfg, st, order, missingFirst, more);
    ReconsiderSnoc(cfg, st, order, k, more);
  }

  lemma {:induction false} ReconsiderSnoc(cfg: Config, st: State, order: seq<string>, k: string,
                                          missingFirst: set<string>)
    ensures ReconsiderAll(cfg, st, order + [k], missingFirst) ==
            Reconsider(cfg, ReconsiderAll(cfg, st, order, missingFirst), k, missingFirst)
    decreases |order|
  {
    if order == [] {
      assert order + [k] == [k] && [k][1..] == [];
      assert ReconsiderAll(cfg, Reconsider(cfg, st, k, missingFirst), [], missingFirst) ==
             Reconsider(cfg, st, k, missingFirst);
    } else {
      assert (order + [k])[1..] == order[1..] + [k];
      ReconsiderSnoc(cfg, Reconsider(cfg, st, order[0], missingFirst), order[1..], k, missingFirst);
    }
  }
}
