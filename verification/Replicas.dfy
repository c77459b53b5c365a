/**
 * Two nodes that apply the same compatible spores, each in the order in which its endorsements
 * happened to arrive, end with the same content, the same list of applied spores and the same
 * recorded usage (Apply in db/db.go, with the conflict table of db/operation.go).
 */
module Replicas {
  import opened Prelude
  import opened Values
  import opened Operations
  import opened Execution
  import opened Node
  import opened Confluence
  import opened Accounting
  import Staging
  import Versions

  /** When a node gets to apply each spore. */
  type Schedule = Spore -> int

  ghost function ApplyAt(cfg: Config, st: State, s: Spore, at: int): State
  {
    Apply(cfg, st.(now := at), s, false)
  }

  ghost function ApplyAll(cfg: Config, st: State, ss: seq<Spore>, when: Schedule): State
    decreases |ss|
  {
    if ss == [] then st else ApplyAll(cfg, ApplyAt(cfg, st, ss[0], when(ss[0])), ss[1..], when)
  }

  /** Nothing but the outcome of its operations can stop the spore from being applied. */
  ghost predicate Due(cfg: Config, owner: string -> string, st: State, s: Spore, at: int)
  {
    && s.policy in cfg.policies
    && WithinGrace(cfg.policies[s.policy], s, at)
    && s.uuid !in st.applied
    && Tidy(owner, s)
  }

  ghost predicate AllDue(cfg: Config, owner: string -> string, st: State, ss: seq<Spore>, when: Schedule)
  {
    && (forall i :: 0 <= i < |ss| ==> Due(cfg, owner, st, ss[i], when(ss[i])))
    && (forall i, j :: 0 <= i < j < |ss| ==> ss[i].uuid != ss[j].uuid)
  }

  /** No policy outgrows the exact range on the way. */
  ghost predicate StaysSmall(cfg: Config, owner: string -> string, st: State, ss: seq<Spore>, when: Schedule)
    decreases |ss|
  {
    ss != [] ==>
      var st' := ApplyAt(cfg, st, ss[0], when(ss[0]));
      Small(owner, st'.store) && StaysSmall(cfg, owner, st', ss[1..], when)
  }

  /** The two stores hold the same entries outside the node's own bookkeeping. */
  ghost predicate AgreeOff(store: Store, plain: Store)
  {
    forall k :: !IsUsage(k) ==> Slot(store, k) == Slot(plain, k)
  }

  // ---------------------------------------------------------------- one application

  lemma {:induction false} SameLoadsSameRun(a: Arithmetic, store: Store, plain: Store, ops: seq<Operation>,
                                            values: ValueMap)
    requires forall i :: 0 <= i < |ops| ==> Load(store, ops[i].key) == Load(plain, ops[i].key)
    ensures RunOps(a, store, ops, values) == RunOps(a, plain, ops, values)
    decreases |ops|
  {
    if ops != [] {
      var o := ops[0];
      assert Load(store, o.key) == Load(plain, o.key);
      match Exec(a, o.op, o.data, Current(store, values, o.key)) {
        case Done(v) => SameLoadsSameRun(a, store, plain, ops[1..], values[o.key := v]);
        case Failed(_) =>
      }
    }
  }

  lemma SparingRunsAlike(a: Arithmetic, store: Store, plain: Store, s: Spore)
    requires AgreeOff(store, plain) && Sparing(s)
    ensures RunOps(a, store, s.operations, map[]) == RunOps(a, plain, s.operations, map[])
  {
    forall i | 0 <= i < |s.operations|
      ensures Load(store, s.operations[i].key) == Load(plain, s.operations[i].key)
    {
      var k := s.operations[i].key;
      assert Slot(store, k) == Slot(plain, k);
    }
    SameLoadsSameRun(a, store, plain, s.operations, map[]);
  }

  lemma BatchAgrees(cfg: Config, store: Store, plain: Store, p: string, values: ValueMap)
    requires AgreeOff(store, plain) && RecordedUsage(cfg, store, p).Some?
    ensures AgreeOff(store + Batch(cfg, store, p, values), plain + Written(cfg.hash, values))
  {
    var store', plain' := store + Batch(cfg, store, p, values), plain + Written(cfg.hash, values);
    UsageKeys(p, p);
    forall k | !IsUsage(k) ensures Slot(store', k) == Slot(plain', k) {
      assert Slot(store, k) == Slot(plain, k);
    }
  }

  ghost function DeathOf(cfg: Config, s: Spore): int
    requires s.policy in cfg.policies
  {
    Death(cfg.policies[s.policy], s)
  }

  /** Of a due spore, Apply looks only at the outcome of the operations. */
  lemma DueVerdict(cfg: Config, owner: string -> string, st: State, s: Spore)
    requires Due(cfg, owner, st, s, st.now) && RecordedUsage(cfg, st.store, s.policy).Some?
    ensures ApplyVerdict(cfg, st, s) == Applied <==> Succeeds(cfg.arith, st.store, s)
  {
  }

  lemma AppliedIsWrite(cfg: Config, st: State, plain: Store, s: Spore)
    requires AgreeOff(st.store, plain) && Sparing(s) && ApplyVerdict(cfg, st, s) == Applied
    ensures Succeeds(cfg.arith, plain, s)
    ensures AgreeOff(Apply(cfg, st, s, false).store, Write(cfg.arith, cfg.hash, plain, s))
  {
    SparingRunsAlike(cfg.arith, st.store, plain, s);
    BatchAgrees(cfg, st.store, plain, s.policy, RunOps(cfg.arith, st.store, s.operations, map[]).values);
  }

  /** Outside its bookkeeping, Apply does to the store what `Write` does. */
  lemma ApplyIsWrite(cfg: Config, owner: string -> string, st: State, plain: Store, s: Spore, at: int)
    requires AgreeOff(st.store, plain) && Due(cfg, owner, st, s, at)
    requires RecordedUsage(cfg, st.store, s.policy).Some?
    ensures var st' := ApplyAt(cfg, st, s, at);
            && AgreeOff(st'.store, Write(cfg.arith, cfg.hash, plain, s))
            && st'.applied ==
               if Succeeds(cfg.arith, plain, s) then st.applied[s.uuid := DeathOf(cfg, s)] else st.applied
  {
    var there := st.(now := at);
    DueVerdict(cfg, owner, there, s);
    if Succeeds(cfg.arith, st.store, s) {
      AppliedIsWrite(cfg, there, plain, s);
      AppliedIsListed(cfg, there, s);
    } else {
      NothingApplied(cfg, there, s);
      SparingRunsAlike(cfg.arith, st.store, plain, s);
    }
  }

  lemma AppliedIsListed(cfg: Config, st: State, s: Spore)
    requires ApplyVerdict(cfg, st, s) == Applied
    ensures Apply(cfg, st, s, false).applied == st.applied[s.uuid := DeathOf(cfg, s)]
  {
  }

  lemma NothingApplied(cfg: Config, st: State, s: Spore)
    requires ApplyVerdict(cfg, st, s) != Applied
    ensures Apply(cfg, st, s, false) == st
  {
  }

  lemma ApplyKeepsBooks(cfg: Config, owner: string -> string, st: State, s: Spore, at: int)
    requires ExactUsage(cfg) && Accounted(cfg, owner, st.store) && Tidy(owner, s)
    requires Small(owner, ApplyAt(cfg, st, s, at).store)
    ensures Accounted(cfg, owner, ApplyAt(cfg, st, s, at).store)
  {
    if ApplyVerdict(cfg, st.(now := at), s) == Applied {
      TidyValues(cfg, owner, st.store, s);
      var values := RunOps(cfg.arith, st.store, s.operations, map[]).values;
      BatchSize(cfg, st.store, owner, s.policy, values);
      BatchAccounted(cfg, owner, st.store, s.policy, values);
    }
  }

  // ---------------------------------------------------------------- the list of applied spores

  /** `after` is `before` with exactly those spores of the list that succeed on `plain`. */
  ghost predicate Lists(cfg: Config, plain: Store, before: map<string, int>, ss: seq<Spore>, after: map<string, int>)
  {
    && (forall u :: u in before ==> u in after && after[u] == before[u])
    && (forall s :: s in ss ==> ListsOne(cfg, plain, s, after))
    && (forall u :: u in after ==> u in before || exists s :: s in ss && s.uuid == u)
  }

  ghost predicate ListsOne(cfg: Config, plain: Store, s: Spore, after: map<string, int>)
  {
    && (s.uuid in after <==> Succeeds(cfg.arith, plain, s))
    && (s.uuid in after && s.policy in cfg.policies ==> after[s.uuid] == DeathOf(cfg, s))
  }

  lemma ListsDetermine(cfg: Config, plain: Store, before: map<string, int>, ss: seq<Spore>, ps: seq<Spore>,
                       x: map<string, int>, y: map<string, int>)
    requires Lists(cfg, plain, before, ss, x) && Lists(cfg, plain, before, ps, y)
    requires forall s :: s in ss <==> s in ps
    requires forall s :: s in ss ==> s.policy in cfg.policies
    ensures x == y
  {
    forall u ensures u in x <==> u in y {
      if u in x && u !in before {
        var s :| s in ss && s.uuid == u;
        assert ListsOne(cfg, plain, s, x) && ListsOne(cfg, plain, s, y);
      }
      if u in y && u !in before {
        var s :| s in ps && s.uuid == u;
        assert ListsOne(cfg, plain, s, x) && ListsOne(cfg, plain, s, y);
      }
    }
    forall u | u in x ensures x[u] == y[u] {
      if u !in before {
        var s :| s in ss && s.uuid == u;
        assert ListsOne(cfg, plain, s, x) && ListsOne(cfg, plain, s, y);
      }
    }
  }

  // ---------------------------------------------------------------- a whole list

  lemma DueLater(cfg: Config, owner: string -> string, st: State, ss: seq<Spore>, when: Schedule)
    requires ss != [] && AllDue(cfg, owner, st, ss, when)
    ensures AllDue(cfg, owner, ApplyAt(cfg, st, ss[0], when(ss[0])), ss[1..], when)
  {
    var st' := ApplyAt(cfg, st, ss[0], when(ss[0]));
    forall i | 0 <= i < |ss[1..]| ensures Due(cfg, owner, st', ss[1..][i], when(ss[1..][i])) {
      assert Due(cfg, owner, st, ss[i + 1], when(ss[i + 1])) && ss[0].uuid != ss[i + 1].uuid;
    }
  }

  /** Listing the first spore and then the others lists them all. */
  lemma ListsCons(cfg: Config, plain: Store, plain': Store, before: map<string, int>, mid: map<string, int>,
                  ss: seq<Spore>, after: map<string, int>)
    requires ss != [] && ss[0].policy in cfg.policies
    requires mid == if Succeeds(cfg.arith, plain, ss[0]) then before[ss[0].uuid := DeathOf(cfg, ss[0])] else before
    requires forall s :: s in ss ==> s.uuid !in before
    requires forall s :: s in ss[1..] ==>
               s.uuid != ss[0].uuid && (Succeeds(cfg.arith, plain', s) <==> Succeeds(cfg.arith, plain, s))
    requires Lists(cfg, plain', mid, ss[1..], after)
    ensures Lists(cfg, plain, before, ss, after)
  {
    assert ss[0].uuid !in before;
    forall s | s in ss ensures ListsOne(cfg, plain, s, after) {
      if s in ss[1..] {
        assert ListsOne(cfg, plain', s, after);
      } else {
        assert s == ss[0];
        assert forall t :: t in ss[1..] ==> t.uuid != s.uuid;
      }
    }
    forall u | u in after && u !in before ensures exists s :: s in ss && s.uuid == u {
      if u !in mid {
        var s :| s in ss[1..] && s.uuid == u;
        assert s in ss;
      } else {
        assert ss[0] in ss;
      }
    }
  }

  lemma StableLater(cfg: Config, group: set<Spore>, plain: Store, ss: seq<Spore>, s: Spore)
    requires Exact(cfg.arith) && Compatible(group) && ss != [] && s in ss[1..] && s.uuid != ss[0].uuid
    requires forall t :: t in ss ==> t in group
    ensures Succeeds(cfg.arith, Write(cfg.arith, cfg.hash, plain, ss[0]), s) <==> Succeeds(cfg.arith, plain, s)
  {
    assert s in ss && ss[0] in ss;
    SuccessIsStable(cfg.arith, cfg.hash, plain, ss[0], s);
  }

  /** A list of applications is a list of writes, kept in the books and listed. */
  lemma {:induction false} ApplyAllIsWriteAll(cfg: Config, owner: string -> string, group: set<Spore>,
                                              st: State, plain: Store, ss: seq<Spore>, when: Schedule)
    requires Exact(cfg.arith) && ExactUsage(cfg) && Compatible(group) && forall s :: s in ss ==> s in group
    requires Accounted(cfg, owner, st.store) && AgreeOff(st.store, plain)
    requires AllDue(cfg, owner, st, ss, when) && StaysSmall(cfg, owner, st, ss, when)
    ensures var st' := ApplyAll(cfg, st, ss, when);
            && AgreeOff(st'.store, WriteAll(cfg.arith, cfg.hash, plain, ss))
            && Accounted(cfg, owner, st'.store)
            && Lists(cfg, plain, st.applied, ss, st'.applied)
    decreases |ss|
  {
    if ss != [] {
      var s := ss[0];
      var mid, plain' := ApplyAt(cfg, st, s, when(s)), Write(cfg.arith, cfg.hash, plain, s);
      assert Due(cfg, owner, st, s, when(s));
      assert RecordedUsage(cfg, st.store, s.policy) == Some(OwnedSize(st.store, owner, s.policy));
      ApplyIsWrite(cfg, owner, st, plain, s, when(s));
      ApplyKeepsBooks(cfg, owner, st, s, when(s));
      DueLater(cfg, owner, st, ss, when);
      ApplyAllIsWriteAll(cfg, owner, group, mid, plain', ss[1..], when);
      forall t | t in ss[1..]
        ensures t.uuid != s.uuid && (Succeeds(cfg.arith, plain', t) <==> Succeeds(cfg.arith, plain, t))
      {
        var i :| 0 <= i < |ss[1..]| && ss[1..][i] == t;
        assert ss[0].uuid != ss[i + 1].uuid;
        StableLater(cfg, group, plain, ss, t);
      }
      forall t | t in ss ensures t.uuid !in st.applied {
        var i :| 0 <= i < |ss| && ss[i] == t;
        assert Due(cfg, owner, st, ss[i], when(ss[i]));
      }
      ListsCons(cfg, plain, plain', st.applied, mid.applied, ss, ApplyAll(cfg, mid, ss[1..], when).applied);
    }
  }

  // ---------------------------------------------------------------- two replicas

  lemma SimilarLengths(group: set<Spore>, x: Store, y: Store, k: string)
    requires SimilarAt(group, Slot(x, k), Slot(y, k), k)
    ensures |Load(x, k)| == |Load(y, k)| && (k in x <==> k in y)
  {
    if SetKey(group, k) && k in x && x[k].data != y[k].data {
      SameContentSameMembers(x[k].data, y[k].data);
    }
  }

  /** Stores that are similar outside the bookkeeping own the same number of bytes. */
  lemma SimilarSizes(group: set<Spore>, owner: string -> string, x: Store, y: Store, q: string)
    requires forall k :: !IsUsage(k) ==> SimilarAt(group, Slot(x, k), Slot(y, k), k)
    ensures OwnedSize(x, owner, q) == OwnedSize(y, owner, q)
  {
    forall k | !IsUsage(k) ensures |Load(x, k)| == |Load(y, k)| && (k in x <==> k in y) {
      SimilarLengths(group, x, y, k);
    }
    assert Owned(x, owner, q) == Owned(y, owner, q);
    SumAgree(Owned(x, owner, q), StoredLength(x), StoredLength(y));
  }

  /** The two stores hold the same content and record the same usages. */
  ghost predicate Converged(cfg: Config, cfg': Config, group: set<Spore>, x: Store, y: Store)
  {
    && (forall k :: !IsUsage(k) ==> SimilarAt(group, Slot(x, k), Slot(y, k), k))
    && (forall q :: RecordedUsage(cfg, x, q) == RecordedUsage(cfg', y, q))
  }

  lemma SimilarUsages(cfg: Config, cfg': Config, owner: string -> string, group: set<Spore>, x: Store, y: Store)
    requires Accounted(cfg, owner, x) && Accounted(cfg', owner, y)
    requires forall k :: !IsUsage(k) ==> SimilarAt(group, Slot(x, k), Slot(y, k), k)
    ensures forall q :: RecordedUsage(cfg, x, q) == RecordedUsage(cfg', y, q)
  {
    forall q ensures RecordedUsage(cfg, x, q) == RecordedUsage(cfg', y, q) {
      SimilarSizes(group, owner, x, y, q);
      assert RecordedUsage(cfg, x, q) == Some(OwnedSize(x, owner, q));
      assert RecordedUsage(cfg', y, q) == Some(OwnedSize(y, owner, q));
    }
  }

  lemma DueDistinct(cfg: Config, owner: string -> string, st: State, ss: seq<Spore>, when: Schedule)
    requires AllDue(cfg, owner, st, ss, when)
    ensures Distinct(ss)
    ensures forall s :: s in ss ==> s.policy in cfg.policies
  {
    forall i, j | 0 <= i < j < |ss| ensures ss[i] != ss[j] {
      assert ss[i].uuid != ss[j].uuid;
    }
    forall s | s in ss ensures s.policy in cfg.policies {
      var i :| 0 <= i < |ss| && ss[i] == s;
      assert Due(cfg, owner, st, ss[i], when(ss[i]));
    }
  }

  /** The configurations agree on everything that is not private to a node. */
  ghost predicate SameCluster(cfg: Config, cfg': Config)
  {
    && cfg'.policies == cfg.policies && cfg'.arith == cfg.arith && cfg'.hash == cfg.hash
  }

  /**
   * Convergence.  Two nodes with the same content, each owing the same compatible spores of one
   * policy, apply them in different orders, each at moments of its own, whatever else is in their
   * staging; they end with the same content, the same applied spores and the same usages.
   */
  lemma ReplicasConverge(cfg: Config, cfg': Config, owner: string -> string, group: set<Spore>,
                         st: State, st': State, ss: seq<Spore>, ps: seq<Spore>, when: Schedule, when': Schedule)
    requires SameCluster(cfg, cfg') && Exact(cfg.arith) && ExactUsage(cfg) && ExactUsage(cfg')
    requires Compatible(group) && (forall s :: s in ss ==> s in group) && multiset(ss) == multiset(ps)
    requires AgreeOff(st'.store, st.store) && st'.applied == st.applied
    requires Accounted(cfg, owner, st.store) && Accounted(cfg', owner, st'.store)
    requires AllDue(cfg, owner, st, ss, when) && StaysSmall(cfg, owner, st, ss, when)
    requires AllDue(cfg', owner, st', ps, when') && StaysSmall(cfg', owner, st', ps, when')
    ensures var x, y := ApplyAll(cfg, st, ss, when), ApplyAll(cfg', st', ps, when');
            Converged(cfg, cfg', group, x.store, y.store) && x.applied == y.applied
  {
    var x, y := ApplyAll(cfg, st, ss, when), ApplyAll(cfg', st', ps, when');
    forall s ensures s in ss <==> s in ps {
      assert s in ss <==> s in multiset(ss);
      assert s in ps <==> s in multiset(ps);
    }
    DueDistinct(cfg, owner, st, ss, when);
    ApplyAllIsWriteAll(cfg, owner, group, st, st.store, ss, when);
    ApplyAllIsWriteAll(cfg', owner, group, st', st.store, ps, when');
    AnyOrder(cfg.arith, cfg.hash, group, st.store, ss, ps);
    SimilarEnds(cfg, group, x.store, y.store, st.store, ss, ps);
    ListsElsewhere(cfg, cfg', st.store, st.applied, ps, y.applied);
    ListsDetermine(cfg, st.store, st.applied, ss, ps, x.applied, y.applied);
    SimilarUsages(cfg, cfg', owner, group, x.store, y.store);
  }

  lemma SimilarEnds(cfg: Config, group: set<Spore>, x: Store, y: Store, plain: Store, ss: seq<Spore>, ps: seq<Spore>)
    requires AgreeOff(x, WriteAll(cfg.arith, cfg.hash, plain, ss))
    requires AgreeOff(y, WriteAll(cfg.arith, cfg.hash, plain, ps))
    requires Similar(group, WriteAll(cfg.arith, cfg.hash, plain, ss), WriteAll(cfg.arith, cfg.hash, plain, ps))
    ensures forall k :: !IsUsage(k) ==> SimilarAt(group, Slot(x, k), Slot(y, k), k)
  {
    var xs, ys := WriteAll(cfg.arith, cfg.hash, plain, ss), WriteAll(cfg.arith, cfg.hash, plain, ps);
    forall k | !IsUsage(k) ensures SimilarAt(group, Slot(x, k), Slot(y, k), k) {
      assert Slot(x, k) == Slot(xs, k) && Slot(y, k) == Slot(ys, k);
      assert SimilarAt(group, Slot(xs, k), Slot(ys, k), k);
    }
  }

  lemma ListsElsewhere(cfg: Config, cfg': Config, plain: Store, before: map<string, int>, ps: seq<Spore>,
                       after: map<string, int>)
    requires SameCluster(cfg, cfg') && Lists(cfg', plain, before, ps, after)
    ensures Lists(cfg, plain, before, ps, after)
  {
    forall s | s in ps ensures ListsOne(cfg, plain, s, after) {
      assert ListsOne(cfg', plain, s, after);
    }
  }

  // ---------------------------------------------------------------- whole runs of two nodes

  function SporesOf(ws: seq<Application>): (ss: seq<Spore>)
    ensures |ss| == |ws| && forall i :: 0 <= i < |ws| ==> ss[i] == ws[i].spore
  {
    seq(|ws|, i requires 0 <= i < |ws| => ws[i].spore)
  }

  /** Outside the usages, the store is what the recorded writes leave, one after the other. */
  ghost predicate Replayed(cfg: Config, st: State)
  {
    AgreeOff(st.store, WriteAll(cfg.arith, cfg.hash, map[], SporesOf(st.writes)))
  }

  /** No spore written so far names a usage key. */
  ghost predicate WritesSparing(st: State)
  {
    forall i :: 0 <= i < |st.writes| ==> Sparing(st.writes[i].spore)
  }

  lemma SparingBefore(st: State, st': State)
    requires WritesSparing(st') && st.writes <= st'.writes
    ensures WritesSparing(st)
  {
    forall i | 0 <= i < |st.writes| ensures Sparing(st.writes[i].spore) {
      assert st'.writes[i] == st.writes[i];
    }
  }

  lemma ApplyReplayed(cfg: Config, st: State, s: Spore, bypass: bool)
    requires Replayed(cfg, st) && WritesSparing(Apply(cfg, st, s, bypass))
    ensures Replayed(cfg, Apply(cfg, st, s, bypass))
  {
    if ApplyVerdict(cfg, st, s) == Applied {
      assert Apply(cfg, st, s, bypass).writes[|st.writes|] == Application(s, bypass);
      var ss := SporesOf(st.writes);
      AppliedIsWrite(cfg, st, WriteAll(cfg.arith, cfg.hash, map[], ss), s);
      WriteAllConcat(cfg.arith, cfg.hash, map[], ss, [s]);
      WriteOne(cfg, WriteAll(cfg.arith, cfg.hash, map[], ss), s);
      assert SporesOf(st.writes + [Application(s, bypass)]) == ss + [s];
    }
  }

  lemma WriteOne(cfg: Config, store: Store, s: Spore)
    ensures WriteAll(cfg.arith, cfg.hash, store, [s]) == Write(cfg.arith, cfg.hash, store, s)
  {
    var store' := Write(cfg.arith, cfg.hash, store, s);
    assert [s][1..] == [];
    assert WriteAll(cfg.arith, cfg.hash, store', []) == store';
  }

  lemma PromoteReplayed(cfg: Config, st: State, s: Spore, bypass: bool)
    requires Replayed(cfg, st) && WritesSparing(Promote(cfg, st, s, bypass))
    ensures Replayed(cfg, Promote(cfg, st, s, bypass))
  {
    if PathOf(cfg, s).AtOnce? {
      ApplyReplayed(cfg, Log(st, Promoted(s, bypass, Signs(cfg, s), false)), s, bypass);
    }
  }

  lemma ReconsiderReplayed(cfg: Config, st: State, k: string, missingFirst: set<string>)
    requires Replayed(cfg, st) && WritesSparing(Reconsider(cfg, st, k, missingFirst))
    ensures Replayed(cfg, Reconsider(cfg, st, k, missingFirst))
  {
    if k in st.waiting && st.waiting[k] < |st.triggers| {
      var s := st.triggers[st.waiting[k]].spore;
      if CanEndorse(cfg, st, s, k in missingFirst) == Ok {
        PromoteReplayed(cfg, st, s, Bypasses(st, s, k in missingFirst));
      }
    }
  }

  lemma {:induction false} ReconsiderAllReplayed(cfg: Config, st: State, order: seq<string>, missingFirst: set<string>)
    requires Replayed(cfg, st) && WritesSparing(ReconsiderAll(cfg, st, order, missingFirst))
    ensures Replayed(cfg, ReconsiderAll(cfg, st, order, missingFirst))
    decreases |order|
  {
    if order != [] {
      var mid := Reconsider(cfg, st, order[0], missingFirst);
      ReconsiderAllWrites(cfg, mid, order[1..], missingFirst);
      SparingBefore(mid, ReconsiderAll(cfg, st, order, missingFirst));
      ReconsiderReplayed(cfg, st, order[0], missingFirst);
      ReconsiderAllReplayed(cfg, mid, order[1..], missingFirst);
    }
  }

  lemma StepReplayed(cfg: Config, st: State, l: Label)
    requires Replayed(cfg, st) && WritesSparing(Step(cfg, st, l))
    ensures Replayed(cfg, Step(cfg, st, l))
  {
    match l {
      case Receive(s, missingFirst) =>
        if Signed(cfg, s) && CanEndorse(cfg, st, s, missingFirst) == Ok {
          PromoteReplayed(cfg, st, s, Bypasses(st, s, missingFirst));
        }
      case Timer(uuid, order, missingFirsts) =>
        ReconsiderAllReplayed(cfg, Unstage(st, uuid, Expired(uuid)), order, missingFirsts);
      case Spawned(ref) =>
        if ref in st.pending && ref < |st.triggers| {
          var t := st.triggers[ref];
          ApplyReplayed(cfg, st.(pending := st.pending - multiset{ref}), t.spore, t.bypass);
        }
      case _ =>
    }
  }

  /** In every run whose writes spare the usages, the store is otherwise what these writes leave. */
  lemma {:induction false} EveryStoreIsReplayed(cfg: Config, now: int, ls: seq<Label>)
    requires WritesSparing(RunLabels(cfg, Initial(now), ls))
    ensures Replayed(cfg, RunLabels(cfg, Initial(now), ls))
    decreases |ls|
  {
    if ls != [] {
      var before := ls[..|ls| - 1];
      var st := RunLabels(cfg, Initial(now), before);
      StepWrites(cfg, st, ls[|ls| - 1]);
      SparingBefore(st, Step(cfg, st, ls[|ls| - 1]));
      EveryStoreIsReplayed(cfg, now, before);
      StepReplayed(cfg, st, ls[|ls| - 1]);
    }
  }

  /** A run whose books are right: see `EveryRunIsAccounted`. */
  ghost predicate Regular(cfg: Config, owner: string -> string, now: int, ls: seq<Label>)
  {
    && ExactUsage(cfg) && SmallRun(cfg, owner, now, ls)
    && OneOwner(owner, RunLabels(cfg, Initial(now), ls)) && UsagesSpared(RunLabels(cfg, Initial(now), ls))
  }

  lemma RegularRun(cfg: Config, owner: string -> string, now: int, ls: seq<Label>)
    requires Regular(cfg, owner, now, ls)
    ensures Accounted(cfg, owner, RunLabels(cfg, Initial(now), ls).store)
    ensures Replayed(cfg, RunLabels(cfg, Initial(now), ls))
  {
    EveryRunIsAccounted(cfg, owner, "", now, ls);
    Versions.EveryRunIsNeat(cfg, now, ls);
    ClearIsTidy(owner, RunLabels(cfg, Initial(now), ls));
    EveryStoreIsReplayed(cfg, now, ls);
  }

  /** The writes of a run are those of `base` and then those of `ss`. */
  ghost predicate Wrote(st: State, base: seq<Spore>, ss: seq<Spore>)
  {
    SporesOf(st.writes) == base + ss
  }

  /**
   * Convergence of whole runs.  Take any runs of two nodes, with whatever messages, deadlines, gc
   * passes and sweeps.  If what they wrote differs only in the order of a final group of compatible
   * spores, they hold the same content and record the same usages.
   */
  lemma RunsConverge(cfg: Config, cfg': Config, owner: string -> string, group: set<Spore>, now: int, ls: seq<Label>,
                     now': int, ls': seq<Label>, base: seq<Spore>, ss: seq<Spore>, ps: seq<Spore>)
    requires SameCluster(cfg, cfg') && Exact(cfg.arith)
    requires Regular(cfg, owner, now, ls) && Regular(cfg', owner, now', ls')
    requires Compatible(group) && (forall s :: s in ss ==> s in group) && Distinct(ss) && multiset(ss) == multiset(ps)
    requires Wrote(RunLabels(cfg, Initial(now), ls), base, ss) && Wrote(RunLabels(cfg', Initial(now'), ls'), base, ps)
    ensures Converged(cfg, cfg', group,
                      RunLabels(cfg, Initial(now), ls).store, RunLabels(cfg', Initial(now'), ls').store)
  {
    var x, y := RunLabels(cfg, Initial(now), ls).store, RunLabels(cfg', Initial(now'), ls').store;
    RegularRun(cfg, owner, now, ls);
    RegularRun(cfg', owner, now', ls');
    var middle := WriteAll(cfg.arith, cfg.hash, map[], base);
    WriteAllConcat(cfg.arith, cfg.hash, map[], base, ss);
    WriteAllConcat(cfg.arith, cfg.hash, map[], base, ps);
    AnyOrder(cfg.arith, cfg.hash, group, middle, ss, ps);
    SimilarEnds(cfg, group, x, y, middle, ss, ps);
    SimilarUsages(cfg, cfg', owner, group, x, y);
  }

  // ---------------------------------------------------------------- what a node stages together

  /** The spores of policy `p` in staging that went through all the checks. */
  ghost function StagedOf(st: State, p: string): set<Spore>
  {
    set u | u in st.staging && st.staging[u] < |st.triggers| && !st.triggers[st.staging[u]].bypass &&
            st.triggers[st.staging[u]].spore.policy == p :: st.triggers[st.staging[u]].spore
  }

  /** At every moment of every run, the spores of one policy staged by a node may be applied in any order. */
  lemma StagedSporesCommute(cfg: Config, now: int, ls: seq<Label>, p: string, store: Store, ss: seq<Spore>,
                            ps: seq<Spore>)
    requires Exact(cfg.arith)
    requires forall s :: s in ss ==> s in StagedOf(RunLabels(cfg, Initial(now), ls), p)
    requires Distinct(ss) && multiset(ss) == multiset(ps)
    ensures Similar(StagedOf(RunLabels(cfg, Initial(now), ls), p),
                    WriteAll(cfg.arith, cfg.hash, store, ss), WriteAll(cfg.arith, cfg.hash, store, ps))
  {
    var st := RunLabels(cfg, Initial(now), ls);
    Staging.EveryRunStaysApart(cfg, now, ls);
    StagedAreCompatible(st, p);
    AnyOrder(cfg.arith, cfg.hash, StagedOf(st, p), store, ss, ps);
  }

  lemma StagedAreCompatible(st: State, p: string)
    requires Staging.Invariant(st)
    ensures Compatible(StagedOf(st, p))
  {
    forall s, t | s in StagedOf(st, p) && t in StagedOf(st, p) && s != t ensures !SporesConflict(s, t) {
      var u :| u in st.staging && st.staging[u] < |st.triggers| && !st.triggers[st.staging[u]].bypass &&
               st.triggers[st.staging[u]].spore == s;
      var v :| v in st.staging && st.staging[v] < |st.triggers| && !st.triggers[st.staging[v]].bypass &&
               st.triggers[st.staging[v]].spore == t;
      assert Staging.ApartAt(st, u, v);
    }
  }
}
