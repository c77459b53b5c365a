/**
 * What the conflict table is for: spores of one policy that are pairwise free of conflict can
 * be applied in any order.
 */
module Confluence {
  import opened Prelude
  import opened EncodedSet
  import opened Values
  import opened Operations
  import opened Execution
  import Uint64

  // ---------------------------------------------------------------- runs of one kind of operation

  ghost predicate AllOf(op: Op, calls: seq<Call>)
  {
    forall i :: 0 <= i < |calls| ==> calls[i].op == op
  }

  ghost predicate AllSetOps(calls: seq<Call>)
  {
    forall i :: 0 <= i < |calls| ==> SetOp(calls[i].op)
  }

  lemma {:induction false} RunOfSets(a: Arithmetic, v: ValueState, calls: seq<Call>, d: Slice)
    requires calls != [] && AllOf(SET, calls)
    requires forall i :: 0 <= i < |calls| ==> calls[i].data == d
    ensures RunCached(a, v, calls) == Done(NewValue(d))
    decreases |calls|
  {
    assert calls[0].op == SET;
    if |calls| > 1 {
      RunOfSets(a, NewValue(d), calls[1..], d);
    }
  }

  // Numeric runs: a fold over the inputs.

  function Combine(a: Arithmetic, op: Op): (Number, Number) -> Number
  {
    if op.ADD? then a.add else a.mul
  }

  ghost predicate AllNumeric(a: Arithmetic, calls: seq<Call>)
  {
    forall i :: 0 <= i < |calls| ==> FloatOf(a, calls[i].data).Some?
  }

  ghost function Fold(a: Arithmetic, f: (Number, Number) -> Number, x: Number, calls: seq<Call>): Number
    requires AllNumeric(a, calls)
    decreases |calls|
  {
    if calls == [] then x else Fold(a, f, f(FloatOf(a, calls[0].data).value, x), calls[1..])
  }

  lemma {:induction false} RunOfNumbers(a: Arithmetic, op: Op, v: ValueState, calls: seq<Call>)
    requires Lawful(a) && (op.ADD? || op.MUL?) && calls != [] && AllOf(op, calls)
    ensures RunCached(a, v, calls).Done? <==> CurrentFloat(a, v).Some? && AllNumeric(a, calls)
    ensures RunCached(a, v, calls).Done? ==>
              var x := Fold(a, Combine(a, op), CurrentFloat(a, v).value, calls);
              RunCached(a, v, calls).value.raw == a.render(x)
    decreases |calls|
  {
    assert calls[0].op == op;
    if Exec(a, op, calls[0].data, v).Done? {
      var v' := Exec(a, op, calls[0].data, v).value;
      assert AllNumeric(a, calls) <==> AllNumeric(a, calls[1..]);
      if |calls| > 1 {
        RunOfNumbers(a, op, v', calls[1..]);
      }
    }
  }

  lemma {:induction false} FoldExchangesOne(a: Arithmetic, f: (Number, Number) -> Number, d: Slice, x: Number,
                                            calls: seq<Call>)
    requires Exchanges(a, f) && AllNumeric(a, calls) && FloatOf(a, d).Some?
    ensures var y := FloatOf(a, d).value;
            Fold(a, f, f(y, x), calls) == f(y, Fold(a, f, x, calls))
    decreases |calls|
  {
    if calls != [] {
      var y, z := FloatOf(a, d).value, FloatOf(a, calls[0].data).value;
      assert f(z, f(y, x)) == f(y, f(z, x));
      FoldExchangesOne(a, f, d, f(z, x), calls[1..]);
    }
  }

  lemma {:induction false} FoldExchanges(a: Arithmetic, f: (Number, Number) -> Number, x: Number, p: seq<Call>,
                                         q: seq<Call>)
    requires Exchanges(a, f) && AllNumeric(a, p) && AllNumeric(a, q)
    ensures Fold(a, f, Fold(a, f, x, p), q) == Fold(a, f, Fold(a, f, x, q), p)
    decreases |p|
  {
    if p != [] {
      var y := FloatOf(a, p[0].data).value;
      FoldExchanges(a, f, f(y, x), p[1..], q);
      FoldExchangesOne(a, f, p[0].data, x, q);
    }
  }

  // Set runs: a fold over the representation, seen one element at a time.

  ghost function FoldRep(r: Rep, calls: seq<Call>): Rep
    decreases |calls|
  {
    if calls == [] then r else
      FoldRep(if calls[0].op.SADD? then Insert(r, calls[0].data) else Delete(r, calls[0].data), calls[1..])
  }

  ghost predicate NoneEmpty(calls: seq<Call>)
  {
    forall i :: 0 <= i < |calls| ==> calls[i].data != []
  }

  lemma {:induction false} RunOfSetOps(a: Arithmetic, v: ValueState, calls: seq<Call>)
    requires calls != [] && AllSetOps(calls)
    ensures RunCached(a, v, calls).Done? <==> CurrentSet(v).Ready? && NoneEmpty(calls)
    ensures RunCached(a, v, calls).Done? ==>
              RunCached(a, v, calls).value.raw == Encode(FoldRep(CurrentSet(v).rep, calls).records)
    decreases |calls|
  {
    var c := calls[0];
    assert SetOp(c.op);
    if Exec(a, c.op, c.data, v).Done? {
      var v' := Exec(a, c.op, c.data, v).value;
      assert NoneEmpty(calls) <==> NoneEmpty(calls[1..]);
      if |calls| > 1 {
        RunOfSetOps(a, v', calls[1..]);
      }
    }
  }

  /** How often an element is stored and whether the index knows it. */
  datatype Presence = Presence(count: nat, known: bool)

  ghost function PresenceOf(r: Rep, x: Slice): Presence
  {
    Presence(Bag(r.records)[x], x in r.live)
  }

  ghost function Touch(p: Presence, c: Call, x: Slice): Presence
  {
    if c.data != x then p
    else if c.op.SADD? then (if p.known then p else Presence(p.count + 1, true))
    else if p.known && p.count > 0 then Presence(p.count - 1, false) else p
  }

  ghost function FoldPresence(p: Presence, calls: seq<Call>, x: Slice): Presence
    decreases |calls|
  {
    if calls == [] then p else FoldPresence(Touch(p, calls[0], x), calls[1..], x)
  }

  lemma PresenceStep(r: Rep, c: Call, x: Slice)
    ensures PresenceOf(if c.op.SADD? then Insert(r, c.data) else Delete(r, c.data), x) ==
            Touch(PresenceOf(r, x), c, x)
  {
    assert c.data in r.records <==> Bag(r.records)[c.data] > 0;
    if !c.op.SADD? && c.data in r.live && c.data in r.records {
      CutMultiset(r.records, LastIndex(r.records, c.data));
    }
  }

  lemma {:induction false} PresenceFold(r: Rep, calls: seq<Call>, x: Slice)
    ensures PresenceOf(FoldRep(r, calls), x) == FoldPresence(PresenceOf(r, x), calls, x)
    decreases |calls|
  {
    if calls != [] {
      var r' := if calls[0].op.SADD? then Insert(r, calls[0].data) else Delete(r, calls[0].data);
      PresenceStep(r, calls[0], x);
      PresenceFold(r', calls[1..], x);
    }
  }

  ghost predicate Mentions(calls: seq<Call>, op: Op, x: Slice)
  {
    exists i :: 0 <= i < |calls| && calls[i] == Call(op, x)
  }

  /** A run that only adds `x`, or only removes it, or does not mention it. */
  lemma {:induction false} OneSided(calls: seq<Call>, x: Slice, n: nat, known: bool)
    requires AllSetOps(calls)
    requires !Mentions(calls, SADD, x) || !Mentions(calls, SREM, x)
    requires known ==> n > 0
    ensures FoldPresence(Presence(n, known), calls, x).count ==
            if Mentions(calls, SADD, x) then (if known then n else n + 1)
            else if Mentions(calls, SREM, x) then (if known then n - 1 else n)
            else n
    decreases |calls|
  {
    if calls != [] {
      var c, rest := calls[0], calls[1..];
      assert SetOp(c.op);
      forall op ensures Mentions(calls, op, x) <==> c == Call(op, x) || Mentions(rest, op, x) {
        if Mentions(calls, op, x) && c != Call(op, x) {
          var i :| 0 <= i < |calls| && calls[i] == Call(op, x);
          assert rest[i - 1] == Call(op, x);
        }
        if Mentions(rest, op, x) {
          var i :| 0 <= i < |rest| && rest[i] == Call(op, x);
          assert calls[i + 1] == Call(op, x);
        }
      }
      var p := Touch(Presence(n, known), c, x);
      OneSidedStep(calls, x, n, known, p);
    }
  }

  lemma {:induction false} OneSidedStep(calls: seq<Call>, x: Slice, n: nat, known: bool, p: Presence)
    requires calls != [] && AllSetOps(calls) && p == Touch(Presence(n, known), calls[0], x)
    requires !Mentions(calls, SADD, x) || !Mentions(calls, SREM, x)
    requires known ==> n > 0
    requires forall op :: Mentions(calls, op, x) <==> calls[0] == Call(op, x) || Mentions(calls[1..], op, x)
    ensures FoldPresence(Presence(n, known), calls, x).count ==
            if Mentions(calls, SADD, x) then (if known then n else n + 1)
            else if Mentions(calls, SREM, x) then (if known then n - 1 else n)
            else n
    decreases |calls|, 0
  {
    var c, rest := calls[0], calls[1..];
    assert SetOp(c.op);
    assert Mentions(calls, SADD, x) <==> c == Call(SADD, x) || Mentions(rest, SADD, x);
    assert Mentions(calls, SREM, x) <==> c == Call(SREM, x) || Mentions(rest, SREM, x);
    if c == Call(SREM, x) && known {
      OneSidedAfterRemoval(rest, x, p.count);
    } else {
      OneSided(rest, x, p.count, p.known);
    }
  }

  /** Once the index has forgotten `x`, removing it again does nothing. */
  lemma {:induction false} OneSidedAfterRemoval(calls: seq<Call>, x: Slice, n: nat)
    requires AllSetOps(calls) && !Mentions(calls, SADD, x)
    ensures FoldPresence(Presence(n, false), calls, x) == Presence(n, false)
    decreases |calls|
  {
    if calls != [] {
      assert SetOp(calls[0].op) && calls[0] != Call(SADD, x);
      forall i | 0 <= i < |calls[1..]| ensures calls[1..][i] != Call(SADD, x) {
        assert calls[i + 1] != Call(SADD, x);
      }
      OneSidedAfterRemoval(calls[1..], x, n);
    }
  }

  // ---------------------------------------------------------------- two runs on one key

  /** No call of the one conflicts with a call of the other. */
  ghost predicate CrossParallel(p: seq<Call>, q: seq<Call>)
  {
    forall i, j :: 0 <= i < |p| && 0 <= j < |q| ==> Parallel(p[i].op, p[i].data, q[j].op, q[j].data)
  }

  /** The same bytes, or two buffers holding the same records in some order. */
  ghost predicate SameContent(x: Bytes, y: Bytes)
  {
    || x == y
    || (ParseSet(x).Parsed? && ParseSet(y).Parsed? && Bag(ParseSet(x).records) == Bag(ParseSet(y).records))
  }

  function OnKey(a: Arithmetic, raw: Bytes, calls: seq<Call>): Outcome
  {
    RunCached(a, NewValue(raw), calls)
  }

  /** `q` behaves after `p` as it would without it, and the two can be exchanged. */
  ghost predicate Exchangeable(a: Arithmetic, raw: Bytes, p: seq<Call>, q: seq<Call>)
  {
    OnKey(a, raw, p).Done? ==>
      var raw' := OnKey(a, raw, p).value.raw;
      && (OnKey(a, raw', q).Done? <==> OnKey(a, raw, q).Done?)
      && (OnKey(a, raw, q).Done? ==>
            var raw'' := OnKey(a, raw, q).value.raw;
            && OnKey(a, raw'', p).Done?
            && SameContent(OnKey(a, raw', q).value.raw, OnKey(a, raw'', p).value.raw)
            && (!AllSetOps(p + q) ==> OnKey(a, raw', q).value.raw == OnKey(a, raw'', p).value.raw))
  }

  lemma NumbersExchange(a: Arithmetic, op: Op, raw: Bytes, p: seq<Call>, q: seq<Call>)
    requires Exact(a) && (op.ADD? || op.MUL?)
    requires p != [] && q != [] && AllOf(op, p) && AllOf(op, q)
    ensures Exchangeable(a, raw, p, q)
  {
    RunOfNumbers(a, op, NewValue(raw), p);
    RunOfNumbers(a, op, NewValue(raw), q);
    if OnKey(a, raw, p).Done? {
      var x := FloatOf(a, raw).value;
      var f := Combine(a, op);
      var y := Fold(a, f, x, p);
      Rendered(a, y);
      RunOfNumbers(a, op, NewValue(a.render(y)), q);
      if OnKey(a, raw, q).Done? {
        var z := Fold(a, f, x, q);
        Rendered(a, z);
        RunOfNumbers(a, op, NewValue(a.render(z)), p);
        FoldExchanges(a, f, x, p, q);
      }
    }
  }

  lemma SetsExchange(a: Arithmetic, raw: Bytes, p: seq<Call>, q: seq<Call>)
    requires p != [] && q != [] && AllOf(SET, p) && AllOf(SET, q) && CrossParallel(p, q)
    ensures Exchangeable(a, raw, p, q)
  {
    var d := p[0].data;
    assert forall j :: 0 <= j < |q| ==> Parallel(p[0].op, d, q[j].op, q[j].data);
    assert forall i :: 0 <= i < |p| ==> Parallel(p[i].op, p[i].data, q[0].op, q[0].data);
    forall r: Bytes ensures OnKey(a, r, p) == Done(NewValue(d)) && OnKey(a, r, q) == Done(NewValue(d)) {
      RunOfSets(a, NewValue(r), p, d);
      RunOfSets(a, NewValue(r), q, d);
    }
  }

  /** Whatever the order of `p` and `q`, each element ends up stored equally often. */
  lemma CountsExchange(rs: seq<Slice>, p: seq<Call>, q: seq<Call>, x: Slice)
    requires AllSetOps(p) && AllSetOps(q) && CrossParallel(p, q)
    ensures Bag(FoldRep(Loaded(FoldRep(Loaded(rs), p).records), q).records)[x] ==
            Bag(FoldRep(Loaded(FoldRep(Loaded(rs), q).records), p).records)[x]
  {
    var n := Bag(rs)[x];
    var np := CountAfter(rs, p, x);
    var nq := CountAfter(rs, q, x);
    var npq := CountAfter(FoldRep(Loaded(rs), p).records, q, x);
    var nqp := CountAfter(FoldRep(Loaded(rs), q).records, p, x);
    if MentionsAny(p, x) && MentionsAny(q, x) {
      CrossOneSided(p, q, x);
      OneSided(p, x, n, n > 0);
      OneSided(q, x, n, n > 0);
      OneSided(q, x, np, np > 0);
      OneSided(p, x, nq, nq > 0);
    } else if !MentionsAny(p, x) {
      Unmentioned(p, x, Presence(n, n > 0));
      Unmentioned(p, x, Presence(nq, nq > 0));
    } else {
      Unmentioned(q, x, Presence(n, n > 0));
      Unmentioned(q, x, Presence(np, np > 0));
    }
  }

  ghost predicate MentionsAny(calls: seq<Call>, x: Slice)
  {
    exists i :: 0 <= i < |calls| && calls[i].data == x
  }

  lemma {:induction false} Unmentioned(calls: seq<Call>, x: Slice, p: Presence)
    requires !MentionsAny(calls, x)
    ensures FoldPresence(p, calls, x) == p
    decreases |calls|
  {
    if calls != [] {
      assert calls[0].data != x;
      forall i | 0 <= i < |calls[1..]| ensures calls[1..][i].data != x {
        assert calls[i + 1].data != x;
      }
      Unmentioned(calls[1..], x, p);
    }
  }

  /** The number of copies of `x` after a run on freshly loaded records. */
  lemma CountAfter(rs: seq<Slice>, calls: seq<Call>, x: Slice) returns (n: nat)
    ensures n == Bag(FoldRep(Loaded(rs), calls).records)[x]
    ensures n == FoldPresence(Presence(Bag(rs)[x], Bag(rs)[x] > 0), calls, x).count
  {
    n := Bag(FoldRep(Loaded(rs), calls).records)[x];
    assert x in rs <==> Bag(rs)[x] > 0;
    PresenceFold(Loaded(rs), calls, x);
  }

  /** Both runs mention `x`: then both only add it or both only remove it. */
  lemma CrossOneSided(p: seq<Call>, q: seq<Call>, x: Slice)
    requires AllSetOps(p) && AllSetOps(q) && CrossParallel(p, q)
    requires MentionsAny(p, x) && MentionsAny(q, x)
    ensures !Mentions(p, SADD, x) || !Mentions(p, SREM, x)
    ensures Mentions(p, SADD, x) <==> Mentions(q, SADD, x)
    ensures Mentions(p, SREM, x) <==> Mentions(q, SREM, x)
  {
    var i :| 0 <= i < |p| && p[i].data == x;
    var j :| 0 <= j < |q| && q[j].data == x;
    assert SetOp(p[i].op) && SetOp(q[j].op) && Parallel(p[i].op, x, q[j].op, x);
    var op := p[i].op;
    assert p[i] == Call(op, x) && q[j] == Call(op, x);
    forall t | 0 <= t < |p| && p[t].data == x ensures p[t].op == op {
      assert Parallel(p[t].op, x, q[j].op, x);
    }
    forall t | 0 <= t < |q| && q[t].data == x ensures q[t].op == op {
      assert Parallel(p[i].op, x, q[t].op, x);
    }
  }

  /** A run of set operations on stored bytes. */
  lemma SetRunOnBytes(a: Arithmetic, raw: Bytes, p: seq<Call>)
    requires p != [] && AllSetOps(p)
    ensures OnKey(a, raw, p).Done? <==> ParseSet(raw).Parsed? && NoneEmpty(p)
    ensures OnKey(a, raw, p).Done? ==>
              ParseSet(OnKey(a, raw, p).value.raw) == Parsed(FoldRep(Loaded(ParseSet(raw).records), p).records)
  {
    RunOfSetOps(a, NewValue(raw), p);
    if ParseSet(raw).Parsed? {
      ParseEncode(FoldRep(Loaded(ParseSet(raw).records), p).records);
    }
  }

  /** Both orders leave the same bag of records. */
  lemma BagsExchange(rs: seq<Slice>, p: seq<Call>, q: seq<Call>)
    requires AllSetOps(p) && AllSetOps(q) && CrossParallel(p, q)
    ensures Bag(FoldRep(Loaded(FoldRep(Loaded(rs), p).records), q).records) ==
            Bag(FoldRep(Loaded(FoldRep(Loaded(rs), q).records), p).records)
  {
    var pq := FoldRep(Loaded(FoldRep(Loaded(rs), p).records), q).records;
    var qp := FoldRep(Loaded(FoldRep(Loaded(rs), q).records), p).records;
    forall x: Slice ensures Bag(pq)[x] == Bag(qp)[x] {
      CountsExchange(rs, p, q, x);
    }
  }

  lemma SetOpsExchange(a: Arithmetic, raw: Bytes, p: seq<Call>, q: seq<Call>)
    requires p != [] && q != [] && AllSetOps(p) && AllSetOps(q) && CrossParallel(p, q)
    ensures Exchangeable(a, raw, p, q)
  {
    SetRunOnBytes(a, raw, p);
    SetRunOnBytes(a, raw, q);
    if OnKey(a, raw, p).Done? {
      SetRunOnBytes(a, OnKey(a, raw, p).value.raw, q);
      if OnKey(a, raw, q).Done? {
        SetRunOnBytes(a, OnKey(a, raw, q).value.raw, p);
        BagsExchange(ParseSet(raw).records, p, q);
      }
    }
  }

  /** Two runs that share a key and do not conflict are of one kind. */
  lemma OneKind(p: seq<Call>, q: seq<Call>) returns (op: Op)
    requires p != [] && q != [] && CrossParallel(p, q)
    ensures op == p[0].op
    ensures SetOp(op) || op.SET? || op.ADD? || op.MUL?
    ensures if SetOp(op) then AllSetOps(p) && AllSetOps(q) else AllOf(op, p) && AllOf(op, q)
  {
    op := p[0].op;
    forall j | 0 <= j < |q|
      ensures Parallel(p[0].op, p[0].data, q[j].op, q[j].data)
    {
    }
    forall i | 0 <= i < |p|
      ensures Parallel(p[i].op, p[i].data, q[0].op, q[0].data)
    {
    }
  }

  lemma RunsExchange(a: Arithmetic, raw: Bytes, p: seq<Call>, q: seq<Call>)
    requires Exact(a) && p != [] && q != [] && CrossParallel(p, q)
    ensures Exchangeable(a, raw, p, q)
  {
    var op := OneKind(p, q);
    if SetOp(op) {
      SetOpsExchange(a, raw, p, q);
    } else if op.SET? {
      SetsExchange(a, raw, p, q);
    } else {
      NumbersExchange(a, op, raw, p, q);
    }
  }

  /** Set operations do not see the order of the records. */
  lemma SetOpsIgnoreOrder(a: Arithmetic, x: Bytes, y: Bytes, p: seq<Call>)
    requires p != [] && AllSetOps(p) && SameContent(x, y)
    ensures OnKey(a, x, p).Done? <==> OnKey(a, y, p).Done?
    ensures OnKey(a, x, p).Done? ==> SameContent(OnKey(a, x, p).value.raw, OnKey(a, y, p).value.raw)
  {
    if x != y {
      RunOfSetOps(a, NewValue(x), p);
      RunOfSetOps(a, NewValue(y), p);
      var xs, ys := ParseSet(x).records, ParseSet(y).records;
      var xs', ys' := FoldRep(Loaded(xs), p).records, FoldRep(Loaded(ys), p).records;
      ParseEncode(xs');
      ParseEncode(ys');
      forall e: Slice ensures Bag(xs')[e] == Bag(ys')[e] {
        var n := CountAfter(xs, p, e);
        var m := CountAfter(ys, p, e);
      }
      assert Bag(xs') == Bag(ys');
    }
  }

  // ---------------------------------------------------------------- spores on a store

  predicate Succeeds(a: Arithmetic, store: Store, s: Spore)
  {
    RunOps(a, store, s.operations, map[]).Finished?
  }

  /** The data part of Apply: all the operations or none. */
  function Write(a: Arithmetic, hash: Bytes -> Version, store: Store, s: Spore): Store
  {
    match RunOps(a, store, s.operations, map[])
    case Finished(values) => store + Written(hash, values)
    case Aborted(_) => store
  }

  function WriteAll(a: Arithmetic, hash: Bytes -> Version, store: Store, ss: seq<Spore>): Store
    decreases |ss|
  {
    if ss == [] then store else WriteAll(a, hash, Write(a, hash, store, ss[0]), ss[1..])
  }

  ghost function Slot(store: Store, k: string): Option<Entry>
  {
    if k in store then Some(store[k]) else None
  }

  function CallsOn(s: Spore, k: string): seq<Call>
  {
    KeyCalls(s.operations, k)
  }

  /** The run of a spore on one of its keys succeeds. */
  predicate RunsOn(a: Arithmetic, store: Store, s: Spore, k: string)
  {
    OnKey(a, Load(store, k), CallsOn(s, k)).Done?
  }

  lemma SucceedsByKey(a: Arithmetic, store: Store, s: Spore)
    ensures Succeeds(a, store, s) <==> forall k :: CallsOn(s, k) != [] ==> RunsOn(a, store, s, k)
  {
    Projection(a, store, s.operations, map[]);
    forall k: string ensures CallsOn(s, k) != [] <==> k in Keys(s.operations) {
      TouchedKeys(s.operations, k);
    }
    forall k: string ensures KeyRun(a, store, map[], s.operations, k) == OnKey(a, Load(store, k), CallsOn(s, k)) {
    }
  }

  lemma WriteAt(a: Arithmetic, hash: Bytes -> Version, store: Store, s: Spore, k: string)
    ensures Succeeds(a, store, s) && CallsOn(s, k) != [] ==>
              && RunsOn(a, store, s, k)
              && var r := OnKey(a, Load(store, k), CallsOn(s, k)).value.raw;
                 Slot(Write(a, hash, store, s), k) == Some(Entry(r, hash(r)))
    ensures !(Succeeds(a, store, s) && CallsOn(s, k) != []) ==>
              Slot(Write(a, hash, store, s), k) == Slot(store, k)
  {
    Projection(a, store, s.operations, map[]);
    TouchedKeys(s.operations, k);
    if Succeeds(a, store, s) && CallsOn(s, k) != [] {
      assert KeyRun(a, store, map[], s.operations, k) == OnKey(a, Load(store, k), CallsOn(s, k));
    }
  }

  lemma CallsCrossParallel(s: Spore, t: Spore, k: string)
    requires s.policy == t.policy && !SporesConflict(s, t)
    ensures CrossParallel(CallsOn(s, k), CallsOn(t, k))
  {
    var p, q := CallsOn(s, k), CallsOn(t, k);
    forall i, j | 0 <= i < |p| && 0 <= j < |q|
      ensures Parallel(p[i].op, p[i].data, q[j].op, q[j].data)
    {
      CallsComeFromOps(s.operations, k, i);
      CallsComeFromOps(t.operations, k, j);
      var x :| 0 <= x < |s.operations| && s.operations[x] == Operation(k, p[i].op, p[i].data);
      var y :| 0 <= y < |t.operations| && t.operations[y] == Operation(k, q[j].op, q[j].data);
      assert !Conflicts(s.operations[x], t.operations[y]);
      ConflictMeans(s.operations[x], t.operations[y]);
    }
  }

  /** A spore that does not conflict with `s` succeeds after `s` exactly when it does before. */
  lemma SuccessIsStable(a: Arithmetic, hash: Bytes -> Version, store: Store, s: Spore, t: Spore)
    requires Exact(a) && s.policy == t.policy && !SporesConflict(s, t)
    ensures Succeeds(a, Write(a, hash, store, s), t) <==> Succeeds(a, store, t)
  {
    var store' := Write(a, hash, store, s);
    SucceedsByKey(a, store, t);
    SucceedsByKey(a, store', t);
    forall k: string | CallsOn(t, k) != []
      ensures RunsOn(a, store', t, k) <==> RunsOn(a, store, t, k)
    {
      StableAt(a, hash, store, s, t, k);
    }
  }

  lemma StableAt(a: Arithmetic, hash: Bytes -> Version, store: Store, s: Spore, t: Spore, k: string)
    requires Exact(a) && s.policy == t.policy && !SporesConflict(s, t) && CallsOn(t, k) != []
    ensures RunsOn(a, Write(a, hash, store, s), t, k) <==> RunsOn(a, store, t, k)
  {
    WriteAt(a, hash, store, s, k);
    if Succeeds(a, store, s) && CallsOn(s, k) != [] {
      CallsCrossParallel(s, t, k);
      RunsExchange(a, Load(store, k), CallsOn(s, k), CallsOn(t, k));
    }
  }

  // ---------------------------------------------------------------- stores that hold the same content

  /** Spores of one policy, no two of which conflict. */
  ghost predicate Compatible(group: set<Spore>)
  {
    forall s, t :: s in group && t in group && s != t ==> s.policy == t.policy && !SporesConflict(s, t)
  }

  /** A key that the group uses, and only as a set. */
  ghost predicate SetKey(group: set<Spore>, k: string)
  {
    && (forall s :: s in group ==> AllSetOps(CallsOn(s, k)))
    && (exists s :: s in group && CallsOn(s, k) != [])
  }

  ghost predicate SimilarAt(group: set<Spore>, x: Option<Entry>, y: Option<Entry>, k: string)
  {
    if SetKey(group, k)
    then (x.Some? <==> y.Some?) && (x.Some? ==> SameContent(x.value.data, y.value.data))
    else x == y
  }

  /**
   * The same keys, with the same bytes and version; on keys the group uses as sets, the same
   * records in some order.
   */
  ghost predicate Similar(group: set<Spore>, store: Store, store': Store)
  {
    forall k :: SimilarAt(group, Slot(store, k), Slot(store', k), k)
  }

  lemma SimilarTransitive(group: set<Spore>, a: Store, b: Store, c: Store)
    requires Similar(group, a, b) && Similar(group, b, c)
    ensures Similar(group, a, c)
  {
    forall k: string ensures SimilarAt(group, Slot(a, k), Slot(c, k), k) {
      assert SimilarAt(group, Slot(a, k), Slot(b, k), k);
      assert SimilarAt(group, Slot(b, k), Slot(c, k), k);
    }
  }

  /** A spore of the group cannot tell similar stores apart on any of its keys. */
  lemma RunsAlike(a: Arithmetic, group: set<Spore>, store: Store, store': Store, s: Spore, k: string)
    requires s in group && Similar(group, store, store') && CallsOn(s, k) != []
    ensures RunsOn(a, store, s, k) <==> RunsOn(a, store', s, k)
    ensures RunsOn(a, store, s, k) ==>
              var r := OnKey(a, Load(store, k), CallsOn(s, k)).value.raw;
              var r' := OnKey(a, Load(store', k), CallsOn(s, k)).value.raw;
              SameContent(r, r') && (!SetKey(group, k) ==> r == r')
  {
    assert SimilarAt(group, Slot(store, k), Slot(store', k), k);
    if SetKey(group, k) {
      assert SameContent(Load(store, k), Load(store', k));
      SetOpsIgnoreOrder(a, Load(store, k), Load(store', k), CallsOn(s, k));
    } else {
      assert Load(store, k) == Load(store', k);
    }
  }

  lemma WriteKeepsSimilar(a: Arithmetic, hash: Bytes -> Version, group: set<Spore>, store: Store,
                          store': Store, s: Spore)
    requires s in group && Similar(group, store, store')
    ensures Similar(group, Write(a, hash, store, s), Write(a, hash, store', s))
  {
    SucceedsByKey(a, store, s);
    SucceedsByKey(a, store', s);
    forall k: string | CallsOn(s, k) != []
      ensures RunsOn(a, store, s, k) <==> RunsOn(a, store', s, k)
    {
      RunsAlike(a, group, store, store', s, k);
    }
    assert Succeeds(a, store, s) <==> Succeeds(a, store', s);
    forall k: string
      ensures SimilarAt(group, Slot(Write(a, hash, store, s), k), Slot(Write(a, hash, store', s), k), k)
    {
      WriteAt(a, hash, store, s, k);
      WriteAt(a, hash, store', s, k);
      assert SimilarAt(group, Slot(store, k), Slot(store', k), k);
      if CallsOn(s, k) != [] {
        RunsAlike(a, group, store, store', s, k);
      }
    }
  }

  lemma {:induction false} WriteAllKeepsSimilar(a: Arithmetic, hash: Bytes -> Version, group: set<Spore>,
                                                store: Store, store': Store, ss: seq<Spore>)
    requires Similar(group, store, store') && forall s :: s in ss ==> s in group
    ensures Similar(group, WriteAll(a, hash, store, ss), WriteAll(a, hash, store', ss))
    decreases |ss|
  {
    if ss != [] {
      WriteKeepsSimilar(a, hash, group, store, store', ss[0]);
      WriteAllKeepsSimilar(a, hash, group, Write(a, hash, store, ss[0]), Write(a, hash, store', ss[0]), ss[1..]);
    }
  }

  // ---------------------------------------------------------------- exchanging two spores

  /** A key shared by two spores of the group is a set key as soon as one of them uses it as a set. */
  lemma SharedKeyKind(group: set<Spore>, s: Spore, t: Spore, k: string)
    requires Compatible(group) && s in group && t in group && s != t
    requires CallsOn(s, k) != [] && CallsOn(t, k) != []
    ensures SetKey(group, k) <==> AllSetOps(CallsOn(s, k) + CallsOn(t, k))
  {
    var p, q := CallsOn(s, k), CallsOn(t, k);
    if SetKey(group, k) {
      assert AllSetOps(p) && AllSetOps(q);
    } else if AllSetOps(p + q) {
      var pq: seq<Call> := p + q;
      assert SetOp(pq[0].op) && SetOp(pq[|p|].op);
      forall r | r in group ensures AllSetOps(CallsOn(r, k)) {
        if CallsOn(r, k) != [] {
          var other := if r == s then t else s;
          CallsCrossParallel(r, other, k);
          var op := OneKind(CallsOn(r, k), CallsOn(other, k));
        }
      }
    }
  }

  /** The four runs on a shared key. */
  lemma SwapAt(a: Arithmetic, hash: Bytes -> Version, group: set<Spore>, store: Store, s: Spore, t: Spore, k: string)
    requires Exact(a) && Compatible(group) && s in group && t in group && s != t
    requires Succeeds(a, store, s) && Succeeds(a, store, t)
    requires CallsOn(s, k) != [] && CallsOn(t, k) != []
    ensures SimilarAt(group,
                      Slot(Write(a, hash, Write(a, hash, store, s), t), k),
                      Slot(Write(a, hash, Write(a, hash, store, t), s), k), k)
  {
    SuccessIsStable(a, hash, store, s, t);
    ConflictSymmetric(s, t);
    SuccessIsStable(a, hash, store, t, s);
    WriteAt(a, hash, store, s, k);
    WriteAt(a, hash, store, t, k);
    WriteAt(a, hash, Write(a, hash, store, s), t, k);
    WriteAt(a, hash, Write(a, hash, store, t), s, k);
    CallsCrossParallel(s, t, k);
    RunsExchange(a, Load(store, k), CallsOn(s, k), CallsOn(t, k));
    SharedKeyKind(group, s, t, k);
  }

  lemma Swap(a: Arithmetic, hash: Bytes -> Version, group: set<Spore>, store: Store, s: Spore, t: Spore)
    requires Exact(a) && Compatible(group) && s in group && t in group && s != t
    ensures Similar(group, Write(a, hash, Write(a, hash, store, s), t),
                           Write(a, hash, Write(a, hash, store, t), s))
  {
    SuccessIsStable(a, hash, store, s, t);
    ConflictSymmetric(s, t);
    SuccessIsStable(a, hash, store, t, s);
    forall k: string
      ensures SimilarAt(group,
                        Slot(Write(a, hash, Write(a, hash, store, s), t), k),
                        Slot(Write(a, hash, Write(a, hash, store, t), s), k), k)
    {
      if Succeeds(a, store, s) && Succeeds(a, store, t) && CallsOn(s, k) != [] && CallsOn(t, k) != [] {
        SwapAt(a, hash, group, store, s, t, k);
      } else {
        SwapElsewhere(a, hash, store, s, t, k);
      }
    }
  }

  /** Keys written by at most one of the two spores. */
  lemma SwapElsewhere(a: Arithmetic, hash: Bytes -> Version, store: Store, s: Spore, t: Spore, k: string)
    requires Succeeds(a, Write(a, hash, store, s), t) <==> Succeeds(a, store, t)
    requires Succeeds(a, Write(a, hash, store, t), s) <==> Succeeds(a, store, s)
    requires !(Succeeds(a, store, s) && Succeeds(a, store, t) && CallsOn(s, k) != [] && CallsOn(t, k) != [])
    ensures Slot(Write(a, hash, Write(a, hash, store, s), t), k) ==
            Slot(Write(a, hash, Write(a, hash, store, t), s), k)
  {
    WriteAt(a, hash, store, s, k);
    WriteAt(a, hash, store, t, k);
    WriteAt(a, hash, Write(a, hash, store, s), t, k);
    WriteAt(a, hash, Write(a, hash, store, t), s, k);
  }

  // ---------------------------------------------------------------- any order

  lemma {:induction false} WriteAllConcat(a: Arithmetic, hash: Bytes -> Version, store: Store, ss: seq<Spore>,
                                          ts: seq<Spore>)
    ensures WriteAll(a, hash, store, ss + ts) == WriteAll(a, hash, WriteAll(a, hash, store, ss), ts)
    decreases |ss|
  {
    if ss == [] {
      assert ss + ts == ts;
    } else {
      assert (ss + ts)[1..] == ss[1..] + ts;
      WriteAllConcat(a, hash, Write(a, hash, store, ss[0]), ss[1..], ts);
    }
  }

  /** A spore can be moved to the front of the list. */
  lemma {:induction false} MoveToFront(a: Arithmetic, hash: Bytes -> Version, group: set<Spore>, store: Store,
                                       ss: seq<Spore>, t: Spore)
    requires Exact(a) && Compatible(group) && t in group && t !in ss
    requires forall s :: s in ss ==> s in group
    ensures Similar(group, Write(a, hash, WriteAll(a, hash, store, ss), t),
                           WriteAll(a, hash, Write(a, hash, store, t), ss))
    decreases |ss|
  {
    if ss != [] {
      var s, rest := ss[0], ss[1..];
      assert s in ss;
      var store' := Write(a, hash, store, s);
      MoveToFront(a, hash, group, store', rest, t);
      Swap(a, hash, group, store, s, t);
      WriteAllKeepsSimilar(a, hash, group, Write(a, hash, store', t),
                           Write(a, hash, Write(a, hash, store, t), s), rest);
      SimilarTransitive(group, Write(a, hash, WriteAll(a, hash, store, ss), t),
                        WriteAll(a, hash, Write(a, hash, store', t), rest),
                        WriteAll(a, hash, Write(a, hash, store, t), ss));
    }
  }

  /** Position in the list does not matter for success. */
  lemma {:induction false} SuccessAnywhere(a: Arithmetic, hash: Bytes -> Version, group: set<Spore>,
                                           store: Store, ss: seq<Spore>, t: Spore)
    requires Exact(a) && Compatible(group) && t in group && t !in ss
    requires forall s :: s in ss ==> s in group
    ensures Succeeds(a, WriteAll(a, hash, store, ss), t) <==> Succeeds(a, store, t)
    decreases |ss|
  {
    if ss != [] {
      assert ss[0] in ss;
      SuccessIsStable(a, hash, store, ss[0], t);
      SuccessAnywhere(a, hash, group, Write(a, hash, store, ss[0]), ss[1..], t);
    }
  }

  lemma RemoveOneBag(x: seq<Spore>, y: seq<Spore>, ps: seq<Spore>)
    requires ps != [] && multiset(x + [ps[0]] + y) == multiset(ps)
    ensures multiset(x + y) == multiset(ps[1..])
  {
    BagOfThree(x, ps[0], y);
    BagOfTwo(ps);
    CancelOne(multiset(x + y), multiset(ps[1..]), ps[0]);
  }

  lemma BagOfTwo(ps: seq<Spore>)
    requires ps != []
    ensures multiset(ps) == multiset(ps[1..]) + multiset{ps[0]}
  {
    assert ps == [ps[0]] + ps[1..];
  }

  lemma CancelOne(a: multiset<Spore>, b: multiset<Spore>, t: Spore)
    requires a + multiset{t} == b + multiset{t}
    ensures a == b
  {
    assert a == a + multiset{t} - multiset{t} && b == b + multiset{t} - multiset{t};
  }

  lemma BagOfThree(x: seq<Spore>, t: Spore, y: seq<Spore>)
    ensures multiset(x + [t] + y) == multiset(x + y) + multiset{t}
  {
  }

  lemma RemoveOne(ss: seq<Spore>, ps: seq<Spore>, x: seq<Spore>, y: seq<Spore>)
    requires Distinct(ss) && ps != [] && multiset(ss) == multiset(ps)
    requires ss == x + [ps[0]] + y
    ensures Distinct(x + y) && ps[0] !in x
    ensures multiset(x + y) == multiset(ps[1..])
    ensures forall s: Spore :: s in x || s in y ==> s in ss
  {
    forall i, j | 0 <= i < j < |x + y| ensures (x + y)[i] != (x + y)[j] {
      var i', j' := if i < |x| then i else i + 1, if j < |x| then j else j + 1;
      assert ss[i'] == (x + y)[i] && ss[j'] == (x + y)[j];
    }
    assert ss[|x|] == ps[0];
    forall i | 0 <= i < |x| ensures x[i] != ps[0] {
      assert ss[i] == x[i];
    }
    RemoveOneBag(x, y, ps);
    forall i | 0 <= i < |y| ensures y[i] in ss {
      assert ss[|x| + 1 + i] == y[i];
    }
    forall i | 0 <= i < |x| ensures x[i] in ss {
      assert ss[i] == x[i];
    }
  }

  /** Where the first spore of one order stands in the other. */
  lemma FirstOf(ss: seq<Spore>, ps: seq<Spore>) returns (x: seq<Spore>, y: seq<Spore>)
    requires Distinct(ss) && ps != [] && multiset(ss) == multiset(ps)
    ensures ss == x + [ps[0]] + y && ps[0] in ss && ps[0] !in x
    ensures Distinct(x + y) && multiset(x + y) == multiset(ps[1..])
    ensures forall s: Spore :: s in x || s in y ==> s in ss
  {
    assert ps[0] in multiset(ss);
    var i :| 0 <= i < |ss| && ss[i] == ps[0];
    x, y := ss[..i], ss[i + 1..];
    assert ss == x + [ps[0]] + y;
    RemoveOne(ss, ps, x, y);
  }

  /** Taking a spore out of the middle of the list and doing it first. */
  lemma PullOut(a: Arithmetic, hash: Bytes -> Version, group: set<Spore>, store: Store, x: seq<Spore>,
                t: Spore, y: seq<Spore>)
    requires Exact(a) && Compatible(group) && t in group && t !in x
    requires forall s :: s in x || s in y ==> s in group
    ensures Similar(group, WriteAll(a, hash, store, x + [t] + y),
                           WriteAll(a, hash, Write(a, hash, store, t), x + y))
  {
    var mid, front := WriteAll(a, hash, store, x), Write(a, hash, store, t);
    assert x + [t] + y == x + ([t] + y) && ([t] + y)[1..] == y;
    WriteAllConcat(a, hash, store, x, [t] + y);
    MoveToFront(a, hash, group, store, x, t);
    WriteAllKeepsSimilar(a, hash, group, Write(a, hash, mid, t), WriteAll(a, hash, front, x), y);
    WriteAllConcat(a, hash, front, x, y);
  }

  /**
   * Confluence.  Take any spores of one policy, no two of which conflict, and any two orders of
   * applying them to the same store.  The two orders leave the same keys with the same content.
   */
  lemma {:induction false} AnyOrder(a: Arithmetic, hash: Bytes -> Version, group: set<Spore>, store: Store,
                                    ss: seq<Spore>, ps: seq<Spore>)
    requires Exact(a) && Compatible(group) && forall s :: s in ss ==> s in group
    requires Distinct(ss) && multiset(ss) == multiset(ps)
    ensures Similar(group, WriteAll(a, hash, store, ss), WriteAll(a, hash, store, ps))
    decreases |ps|
  {
    if ps == [] {
      assert |multiset(ss)| == |ss| && |multiset(ps)| == |ps|;
    } else {
      var t := ps[0];
      var x, y := FirstOf(ss, ps);
      var front := Write(a, hash, store, t);
      PullOut(a, hash, group, store, x, t, y);
      AnyOrder(a, hash, group, front, x + y, ps[1..]);
      SimilarTransitive(group, WriteAll(a, hash, store, ss), WriteAll(a, hash, front, x + y),
                        WriteAll(a, hash, store, ps));
    }
  }

  /** ... and each spore succeeds in its place exactly when it would succeed alone. */
  lemma SameSuccesses(a: Arithmetic, hash: Bytes -> Version, group: set<Spore>, store: Store, ss: seq<Spore>, i: nat)
    requires Exact(a) && Compatible(group) && Distinct(ss) && forall s :: s in ss ==> s in group
    requires i < |ss|
    ensures Succeeds(a, WriteAll(a, hash, store, ss[..i]), ss[i]) <==> Succeeds(a, store, ss[i])
  {
    assert ss[i] in ss;
    SuccessAnywhere(a, hash, group, store, ss[..i], ss[i]);
  }

  /** Stores with the same content decode to the same sets. */
  lemma SameContentSameMembers(x: Bytes, y: Bytes)
    requires SameContent(x, y) && ParseSet(x).Parsed?
    ensures ParseSet(y).Parsed? && Members(ParseSet(x).records) == Members(ParseSet(y).records)
    ensures |x| == |y|
  {
    var xs, ys := ParseSet(x).records, ParseSet(y).records;
    if x != y {
      forall e: Slice ensures e in xs <==> e in ys {
        assert e in xs <==> Bag(xs)[e] > 0;
        assert e in ys <==> Bag(ys)[e] > 0;
      }
      EncodeParse(x);
      EncodeParse(y);
      SameBagSameLength(xs, ys);
    }
  }

  lemma {:induction false} SameBagSameLength(xs: seq<Slice>, ys: seq<Slice>)
    requires Bag(xs) == Bag(ys)
    ensures |Encode(xs)| == |Encode(ys)|
    decreases |xs|
  {
    if xs == [] {
      assert |Bag(xs)| == |xs| && |Bag(ys)| == |ys|;
    } else {
      assert xs[0] in Bag(xs);
      var j := LastIndex(ys, xs[0]);
      CutMultiset(ys, j);
      CutBuffer(ys, j);
      CutMultiset(xs, 0);
      assert Without(xs, 0) == xs[1..];
      SameBagSameLength(xs[1..], Without(ys, j));
    }
  }

  // ---------------------------------------------------------------- what the hypotheses are for

  predicate AllSigns(b: Bytes)
  {
    forall i :: 0 <= i < |b| ==> b[i] >= 254
  }

  /** Integers written in unary, a sign in every byte. */
  function UnaryIntegers(): Arithmetic
  {
    Arithmetic(
      (b: Bytes) => if b == [] || !AllSigns(b) then None else Some(if b[0] == 255 then |b| - 1 else 1 - |b|),
      (n: Number) => if n >= 0 then seq(n + 1, _ => 255) else seq(1 - n, _ => 254),
      0,
      (x: Number, y: Number) => x + y,
      (x: Number, y: Number) => x * y)
  }

  lemma IntegersAreLawful()
    ensures Lawful(UnaryIntegers())
  {
    var a := UnaryIntegers();
    forall x: Number ensures FloatOf(a, a.render(x)) == Some(x) {
    }
  }

  lemma IntegersExchange()
    ensures Exchanges(UnaryIntegers(), UnaryIntegers().mul)
  {
    var a := UnaryIntegers();
    forall d: Slice, e: Slice, z: Number | FloatOf(a, d).Some? && FloatOf(a, e).Some?
      ensures a.mul(FloatOf(a, d).value, a.mul(FloatOf(a, e).value, z)) ==
              a.mul(FloatOf(a, e).value, a.mul(FloatOf(a, d).value, z))
    {
      MulExchanges(FloatOf(a, d).value, FloatOf(a, e).value, z);
    }
  }

  lemma MulExchanges(x: int, y: int, z: int)
    ensures x * (y * z) == y * (x * z)
  {
  }

  /** A text of signs announces a length that no element has. */
  lemma SignsAreNotASet(raw: Bytes)
    requires raw != [] && AllSigns(raw)
    ensures !ParseSet(raw).Parsed?
  {
    if |raw| >= 8 {
      assert raw[0..8][..8][7] == raw[7];
      Uint64.TopByte(raw[0..8][..8]);
    }
  }

  /** The laws asked of the arithmetic are those of a real one. */
  lemma IntegersAreExact()
    ensures Exact(UnaryIntegers()) && Legible(UnaryIntegers())
  {
    IntegersAreLawful();
    IntegersExchange();
    var a := UnaryIntegers();
    forall raw | raw != [] && ParseSet(raw).Parsed? ensures a.parse(raw).None? {
      if AllSigns(raw) {
        SignsAreNotASet(raw);
      }
    }
  }

  /** Spores of different policies are never in conflict, and need not commute. */
  lemma PoliciesDoNotExclude(a: Arithmetic, hash: Bytes -> Version, s: Spore, t: Spore, k: string, x: Slice, y: Slice)
    requires s.policy != t.policy && x != y
    requires s.operations == [Operation(k, SET, x)] && t.operations == [Operation(k, SET, y)]
    ensures !SporesConflict(s, t)
    ensures Write(a, hash, Write(a, hash, map[], s), t) != Write(a, hash, Write(a, hash, map[], t), s)
  {
    forall store: Store
      ensures Slot(Write(a, hash, store, s), k) == Some(Entry(x, hash(x)))
      ensures Slot(Write(a, hash, store, t), k) == Some(Entry(y, hash(y)))
    {
      OneSet(a, hash, store, s, k, x);
      OneSet(a, hash, store, t, k, y);
    }
    assert Slot(Write(a, hash, Write(a, hash, map[], s), t), k) == Some(Entry(y, hash(y)));
    assert Slot(Write(a, hash, Write(a, hash, map[], t), s), k) == Some(Entry(x, hash(x)));
  }

  lemma OneSet(a: Arithmetic, hash: Bytes -> Version, store: Store, s: Spore, k: string, x: Slice)
    requires s.operations == [Operation(k, SET, x)]
    ensures Slot(Write(a, hash, store, s), k) == Some(Entry(x, hash(x)))
  {
    var values: ValueMap := map[k := NewValue(x)];
    assert s.operations[1..] == [];
    assert RunOps(a, store, s.operations, map[]) == Finished(values);
  }
}
