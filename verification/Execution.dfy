/**
 * The loop that CanEndorse and Apply share: run a spore's operations in order on values that
 * are loaded from the store the first time their key is met.
 */
module Execution {
  import opened Prelude
  import opened Values
  import opened Operations

  datatype Entry = Entry(data: Bytes, version: Version)
  type Store = map<string, Entry>

  /** Store.Get, as the loops use it: no data for an unknown key. */
  function Load(store: Store, k: string): Bytes
  {
    if k in store then store[k].data else []
  }

  type ValueMap = map<string, ValueState>

  /** The value the loops work on for key `k`. */
  function Current(store: Store, values: ValueMap, k: string): ValueState
  {
    if k in values then values[k] else NewValue(Load(store, k))
  }

  datatype Run = Finished(values: ValueMap) | Aborted(error: ExecError)

  function RunOps(a: Arithmetic, store: Store, ops: seq<Operation>, values: ValueMap): Run
    decreases |ops|
  {
    if ops == [] then Finished(values) else
      var o := ops[0];
      match Exec(a, o.op, o.data, Current(store, values, o.key))
      case Done(v) => RunOps(a, store, ops[1..], values[o.key := v])
      case Failed(e) => Aborted(e)
  }

  /** What the final batch puts in the store: each value with its hash. */
  function Written(hash: Bytes -> Version, values: ValueMap): Store
  {
    map k | k in values :: Entry(values[k].raw, hash(values[k].raw))
  }

  // ---------------------------------------------------------------- one key at a time

  /** The operations on key `k`, in order. */
  function KeyCalls(ops: seq<Operation>, k: string): (calls: seq<Call>)
    decreases |ops|
  {
    if ops == [] then [] else
      var rest := KeyCalls(ops[1..], k);
      if ops[0].key == k then [Call(ops[0].op, ops[0].data)] + rest else rest
  }

  function Keys(ops: seq<Operation>): set<string>
  {
    set i | 0 <= i < |ops| :: ops[i].key
  }

  lemma KeysCons(ops: seq<Operation>)
    requires ops != []
    ensures Keys(ops) == {ops[0].key} + Keys(ops[1..])
  {
    forall k | k in Keys(ops) ensures k in {ops[0].key} + Keys(ops[1..]) {
      var i :| 0 <= i < |ops| && ops[i].key == k;
      if i > 0 {
        assert ops[1..][i - 1].key == k;
      }
    }
    forall k | k in Keys(ops[1..]) ensures k in Keys(ops) {
      var i :| 0 <= i < |ops[1..]| && ops[1..][i].key == k;
      assert ops[i + 1].key == k;
    }
  }

  /** Every call of the projection is one of the operations on that key. */
  lemma {:induction false} CallsComeFromOps(ops: seq<Operation>, k: string, i: nat)
    requires i < |KeyCalls(ops, k)|
    ensures exists j :: 0 <= j < |ops| && ops[j] == Operation(k, KeyCalls(ops, k)[i].op, KeyCalls(ops, k)[i].data)
    decreases |ops|
  {
    var rest := KeyCalls(ops[1..], k);
    var c := KeyCalls(ops, k)[i];
    if ops[0].key == k && i == 0 {
      assert ops[0] == Operation(k, c.op, c.data);
    } else {
      var i' := if ops[0].key == k then i - 1 else i;
      CallsComeFromOps(ops[1..], k, i');
      var j :| 0 <= j < |ops[1..]| && ops[1..][j] == Operation(k, c.op, c.data);
      assert ops[j + 1] == Operation(k, c.op, c.data);
    }
  }

  lemma {:induction false} TouchedKeys(ops: seq<Operation>, k: string)
    ensures KeyCalls(ops, k) != [] <==> k in Keys(ops)
    decreases |ops|
  {
    if ops != [] {
      KeysCons(ops);
      TouchedKeys(ops[1..], k);
    }
  }

  /** What happens to key `k` alone. */
  function KeyRun(a: Arithmetic, store: Store, values: ValueMap, ops: seq<Operation>, k: string): Outcome
  {
    RunCached(a, Current(store, values, k), KeyCalls(ops, k))
  }

  ghost predicate AllKeysRun(a: Arithmetic, store: Store, values: ValueMap, ops: seq<Operation>)
  {
    forall k :: k in Keys(ops) ==> KeyRun(a, store, values, ops, k).Done?
  }

  /** One operation on its own key leaves the other keys' runs alone. */
  lemma KeyRunStep(a: Arithmetic, store: Store, values: ValueMap, ops: seq<Operation>, v: ValueState, k: string)
    requires ops != []
    requires Exec(a, ops[0].op, ops[0].data, Current(store, values, ops[0].key)) == Done(v)
    ensures KeyRun(a, store, values, ops, k) == KeyRun(a, store, values[ops[0].key := v], ops[1..], k)
  {
    var calls := KeyCalls(ops, k);
    if ops[0].key == k {
      assert calls[1..] == KeyCalls(ops[1..], k);
    }
  }

  lemma KeyRunFails(a: Arithmetic, store: Store, values: ValueMap, ops: seq<Operation>)
    requires ops != []
    requires Exec(a, ops[0].op, ops[0].data, Current(store, values, ops[0].key)).Failed?
    ensures KeyRun(a, store, values, ops, ops[0].key).Failed? && ops[0].key in Keys(ops)
  {
    KeysCons(ops);
  }

  /**
   * The whole run succeeds exactly when every key's own run does, and then leaves on each key
   * what that key's run leaves.
   */
  lemma {:induction false} Projection(a: Arithmetic, store: Store, ops: seq<Operation>, values: ValueMap)
    ensures RunOps(a, store, ops, values).Finished? <==> AllKeysRun(a, store, values, ops)
    ensures RunOps(a, store, ops, values).Finished? ==>
              var r := RunOps(a, store, ops, values).values;
              && r.Keys == values.Keys + Keys(ops)
              && forall k :: k in r ==> KeyRun(a, store, values, ops, k) == Done(r[k])
    decreases |ops|
  {
    if ops == [] {
    } else {
      var o := ops[0];
      KeysCons(ops);
      match Exec(a, o.op, o.data, Current(store, values, o.key)) {
        case Failed(e) =>
          KeyRunFails(a, store, values, ops);
        case Done(v) =>
          var values' := values[o.key := v];
          Projection(a, store, ops[1..], values');
          forall k ensures KeyRun(a, store, values, ops, k) == KeyRun(a, store, values', ops[1..], k) {
            KeyRunStep(a, store, values, ops, v, k);
          }
          if o.key !in Keys(ops[1..]) {
            TouchedKeys(ops[1..], o.key);
            assert KeyRun(a, store, values', ops[1..], o.key) == Done(v);
          }
      }
    }
  }
}
