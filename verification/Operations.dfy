/** db/operation.go and db/spore.go: operations, spores and the conflict relation between them. */
module Operations {
  import opened Prelude
  import opened Values

  datatype Operation = Operation(key: string, op: Op, data: Slice)

  /** The hash of a value; db/version/version.go. */
  type Version = Bytes

  datatype Spore = Spore(
    uuid: string,
    policy: string,
    emitter: string,
    deadline: Option<int>,
    requirements: map<string, Version>,
    operations: seq<Operation>,
    signature: Bytes)

  type ParallelType = bv8
  const DEFAULT: ParallelType := 0x01
  const DISALLOW_DIFFERENT: ParallelType := 0x02
  const DISALLOW_EQUAL: ParallelType := 0x04

  const PARALLEL_MATRIX: map<Op, map<Op, ParallelType>> :=
    map[SET := map[SET := DISALLOW_DIFFERENT],
        ADD := map[ADD := DEFAULT],
        MUL := map[MUL := DEFAULT],
        SADD := map[SADD := DEFAULT, SREM := DISALLOW_EQUAL],
        SREM := map[SREM := DEFAULT, SADD := DISALLOW_EQUAL]]

  /** Operation.CheckConflict returns an error. */
  predicate Conflicts(o: Operation, o2: Operation)
  {
    if o.key != o2.key then false
    else if o.op !in PARALLEL_MATRIX then true
    else
      var row := PARALLEL_MATRIX[o.op];
      var t: ParallelType := if o2.op in row then row[o2.op] else 0;
      if t == 0 then true
      else if DEFAULT & t > 0 then false
      else if o.data == o2.data && DISALLOW_EQUAL & t > 0 then true
      else o.data != o2.data && DISALLOW_DIFFERENT & t > 0
  }

  predicate SetOp(op: Op)
  {
    op.SADD? || op.SREM?
  }

  /** What the table lets through on one key, said without the table. */
  predicate Parallel(op: Op, data: Slice, op2: Op, data2: Slice)
  {
    || (op.SET? && op2.SET? && data == data2)
    || (op.ADD? && op2.ADD?)
    || (op.MUL? && op2.MUL?)
    || (SetOp(op) && SetOp(op2) && (op == op2 || data != data2))
  }

  /** The table, its flags and its missing entries amount to `Parallel`. */
  lemma ConflictMeans(o: Operation, o2: Operation)
    ensures Conflicts(o, o2) <==> o.key == o2.key && !Parallel(o.op, o.data, o2.op, o2.data)
    ensures Conflicts(o, o2) <==>
            && o.key == o2.key
            && !(o.op == SET && o2.op == SET && o.data == o2.data)
            && !(o.op == ADD && o2.op == ADD)
            && !(o.op == MUL && o2.op == MUL)
            && !(o.op in {SADD, SREM} && o2.op in {SADD, SREM} && (o.op == o2.op || o.data != o2.data))
  {
    assert DEFAULT & DEFAULT > 0 && DEFAULT & DISALLOW_EQUAL == 0 && DEFAULT & DISALLOW_DIFFERENT == 0;
    assert DISALLOW_EQUAL & DISALLOW_EQUAL > 0 && DISALLOW_DIFFERENT & DISALLOW_DIFFERENT > 0;
    assert DISALLOW_EQUAL & DISALLOW_DIFFERENT == 0 && DISALLOW_DIFFERENT & DISALLOW_EQUAL == 0;
  }

  ghost predicate SporesConflict(s: Spore, s2: Spore)
  {
    && s.policy == s2.policy
    && exists i, j :: 0 <= i < |s.operations| && 0 <= j < |s2.operations| &&
                      Conflicts(s.operations[i], s2.operations[j])
  }

  /** Refusing one spore because of another does not depend on which came first. */
  lemma ConflictSymmetric(s: Spore, s2: Spore)
    ensures SporesConflict(s, s2) <==> SporesConflict(s2, s)
  {
    forall o: Operation, o2: Operation ensures Conflicts(o, o2) <==> Conflicts(o2, o) {
      ConflictMeans(o, o2);
      ConflictMeans(o2, o);
    }
  }

  /** Spore.CheckConflict. */
  method CheckConflict(s: Spore, s2: Spore) returns (err: bool)
    ensures err <==> SporesConflict(s, s2)
  {
    if s.policy != s2.policy {
      return false;
    }
    for i := 0 to |s.operations|
      invariant forall x, y :: 0 <= x < i && 0 <= y < |s2.operations| ==>
                  !Conflicts(s.operations[x], s2.operations[y])
    {
      for j := 0 to |s2.operations|
        invariant forall y :: 0 <= y < j ==> !Conflicts(s.operations[i], s2.operations[y])
      {
        if Conflicts(s.operations[i], s2.operations[j]) {
          return true;
        }
      }
    }
    return false;
  }

  /** CONCAT is in conflict with everything on its key, itself included. */
  lemma ConcatConflictsWithItself(s: Spore)
    requires exists i :: 0 <= i < |s.operations| && s.operations[i].op == CONCAT
    ensures SporesConflict(s, s)
  {
    var i :| 0 <= i < |s.operations| && s.operations[i].op == CONCAT;
    ConflictMeans(s.operations[i], s.operations[i]);
  }
}
