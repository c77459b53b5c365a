/**
 * db/operations: the runners that turn one stored value into the next one, and the
 * Value object that caches the numeric and the set form of its bytes between runs.
 */
module Values {
  import opened Prelude
  import opened EncodedSet
  import Uint64

  // ---------------------------------------------------------------- numbers

  /** A code for a number; the carrier only has to be countable. */
  type Number = int

  /** Number parsing, printing and arithmetic, left open: db/encoding/float.go is not modelled. */
  datatype Arithmetic = Arithmetic(
    parse: Bytes -> Option<Number>,
    render: Number -> Bytes,
    zero: Number,
    add: (Number, Number) -> Number,
    mul: (Number, Number) -> Number)

  /** Float.UnmarshalBinary: no bytes at all stand for zero. */
  function FloatOf(a: Arithmetic, raw: Bytes): Option<Number>
  {
    if raw == [] then Some(a.zero) else a.parse(raw)
  }

  /** Printing loses nothing and zero is neutral. */
  ghost predicate Lawful(a: Arithmetic)
  {
    && (forall x :: FloatOf(a, a.render(x)) == Some(x))
    && (forall x :: a.add(a.zero, x) == x)
  }

  /** Numbers are not printed as nothing, and their texts are not those of stored elements. */
  ghost predicate Legible(a: Arithmetic)
  {
    && Lawful(a)
    && (forall x :: a.render(x) != [])
    && (forall raw :: raw != [] && ParseSet(raw).Parsed? ==> a.parse(raw).None?)
  }

  /** Number texts hold no zero byte, while every set buffer shorter than 2^56 bytes starts with one. */
  lemma SetsHoldZeroBytes(raw: Bytes)
    requires raw != [] && ParseSet(raw).Parsed? && |raw| < 0x100_0000_0000_0000
    ensures |raw| >= 8 && raw[7] == 0
  {
    assert |raw| >= 8;
    Uint64.TopByte(raw[0..8]);
    assert raw[0..8][..8] == raw[0..8];
  }

  lemma Rendered(a: Arithmetic, x: Number)
    requires Lawful(a)
    ensures FloatOf(a, a.render(x)) == Some(x)
  {
  }

  /** Two successive additions, or multiplications, of numbers that operations can carry can be exchanged. */
  ghost predicate Exchanges(a: Arithmetic, f: (Number, Number) -> Number)
  {
    forall d: Slice, e: Slice, z: Number ::
      FloatOf(a, d).Some? && FloatOf(a, e).Some? ==>
        f(FloatOf(a, d).value, f(FloatOf(a, e).value, z)) == f(FloatOf(a, e).value, f(FloatOf(a, d).value, z))
  }

  ghost predicate Exact(a: Arithmetic)
  {
    Lawful(a) && Exchanges(a, a.add) && Exchanges(a, a.mul)
  }

  // ---------------------------------------------------------------- operations on one value

  datatype Op = SET | CONCAT | ADD | MUL | SADD | SREM | Unknown(code: int)

  datatype ExecError = NotNumeric | NotValidSet | EmptySetElement | NotImplemented | Crash

  /** The fields of a Value. */
  datatype ValueState = ValueState(raw: Bytes, vfloat: Option<Number>, vset: Option<Rep>)

  datatype Outcome = Done(value: ValueState) | Failed(error: ExecError)

  function NewValue(raw: Bytes): ValueState
  {
    ValueState(raw, None, None)
  }

  /** Value.Float: the cached number if there is one. */
  function CurrentFloat(a: Arithmetic, v: ValueState): Option<Number>
  {
    if v.vfloat.Some? then v.vfloat else FloatOf(a, v.raw)
  }

  datatype Loading = Ready(rep: Rep) | Broken(error: ExecError)

  /** Value.Set: the cached set if there is one. */
  function CurrentSet(v: ValueState): Loading
  {
    if v.vset.Some? then Ready(v.vset.value) else
      match ParseSet(v.raw)
      case Parsed(rs) => Ready(Loaded(rs))
      case UnexpectedEOF => Broken(NotValidSet)
      case Panic => Broken(Crash)
  }

  function ExecFloat(a: Arithmetic, data: Slice, v: ValueState, adding: bool): Outcome
  {
    var current, input := CurrentFloat(a, v), FloatOf(a, data);
    if current.None? || input.None? then Failed(NotNumeric)
    else
      var r := if adding then a.add(input.value, current.value) else a.mul(input.value, current.value);
      Done(v.(raw := a.render(r), vfloat := Some(r)))
  }

  function ExecSet(data: Slice, v: ValueState, adding: bool): Outcome
  {
    match CurrentSet(v)
    case Broken(e) => Failed(e)
    case Ready(rep) =>
      if data == [] then Failed(EmptySetElement)
      else
        var rep' := if adding then Insert(rep, data) else Delete(rep, data);
        Done(v.(raw := Encode(rep'.records), vset := Some(rep')))
  }

  /** Operation.Exec: the runner selected by the operation. */
  function Exec(a: Arithmetic, op: Op, data: Slice, v: ValueState): Outcome
  {
    match op
    case SET => Done(NewValue(data))
    case CONCAT => Done(NewValue(v.raw + data))
    case ADD => ExecFloat(a, data, v, true)
    case MUL => ExecFloat(a, data, v, false)
    case SADD => ExecSet(data, v, true)
    case SREM => ExecSet(data, v, false)
    case Unknown(_) => Failed(NotImplemented)
  }

  /** No slice made by an operation on `data` outgrows what Go can allocate. */
  ghost predicate Allocatable(v: ValueState, data: Slice)
  {
    && |v.raw| + 8 + |data| < TWO63
    && (v.vset.Some? ==> |Encode(v.vset.value.records)| + 8 + |data| < TWO63)
  }

  // ---------------------------------------------------------------- what the operations mean

  /** SET replaces the bytes and CONCAT appends to them, whatever was cached. */
  lemma BytesMean(a: Arithmetic, data: Slice, v: ValueState)
    ensures Exec(a, SET, data, v) == Done(ValueState(data, None, None))
    ensures Exec(a, CONCAT, data, v) == Done(ValueState(v.raw + data, None, None))
  {
  }

  /** ADD and MUL need two numbers, no bytes standing for zero, and leave the text of the result. */
  lemma NumbersMean(a: Arithmetic, op: Op, data: Slice, raw: Bytes)
    requires op == ADD || op == MUL
    ensures var x := if data == [] then Some(a.zero) else a.parse(data);
            var y := if raw == [] then Some(a.zero) else a.parse(raw);
            match Exec(a, op, data, NewValue(raw))
            case Done(v) =>
              && x.Some? && y.Some?
              && v.raw == a.render(if op == ADD then a.add(x.value, y.value) else a.mul(x.value, y.value))
            case Failed(e) => (x.None? || y.None?) && e == NotNumeric
  {
  }

  lemma MembersOf(rs: seq<Slice>, e: Slice)
    ensures Members(Insert(Loaded(rs), e).records) == Members(rs) + {e}
    ensures e in rs ==> Insert(Loaded(rs), e).records == rs
    ensures e !in rs ==> Insert(Loaded(rs), e).records == rs + [e]
  {
    MembersSnoc(rs, e);
    assert e in Loaded(rs).live <==> e in rs;
    if e in rs {
      assert Members(rs) + {e} == Members(rs);
    }
  }

  /** SADD and SREM need the bytes of a set and a non-empty element; other operations do not exist. */
  lemma SetsMean(a: Arithmetic, data: Slice, raw: Bytes, code: int)
    ensures match ParseSet(raw)
            case Parsed(rs) =>
              if data == [] then
                && Exec(a, SADD, data, NewValue(raw)) == Failed(EmptySetElement)
                && Exec(a, SREM, data, NewValue(raw)) == Failed(EmptySetElement)
              else
                && Exec(a, SADD, data, NewValue(raw)).Done?
                && ParseSet(Exec(a, SADD, data, NewValue(raw)).value.raw) ==
                   Parsed(if data in rs then rs else rs + [data])
                && Exec(a, SREM, data, NewValue(raw)).Done?
                && (data !in rs ==> ParseSet(Exec(a, SREM, data, NewValue(raw)).value.raw) == Parsed(rs))
                && (data in rs ==> ParseSet(Exec(a, SREM, data, NewValue(raw)).value.raw) ==
                                   Parsed(rs[..LastIndex(rs, data)] + rs[LastIndex(rs, data) + 1..]))
            case UnexpectedEOF =>
              && Exec(a, SADD, data, NewValue(raw)) == Failed(NotValidSet)
              && Exec(a, SREM, data, NewValue(raw)) == Failed(NotValidSet)
            case Panic =>
              && Exec(a, SADD, data, NewValue(raw)) == Failed(Crash)
              && Exec(a, SREM, data, NewValue(raw)) == Failed(Crash)
    ensures Exec(a, Unknown(code), data, NewValue(raw)) == Failed(NotImplemented)
  {
    if ParseSet(raw).Parsed? && data != [] {
      var rs := ParseSet(raw).records;
      MembersOf(rs, data);
      ParseEncode(Insert(Loaded(rs), data).records);
      ParseEncode(Delete(Loaded(rs), data).records);
      assert data in Loaded(rs).live <==> data in rs;
    }
  }

  // ---------------------------------------------------------------- the value object

  class Value {
    var Raw: Bytes
    var vfloat: Option<Number>
    var vset: Set?

    ghost predicate Valid()
      reads this, vset
    {
      vset != null ==> vset.Valid()
    }

    ghost function State(): ValueState
      reads this, vset
      requires Valid()
    {
      ValueState(Raw, vfloat, if vset == null then None else Some(vset.Contents()))
    }

    /** The same, told from the state. */
    lemma EnoughRoom(data: Slice)
      requires Valid() && Allocatable(State(), data)
      ensures Room(data)
    {
      if vset != null {
        EncodeParse(vset.raw);
      }
    }

    /** No slice made by an operation on `data` can outgrow what Go can allocate. */
    ghost predicate Room(data: Slice)
      reads this, vset
    {
      && |Raw| + 8 + |data| < TWO63
      && (vset != null ==> |vset.raw| + 8 + |data| < TWO63)
    }

    constructor (raw: Bytes)
      ensures Valid() && State() == NewValue(raw)
      ensures vset == null
    {
      Raw, vfloat, vset := raw, None, null;
    }

    method Reset()
      modifies this
      ensures vfloat == None && vset == null && Raw == old(Raw)
    {
      vfloat, vset := None, null;
    }

    method Float(a: Arithmetic) returns (r: Option<Number>)
      requires Valid()
      modifies this`vfloat
      ensures Valid()
      ensures r == CurrentFloat(a, old(State()))
      ensures State() == old(State()).(vfloat := r)
    {
      if vfloat.Some? {
        return vfloat;
      }
      r := FloatOf(a, Raw);
      if r.None? {
        return;
      }
      vfloat := r;
    }

    method LoadSet() returns (err: Option<ExecError>)
      requires Valid() && |Raw| < TWO63
      modifies this`vset
      ensures Valid()
      ensures Raw == old(Raw) && vfloat == old(vfloat)
      ensures vset == old(vset) || fresh(vset)
      ensures vset != null && fresh(vset) ==> vset.raw == Raw
      ensures match CurrentSet(old(State()))
              case Ready(rep) => err.None? && vset != null && vset.Contents() == rep
              case Broken(e) => err == Some(e) && vset == old(vset)
    {
      if vset != null {
        return None;
      }
      var s := new Set();
      var outcome, ok, panicked := s.UnmarshalBinary(Raw);
      if panicked {
        return Some(Crash);
      }
      if !ok {
        return Some(NotValidSet);
      }
      vset := s;
      return None;
    }

    /** floatGeneric. */
    method FloatGeneric(a: Arithmetic, input: Slice, adding: bool) returns (err: Option<ExecError>)
      requires Valid()
      modifies this
      ensures Valid() && vset == old(vset)
      ensures match ExecFloat(a, input, old(State()), adding)
              case Done(v) => err.None? && State() == v
              case Failed(e) => err == Some(e) && Raw == old(Raw)
    {
      var b := Float(a);
      var x := FloatOf(a, input);
      if b.None? || x.None? {
        return Some(NotNumeric);
      }
      if adding {
        vfloat := Some(a.add(x.value, b.value));
      } else {
        vfloat := Some(a.mul(x.value, b.value));
      }
      Raw := a.render(vfloat.value);
      return None;
    }

    /** setGeneric. */
    method SetGeneric(input: Slice, adding: bool) returns (err: Option<ExecError>)
      requires Valid() && Room(input)
      modifies this, vset
      ensures Valid()
      ensures vset == old(vset) || fresh(vset)
      ensures match ExecSet(input, old(State()), adding)
              case Done(v) => err.None? && State() == v
              case Failed(e) => err == Some(e) && Raw == old(Raw)
    {
      err := LoadSet();
      if err.Some? {
        return;
      }
      var bad;
      if adding {
        var _, e := vset.Add(input);
        bad := e.EmptyElement?;
      } else {
        var _, e := vset.Remove(input);
        bad := e.EmptyElement?;
      }
      if bad {
        return Some(EmptySetElement);
      }
      Raw := vset.MarshalBinary();
    }

    /** Every runner, cached forms included, does what Exec says on the fields it works on. */
    method Run(a: Arithmetic, op: Op, data: Slice) returns (err: Option<ExecError>)
      requires Valid() && Room(data)
      modifies this, vset
      ensures Valid() && (vset == old(vset) || vset == null || fresh(vset))
      ensures match Exec(a, op, data, old(State()))
              case Done(v) => err.None? && State() == v
              case Failed(e) => err == Some(e) && Raw == old(Raw)
    {
      match op {
        case SET =>
          Reset();
          Raw := data;
          return None;
        case CONCAT =>
          Reset();
          Raw := Raw + data;
          return None;
        case ADD => err := FloatGeneric(a, data, true);
        case MUL => err := FloatGeneric(a, data, false);
        case SADD => err := SetGeneric(data, true);
        case SREM => err := SetGeneric(data, false);
        case Unknown(_) => return Some(NotImplemented);
      }
    }
  }

  // ---------------------------------------------------------------- when the caches are right

  /** The cached forms are what the bytes decode to (no operation can tell an empty record). */
  ghost predicate Coherent(a: Arithmetic, v: ValueState)
  {
    && (v.vfloat.Some? ==> FloatOf(a, v.raw) == v.vfloat)
    && (v.vset.Some? ==>
          && ParseSet(v.raw) == Parsed(v.vset.value.records)
          && forall x :: x != [] ==> (x in v.vset.value.live <==> x in v.vset.value.records))
  }

  /** Two outcomes that leave the same bytes, or the same error. */
  ghost predicate Agree(o: Outcome, o': Outcome)
  {
    match (o, o')
    case (Done(v), Done(v')) => v.raw == v'.raw
    case (Failed(e), Failed(e')) => e == e'
    case _ => false
  }

  /** Running on the object and running on its bytes parsed afresh. */
  ghost predicate CacheIsInvisible(a: Arithmetic, v: ValueState, op: Op, data: Slice)
  {
    Agree(Exec(a, op, data, v), Exec(a, op, data, NewValue(v.raw)))
  }

  /** Two sets that hold the same records and the same non-empty elements change alike. */
  lemma SameRecords(r: Rep, q: Rep, e: Slice)
    requires e != [] && r.records == q.records && (e in r.live <==> e in q.live)
    ensures Insert(r, e).records == Insert(q, e).records
    ensures Delete(r, e).records == Delete(q, e).records
  {
  }

  lemma CoherentSetAgrees(a: Arithmetic, v: ValueState, data: Slice, adding: bool)
    requires Coherent(a, v)
    ensures Agree(ExecSet(data, v, adding), ExecSet(data, NewValue(v.raw), adding))
  {
    if v.vset.Some? {
      var rs := v.vset.value.records;
      assert CurrentSet(NewValue(v.raw)) == Ready(Loaded(rs));
      if data != [] {
        assert data in Loaded(rs).live <==> data in rs;
        SameRecords(v.vset.value, Loaded(rs), data);
      }
    }
  }

  lemma CoherentFloatAgrees(a: Arithmetic, v: ValueState, data: Slice, adding: bool)
    requires Coherent(a, v)
    ensures Agree(ExecFloat(a, data, v, adding), ExecFloat(a, data, NewValue(v.raw), adding))
  {
  }

  lemma CoherentAgrees(a: Arithmetic, v: ValueState, op: Op, data: Slice)
    requires Coherent(a, v)
    ensures CacheIsInvisible(a, v, op, data)
  {
    match op {
      case ADD => CoherentFloatAgrees(a, v, data, true);
      case MUL => CoherentFloatAgrees(a, v, data, false);
      case SADD => CoherentSetAgrees(a, v, data, true);
      case SREM => CoherentSetAgrees(a, v, data, false);
      case _ =>
    }
  }

  lemma FloatCacheVisible(a: Arithmetic, v: ValueState)
    requires Lawful(a) && v.vfloat.Some? && FloatOf(a, v.raw) != v.vfloat
    ensures !CacheIsInvisible(a, v, ADD, [])
  {
    var f := v.vfloat.value;
    Rendered(a, f);
    if FloatOf(a, v.raw).Some? {
      Rendered(a, FloatOf(a, v.raw).value);
    }
  }

  lemma EncodeInjective(rs: seq<Slice>, rs': seq<Slice>)
    requires Encode(rs) == Encode(rs')
    ensures rs == rs'
  {
    ParseEncode(rs);
    ParseEncode(rs');
  }

  /** If adding `x` leaves the same bytes either way, the record lists differ by `x` at most. */
  lemma SaddAgrees(a: Arithmetic, v: ValueState, x: Slice)
    requires v.vset.Some? && x != [] && CacheIsInvisible(a, v, SADD, x)
    ensures ParseSet(v.raw).Parsed?
    ensures Insert(v.vset.value, x).records == Insert(Loaded(ParseSet(v.raw).records), x).records
  {
    EncodeInjective(Insert(v.vset.value, x).records, Insert(Loaded(ParseSet(v.raw).records), x).records);
  }

  lemma AppendCases(r: Rep, q: Rep, x: Slice)
    requires Insert(r, x).records == Insert(q, x).records
    ensures || r.records == q.records
            || r.records == q.records + [x]
            || q.records == r.records + [x]
  {
    if x !in r.live && x !in q.live {
      assert (r.records + [x])[..|r.records|] == r.records;
      assert (q.records + [x])[..|q.records|] == q.records;
    }
  }

  lemma SetCacheInvisible(a: Arithmetic, v: ValueState)
    requires v.vset.Some?
    requires forall x :: CacheIsInvisible(a, v, SADD, x)
    ensures ParseSet(v.raw) == Parsed(v.vset.value.records)
    ensures forall x: Slice :: x != [] ==> (x in v.vset.value.live <==> x in v.vset.value.records)
  {
    var e1: Slice, e2: Slice := [0], [1];
    SaddAgrees(a, v, e1);
    SaddAgrees(a, v, e2);
    var rs, ps := v.vset.value.records, ParseSet(v.raw).records;
    AppendCases(v.vset.value, Loaded(ps), e1);
    AppendCases(v.vset.value, Loaded(ps), e2);
    assert e1[0] != e2[0];
    assert (ps + [e1])[|ps|] != (ps + [e2])[|ps|] && (rs + [e1])[|rs|] != (rs + [e2])[|rs|];
    assert rs == ps;
    forall x: Slice | x != []
      ensures x in v.vset.value.live <==> x in rs
    {
      SaddAgrees(a, v, x);
    }
  }

  /**
   * The cached forms go unnoticed by every operation if and only if they are what the bytes
   * decode to.
   */
  lemma InvisibleIffCoherent(a: Arithmetic, v: ValueState)
    requires Lawful(a)
    ensures (forall op, data :: CacheIsInvisible(a, v, op, data)) <==> Coherent(a, v)
  {
    if Coherent(a, v) {
      forall op, data ensures CacheIsInvisible(a, v, op, data) {
        CoherentAgrees(a, v, op, data);
      }
    } else if forall op, data :: CacheIsInvisible(a, v, op, data) {
      if v.vfloat.Some? && FloatOf(a, v.raw) != v.vfloat {
        FloatCacheVisible(a, v);
      } else {
        SetCacheInvisible(a, v);
      }
    }
  }

  // ---------------------------------------------------------------- when an operation keeps them right

  ghost function Occurrences(v: ValueState, x: Slice): nat
  {
    match CurrentSet(v)
    case Ready(rep) => Bag(rep.records)[x]
    case Broken(_) => 0
  }

  /**
   * What keeps the caches right, told from the bytes the operation leaves: a numeric operation
   * does not change the bytes of a cached set, a set operation does not change the value of a
   * cached number, and SREM does not meet an element stored twice.
   */
  ghost predicate BytesFit(a: Arithmetic, v: ValueState, op: Op, data: Slice, raw': Bytes)
  {
    match op
    case ADD => v.vset.Some? ==> raw' == v.raw
    case MUL => v.vset.Some? ==> raw' == v.raw
    case SADD => v.vfloat.Some? ==> FloatOf(a, raw') == v.vfloat
    case SREM => (v.vfloat.Some? ==> FloatOf(a, raw') == v.vfloat) && Occurrences(v, data) <= 1
    case _ => true
  }

  /**
   * The same, told before the operation: no numeric operation on a cached set, no SADD on a
   * cached number, and no SREM of an element stored twice.
   */
  ghost predicate KeepsCaches(v: ValueState, op: Op, data: Slice)
  {
    match op
    case ADD => v.vset.None?
    case MUL => v.vset.None?
    case SADD => v.vfloat.None?
    case SREM => Occurrences(v, data) <= 1
    case _ => true
  }

  lemma InsertKeeps(r: Rep, e: Slice)
    requires forall x :: x != [] ==> (x in r.live <==> x in r.records)
    ensures forall x :: x != [] ==> (x in Insert(r, e).live <==> x in Insert(r, e).records)
  {
  }

  /** The records with their multiplicities. */
  function Bag(rs: seq<Slice>): multiset<Slice>
  {
    multiset(rs)
  }

  lemma CutMultiset(rs: seq<Slice>, j: nat)
    requires j < |rs|
    ensures Bag(rs)[rs[j]] > 0
    ensures Bag(Without(rs, j)) == Bag(rs)[rs[j] := Bag(rs)[rs[j]] - 1]
  {
    assert rs == rs[..j] + [rs[j]] + rs[j + 1..];
  }

  lemma DeleteKeeps(r: Rep, e: Slice)
    requires e != []
    requires forall x :: x != [] ==> (x in r.live <==> x in r.records)
    ensures (forall x :: x != [] ==> (x in Delete(r, e).live <==> x in Delete(r, e).records))
            <==> Bag(r.records)[e] <= 1
  {
    if e in r.live {
      var j := LastIndex(r.records, e);
      CutMultiset(r.records, j);
      var rs' := Delete(r, e).records;
      forall x: Slice ensures x in rs' <==> Bag(rs')[x] > 0 {
      }
      forall x: Slice ensures x in r.records <==> Bag(r.records)[x] > 0 {
      }
      assert Bag(rs')[e] == Bag(r.records)[e] - 1;
    } else {
      assert e !in Bag(r.records);
    }
  }

  lemma CoherentIffBytesFit(a: Arithmetic, v: ValueState, op: Op, data: Slice)
    requires Lawful(a) && Coherent(a, v) && Exec(a, op, data, v).Done?
    ensures var v' := Exec(a, op, data, v).value;
            Coherent(a, v') <==> BytesFit(a, v, op, data, v'.raw)
  {
    var v' := Exec(a, op, data, v).value;
    match op {
      case ADD =>
        FloatKeeps(a, v, v');
      case MUL =>
        FloatKeeps(a, v, v');
      case SADD =>
        var rep := CurrentSet(v).rep;
        ParseEncode(v'.vset.value.records);
        InsertKeeps(rep, data);
      case SREM =>
        var rep := CurrentSet(v).rep;
        ParseEncode(v'.vset.value.records);
        DeleteKeeps(rep, data);
      case _ =>
    }
  }

  lemma FloatKeeps(a: Arithmetic, v: ValueState, v': ValueState)
    requires Lawful(a) && Coherent(a, v)
    requires v'.vset == v.vset && v'.vfloat.Some? && v'.raw == a.render(v'.vfloat.value)
    ensures Coherent(a, v') <==> (v.vset.Some? ==> v'.raw == v.raw)
  {
    Rendered(a, v'.vfloat.value);
    if v.vset.Some? && ParseSet(v'.raw) == Parsed(v.vset.value.records) {
      EncodeParse(v.raw);
      EncodeParse(v'.raw);
    }
  }

  /** Bytes that are both a number and a set are no bytes at all. */
  lemma NumberAndSet(a: Arithmetic, raw: Bytes)
    requires Legible(a) && FloatOf(a, raw).Some? && ParseSet(raw).Parsed?
    ensures raw == [] && ParseSet(raw) == Parsed([])
  {
  }

  lemma NumericFit(a: Arithmetic, v: ValueState, data: Slice, adding: bool)
    requires Legible(a) && Coherent(a, v) && ExecFloat(a, data, v, adding).Done?
    ensures (v.vset.Some? ==> ExecFloat(a, data, v, adding).value.raw == v.raw) <==> v.vset.None?
  {
    assert FloatOf(a, v.raw) == CurrentFloat(a, v);
    if v.vset.Some? {
      NumberAndSet(a, v.raw);
    }
  }

  /** With a cached number the bytes of a set are empty, and so is the set. */
  lemma CachedNumberEmptySet(a: Arithmetic, v: ValueState)
    requires Legible(a) && Coherent(a, v) && v.vfloat.Some? && CurrentSet(v).Ready?
    ensures v.raw == [] && CurrentSet(v).rep.records == []
  {
    NumberAndSet(a, v.raw);
  }

  lemma SetFit(a: Arithmetic, v: ValueState, data: Slice, adding: bool)
    requires Legible(a) && Coherent(a, v) && v.vfloat.Some? && ExecSet(data, v, adding).Done?
    ensures FloatOf(a, ExecSet(data, v, adding).value.raw) == v.vfloat <==> !adding
  {
    CachedNumberEmptySet(a, v);
    var rs := ExecSet(data, v, adding).value.vset.value.records;
    ParseEncode(rs);
    if adding {
      assert data !in CurrentSet(v).rep.live;
      assert rs == [] + [data];
      assert |Encode(rs)| > 0 by { EncodeOne(data); }
    }
  }

  /** An operation keeps the caches right if and only if that condition holds before it. */
  lemma CoherentAfter(a: Arithmetic, v: ValueState, op: Op, data: Slice)
    requires Legible(a) && Coherent(a, v) && Exec(a, op, data, v).Done?
    ensures Coherent(a, Exec(a, op, data, v).value) <==> KeepsCaches(v, op, data)
  {
    CoherentIffBytesFit(a, v, op, data);
    match op {
      case ADD => NumericFit(a, v, data, true);
      case MUL => NumericFit(a, v, data, false);
      case SADD =>
        if v.vfloat.Some? {
          SetFit(a, v, data, true);
        }
      case SREM =>
        if v.vfloat.Some? {
          SetFit(a, v, data, false);
        }
      case _ =>
    }
  }

  // ---------------------------------------------------------------- whole sequences

  datatype Call = Call(op: Op, data: Slice)

  /** One object used for the whole sequence, as Apply and CanEndorse do. */
  function RunCached(a: Arithmetic, v: ValueState, calls: seq<Call>): Outcome
    decreases |calls|
  {
    if calls == [] then Done(v) else
      match Exec(a, calls[0].op, calls[0].data, v)
      case Done(v') => RunCached(a, v', calls[1..])
      case Failed(e) => Failed(e)
  }

  /** The bytes parsed again before every operation. */
  function RunFresh(a: Arithmetic, raw: Bytes, calls: seq<Call>): Outcome
    decreases |calls|
  {
    if calls == [] then Done(NewValue(raw)) else
      match Exec(a, calls[0].op, calls[0].data, NewValue(raw))
      case Done(v') => RunFresh(a, v'.raw, calls[1..])
      case Failed(e) => Failed(e)
  }

  datatype Mode = Untouched | Numeric | SetLike

  /**
   * A sequence that does not mix numeric and set operations without a SET or CONCAT in
   * between, and whose SREMs never meet an element stored twice.
   */
  ghost predicate Unmixed(a: Arithmetic, mode: Mode, raw: Bytes, calls: seq<Call>)
    decreases |calls|
  {
    calls != [] ==>
      var op, data := calls[0].op, calls[0].data;
      && (ModeAfter(op).Untouched? || mode.Untouched? || mode == ModeAfter(op))
      && (op.SREM? ==> Occurrences(NewValue(raw), data) <= 1)
      && (Exec(a, op, data, NewValue(raw)).Done? ==>
            Unmixed(a, ModeAfter(op), Exec(a, op, data, NewValue(raw)).value.raw, calls[1..]))
  }

  /** The caches filled so far fit the mode. */
  ghost predicate InMode(v: ValueState, mode: Mode)
  {
    (v.vfloat.Some? ==> mode.Numeric?) && (v.vset.Some? ==> mode.SetLike?)
  }

  lemma OccurrencesFresh(a: Arithmetic, v: ValueState, x: Slice)
    requires Coherent(a, v)
    ensures Occurrences(v, x) == Occurrences(NewValue(v.raw), x)
  {
  }

  function ModeAfter(op: Op): Mode
  {
    if op.ADD? || op.MUL? then Numeric
    else if op.SADD? || op.SREM? then SetLike else Untouched
  }

  /** One allowed operation keeps the caches right and fitting the mode. */
  lemma UnmixedStep(a: Arithmetic, mode: Mode, v: ValueState, op: Op, data: Slice)
    requires Lawful(a) && Coherent(a, v) && InMode(v, mode) && Exec(a, op, data, v).Done?
    requires ModeAfter(op).Untouched? || mode.Untouched? || mode == ModeAfter(op)
    requires op.SREM? ==> Occurrences(NewValue(v.raw), data) <= 1
    ensures Coherent(a, Exec(a, op, data, v).value) && InMode(Exec(a, op, data, v).value, ModeAfter(op))
  {
    OccurrencesFresh(a, v, data);
    CoherentIffBytesFit(a, v, op, data);
  }

  /**
   * For every unmixed sequence the cached forms give the same bytes, or the same error, as
   * parsing afresh before each operation.
   */
  lemma {:induction false} CachedRunIsFreshRun(a: Arithmetic, mode: Mode, v: ValueState, calls: seq<Call>)
    requires Lawful(a) && Coherent(a, v) && InMode(v, mode) && Unmixed(a, mode, v.raw, calls)
    ensures Agree(RunCached(a, v, calls), RunFresh(a, v.raw, calls))
    decreases |calls|
  {
    if calls != [] {
      var op, data := calls[0].op, calls[0].data;
      CoherentAgrees(a, v, op, data);
      if Exec(a, op, data, v).Done? {
        UnmixedStep(a, mode, v, op, data);
        CachedRunIsFreshRun(a, ModeAfter(op), Exec(a, op, data, v).value, calls[1..]);
      }
    }
  }

  /** No operation, at any point of the run, could tell the caches from the bytes. */
  ghost predicate StaysInvisible(a: Arithmetic, v: ValueState, calls: seq<Call>)
    decreases |calls|
  {
    && (forall op, data :: CacheIsInvisible(a, v, op, data))
    && (calls != [] && Exec(a, calls[0].op, calls[0].data, v).Done? ==>
          StaysInvisible(a, Exec(a, calls[0].op, calls[0].data, v).value, calls[1..]))
  }

  /**
   * What a sequence must respect, told from the operations and the bytes alone.  `number` and
   * `elements` tell whether a numeric or a set operation has run since the last SET or CONCAT.
   */
  ghost predicate Respectful(a: Arithmetic, number: bool, elements: bool, raw: Bytes, calls: seq<Call>)
    decreases |calls|
  {
    calls != [] && Exec(a, calls[0].op, calls[0].data, NewValue(raw)).Done? ==>
      var op, data := calls[0].op, calls[0].data;
      && Permitted(number, elements, raw, op, data)
      && Respectful(a, NumberAfter(number, op), ElementsAfter(elements, op),
                    Exec(a, op, data, NewValue(raw)).value.raw, calls[1..])
  }

  ghost predicate Permitted(number: bool, elements: bool, raw: Bytes, op: Op, data: Slice)
  {
    match op
    case ADD => !elements
    case MUL => !elements
    case SADD => !number
    case SREM => Occurrences(NewValue(raw), data) <= 1
    case _ => true
  }

  function NumberAfter(number: bool, op: Op): bool
  {
    match ModeAfter(op) case Numeric => true case SetLike => number case Untouched => false
  }

  function ElementsAfter(elements: bool, op: Op): bool
  {
    match ModeAfter(op) case SetLike => true case Numeric => elements case Untouched => false
  }

  /** Which caches are filled after an operation. */
  lemma FilledAfter(a: Arithmetic, v: ValueState, op: Op, data: Slice)
    requires Exec(a, op, data, v).Done?
    ensures var v' := Exec(a, op, data, v).value;
            && v'.vfloat.Some? == NumberAfter(v.vfloat.Some?, op)
            && v'.vset.Some? == ElementsAfter(v.vset.Some?, op)
  {
  }

  /** A run of one object is indistinguishable from fresh parsing throughout exactly for these sequences. */
  lemma {:induction false} StaysInvisibleIff(a: Arithmetic, v: ValueState, calls: seq<Call>)
    requires Legible(a) && Coherent(a, v)
    ensures StaysInvisible(a, v, calls) <==> Respectful(a, v.vfloat.Some?, v.vset.Some?, v.raw, calls)
    decreases |calls|
  {
    InvisibleIffCoherent(a, v);
    if calls != [] && Exec(a, calls[0].op, calls[0].data, v).Done? {
      var op, data := calls[0].op, calls[0].data;
      var v' := Exec(a, op, data, v).value;
      CoherentAgrees(a, v, op, data);
      OccurrencesFresh(a, v, data);
      CoherentAfter(a, v, op, data);
      FilledAfter(a, v, op, data);
      if Coherent(a, v') {
        StaysInvisibleIff(a, v', calls[1..]);
      } else {
        InvisibleIffCoherent(a, v');
      }
    } else if calls != [] {
      CoherentAgrees(a, v, calls[0].op, calls[0].data);
    }
  }

  lemma {:induction false} InvisibleRunAgrees(a: Arithmetic, v: ValueState, calls: seq<Call>)
    requires StaysInvisible(a, v, calls)
    ensures Agree(RunCached(a, v, calls), RunFresh(a, v.raw, calls))
    decreases |calls|
  {
    if calls != [] {
      var op, data := calls[0].op, calls[0].data;
      assert CacheIsInvisible(a, v, op, data);
      if Exec(a, op, data, v).Done? {
        InvisibleRunAgrees(a, Exec(a, op, data, v).value, calls[1..]);
      }
    }
  }

  /**
   * For every sequence on a new value: the caches go unnoticed from beginning to end if and only
   * if no numeric operation follows a set operation, and no SADD a numeric one, without a SET or
   * CONCAT in between, and no SREM meets an element stored twice; and then the run gives what
   * parsing afresh before each operation gives.
   */
  lemma SequencesIff(a: Arithmetic, raw: Bytes, calls: seq<Call>)
    requires Legible(a)
    ensures StaysInvisible(a, NewValue(raw), calls) <==> Respectful(a, false, false, raw, calls)
    ensures Respectful(a, false, false, raw, calls) ==>
              Agree(RunCached(a, NewValue(raw), calls), RunFresh(a, raw, calls))
  {
    StaysInvisibleIff(a, NewValue(raw), calls);
    if Respectful(a, false, false, raw, calls) {
      InvisibleRunAgrees(a, NewValue(raw), calls);
    }
  }

  /** Mixing without an intervening SET: an empty set, then ADD, and the cached set is wrong. */
  lemma MixingBreaksTheCache(a: Arithmetic, x: Slice, n: Slice)
    requires Lawful(a) && x != [] && FloatOf(a, n).Some? && a.render(FloatOf(a, n).value) != []
    requires a.add(FloatOf(a, n).value, a.zero) == FloatOf(a, n).value
    ensures var mixed := RunCached(a, NewValue([]), [Call(SREM, x), Call(ADD, n)]);
            mixed.Done? && exists op, data :: !CacheIsInvisible(a, mixed.value, op, data)
  {
    var calls := [Call(SREM, x), Call(ADD, n)];
    assert ParseSet([]) == Parsed([]);
    assert Members([]) == {};
    assert Exec(a, SREM, x, NewValue([])).Done?;
    var v1 := Exec(a, SREM, x, NewValue([])).value;
    assert v1 == ValueState([], None, Some(Rep([], {})));
    var v2 := Exec(a, ADD, n, v1).value;
    assert calls[1..] == [Call(ADD, n)] && calls[1..][1..] == [];
    assert RunCached(a, v1, calls[1..]) == Done(v2);
    CoherentIffBytesFit(a, v1, ADD, n);
    InvisibleIffCoherent(a, v2);
  }
}
