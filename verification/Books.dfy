/**
 * What happens to the recorded usages (db/policy.go) when a spore writes usage keys itself, which
 * only a requirement mismatch lets it do: the exact condition under which the books stay right.
 */
module Books {
  import opened Prelude
  import opened Values
  import opened Operations
  import opened Execution
  import opened Node
  import opened Accounting
  import Versions

  // ---------------------------------------------------------------- data keys and usage keys

  /** The values under keys that are not usage keys. */
  ghost function Data(values: ValueMap): ValueMap
  {
    map k | k in values && !IsUsage(k) :: values[k]
  }

  /** The values under usage keys. */
  ghost function Figures(values: ValueMap): ValueMap
  {
    map k | k in values && IsUsage(k) :: values[k]
  }

  /** Data keys belong to the policy they are written under. */
  ghost predicate DataOwned(owner: string -> string, p: string, values: ValueMap)
  {
    forall k :: k in values && !IsUsage(k) ==> owner(k) == p
  }

  /** The bytes a policy owns once the batch is written. */
  ghost function OwnedAfter(store: Store, owner: string -> string, p: string, values: ValueMap, q: string): int
  {
    if q == p then SizeAfter(store, owner, p, Data(values)) else OwnedSize(store, owner, q)
  }

  /** How much longer the batch makes the texts of the usages it writes. */
  ghost function Drift(store: Store, values: ValueMap): int
  {
    ValuesSize(Figures(values)) - StoredSize(store, Figures(values).Keys)
  }

  lemma SplitStored(store: Store, values: ValueMap)
    ensures StoredSize(store, values.Keys) ==
            StoredSize(store, Data(values).Keys) + StoredSize(store, Figures(values).Keys)
  {
    assert values.Keys == Data(values).Keys + Figures(values).Keys;
    SumUnion(Data(values).Keys, Figures(values).Keys, StoredLength(store));
  }

  lemma SplitValues(values: ValueMap)
    ensures ValuesSize(values) == ValuesSize(Data(values)) + ValuesSize(Figures(values))
  {
    var data, figures := Data(values), Figures(values);
    assert values.Keys == data.Keys + figures.Keys;
    SumUnion(data.Keys, figures.Keys, ValueLength(values));
    SumAgree(data.Keys, ValueLength(values), ValueLength(data));
    SumAgree(figures.Keys, ValueLength(values), ValueLength(figures));
  }

  // ---------------------------------------------------------------- what is owned afterwards

  /** Usage keys do not count among the keys a policy owns. */
  lemma SameData(store: Store, store': Store, owner: string -> string, q: string)
    requires forall k :: !IsUsage(k) ==> (k in store <==> k in store') && Load(store, k) == Load(store', k)
    ensures OwnedSize(store, owner, q) == OwnedSize(store', owner, q)
  {
    assert Owned(store, owner, q) == Owned(store', owner, q);
    SumAgree(Owned(store, owner, q), StoredLength(store), StoredLength(store'));
  }

  lemma OnlyDataCounts(cfg: Config, store: Store, owner: string -> string, p: string, values: ValueMap, q: string)
    requires RecordedUsage(cfg, store, p).Some?
    ensures OwnedSize(store + Batch(cfg, store, p, values), owner, q) ==
            OwnedSize(store + Batch(cfg, store, p, Data(values)), owner, q)
  {
    var store', store'' := store + Batch(cfg, store, p, values), store + Batch(cfg, store, p, Data(values));
    UsageKeys(p, p);
    forall k | !IsUsage(k) ensures (k in store' <==> k in store'') && Load(store', k) == Load(store'', k) {
      BatchAt(cfg, store, p, values, k);
      BatchAt(cfg, store, p, Data(values), k);
    }
    SameData(store', store'', owner, q);
  }

  lemma OwnedAfterBatch(cfg: Config, store: Store, owner: string -> string, p: string, values: ValueMap, q: string)
    requires RecordedUsage(cfg, store, p).Some? && DataOwned(owner, p, values)
    ensures OwnedSize(store + Batch(cfg, store, p, values), owner, q) == OwnedAfter(store, owner, p, values, q)
    ensures OwnedAfter(store, owner, p, values, q) >= 0
  {
    OnlyDataCounts(cfg, store, owner, p, values, q);
    if q == p {
      BatchSize(cfg, store, owner, p, Data(values));
    } else {
      BatchElsewhere(cfg, store, owner, p, q, Data(values));
    }
    var store' := store + Batch(cfg, store, p, values);
    SumMonotone({}, Owned(store', owner, q), StoredLength(store'));
  }

  // ---------------------------------------------------------------- what is recorded afterwards

  /** Beyond the exact range a Float may round, but not back below it. */
  ghost predicate RoundedUsage(cfg: Config)
  {
    ExactUsage(cfg) && forall u: nat :: EXACT < u < TWO64 ==> cfg.toUint(cfg.ofUint(u)) >= EXACT
  }

  /** A figure written by the batch itself. */
  lemma WrittenFigure(cfg: Config, store: Store, p: string, values: ValueMap, q: string)
    requires RecordedUsage(cfg, store, p).Some? && UsageKey(q) in values
    ensures RecordedUsage(cfg, store + Batch(cfg, store, p, values), q) ==
            match FloatOf(cfg.arith, values[UsageKey(q)].raw)
            case Some(x) => Some(cfg.toUint(x))
            case None => None
  {
    BatchAt(cfg, store, p, values, UsageKey(q));
  }

  /** The figure of another policy, left alone. */
  lemma ForeignFigure(cfg: Config, store: Store, p: string, values: ValueMap, q: string)
    requires RecordedUsage(cfg, store, p).Some? && UsageKey(q) !in values && q != p
    ensures RecordedUsage(cfg, store + Batch(cfg, store, p, values), q) == RecordedUsage(cfg, store, q)
  {
    UsageKeys(q, p);
    BatchAt(cfg, store, p, values, UsageKey(q));
  }

  lemma DriftWraps(size: int, drift: int)
    requires 0 <= size < EXACT
    ensures (size + drift) % TWO64 == size <==> drift % TWO64 == 0
  {
  }

  /** A size that went through the conversions after drifting is the size itself only without drift. */
  lemma FigureIff(cfg: Config, usage: nat, oldSize: int, newSize: int, size: int, drift: int)
    requires RoundedUsage(cfg) && 0 <= size < EXACT && usage - oldSize + newSize == size + drift
    ensures cfg.toUint(cfg.ofUint(Wrapped(usage, oldSize, newSize))) == size <==> drift % TWO64 == 0
  {
    var u := Wrapped(usage, oldSize, newSize);
    DriftWraps(size, drift);
    if u <= EXACT {
      UsageSurvives(cfg, u);
    } else {
      assert cfg.toUint(cfg.ofUint(u)) >= EXACT;
    }
  }

  lemma WrappedDrift(store: Store, owner: string -> string, p: string, values: ValueMap)
    ensures OwnedSize(store, owner, p) - StoredSize(store, values.Keys) + ValuesSize(values) ==
            OwnedAfter(store, owner, p, values, p) + Drift(store, values)
  {
    SplitStored(store, values);
    SplitValues(values);
  }

  /** The figure of the batch's own policy, when the batch does not write it itself. */
  lemma OwnFigureIff(cfg: Config, owner: string -> string, store: Store, p: string, values: ValueMap)
    requires RoundedUsage(cfg) && RecordedUsage(cfg, store, p) == Some(OwnedSize(store, owner, p))
    requires UsageKey(p) !in values && 0 <= OwnedAfter(store, owner, p, values, p) < EXACT
    ensures RecordedUsage(cfg, store + Batch(cfg, store, p, values), p) ==
            Some(OwnedAfter(store, owner, p, values, p)) <==>
            Drift(store, values) % TWO64 == 0
  {
    WrappedDrift(store, owner, p, values);
    FigureIff(cfg, OwnedSize(store, owner, p), StoredSize(store, values.Keys), ValuesSize(values),
              OwnedAfter(store, owner, p, values, p), Drift(store, values));
    BatchUsage(cfg, store, p, values);
  }

  // ---------------------------------------------------------------- the exact condition

  /** The figure written for `q` is the number of bytes it owns afterwards. */
  ghost predicate RightFigure(cfg: Config, store: Store, owner: string -> string, p: string, values: ValueMap,
                              q: string)
  {
    UsageKey(q) in values ==>
      var x := FloatOf(cfg.arith, values[UsageKey(q)].raw);
      x.Some? && cfg.toUint(x.value) == OwnedAfter(store, owner, p, values, q)
  }

  /**
   * Every figure the batch writes is right, and unless it writes that of its own policy, the texts
   * of the usages it writes are as long in total as the ones they replace.
   */
  ghost predicate Balanced(cfg: Config, owner: string -> string, store: Store, p: string, values: ValueMap)
  {
    && (forall q :: RightFigure(cfg, store, owner, p, values, q))
    && (UsageKey(p) !in values ==> Drift(store, values) % TWO64 == 0)
  }

  /** Whether the books of one policy are right after the batch. */
  lemma BooksOfOne(cfg: Config, owner: string -> string, store: Store, p: string, values: ValueMap, q: string)
    requires RoundedUsage(cfg) && Accounted(cfg, owner, store) && DataOwned(owner, p, values)
    requires RecordedUsage(cfg, store, p).Some? && OwnedAfter(store, owner, p, values, p) < EXACT
    ensures var store' := store + Batch(cfg, store, p, values);
            RecordedUsage(cfg, store', q) == Some(OwnedSize(store', owner, q)) <==>
            && RightFigure(cfg, store, owner, p, values, q)
            && (q == p && UsageKey(p) !in values ==> Drift(store, values) % TWO64 == 0)
  {
    OwnedAfterBatch(cfg, store, owner, p, values, q);
    assert RecordedUsage(cfg, store, q) == Some(OwnedSize(store, owner, q));
    if UsageKey(q) in values {
      WrittenFigure(cfg, store, p, values, q);
    } else if q == p {
      OwnFigureIff(cfg, owner, store, p, values);
    } else {
      ForeignFigure(cfg, store, p, values, q);
    }
  }

  /** Whatever a batch writes, the books are right after it if and only if it is balanced. */
  lemma BatchBooksIff(cfg: Config, owner: string -> string, store: Store, p: string, values: ValueMap)
    requires RoundedUsage(cfg) && Accounted(cfg, owner, store) && DataOwned(owner, p, values)
    requires RecordedUsage(cfg, store, p).Some? && OwnedAfter(store, owner, p, values, p) < EXACT
    ensures Accounted(cfg, owner, store + Batch(cfg, store, p, values)) <==> Balanced(cfg, owner, store, p, values)
  {
    var store' := store + Batch(cfg, store, p, values);
    forall q
      ensures RecordedUsage(cfg, store', q) == Some(OwnedSize(store', owner, q)) <==>
              && RightFigure(cfg, store, owner, p, values, q)
              && (q == p && UsageKey(p) !in values ==> Drift(store, values) % TWO64 == 0)
    {
      BooksOfOne(cfg, owner, store, p, values, q);
    }
    assert Accounted(cfg, owner, store') ==> RecordedUsage(cfg, store', p) == Some(OwnedSize(store', owner, p));
    assert Balanced(cfg, owner, store, p, values) ==> forall q :: RightFigure(cfg, store, owner, p, values, q);
  }

  /**
   * The books after any application at all: with the spore's data keys owned by its policy, they
   * are right if and only if what its operations leave is balanced.
   */
  lemma ApplyBooksIff(cfg: Config, owner: string -> string, st: State, s: Spore, bypass: bool)
    requires RoundedUsage(cfg) && Accounted(cfg, owner, st.store) && ApplyVerdict(cfg, st, s) == Applied
    requires var values := RunOps(cfg.arith, st.store, s.operations, map[]).values;
             DataOwned(owner, s.policy, values) && OwnedAfter(st.store, owner, s.policy, values, s.policy) < EXACT
    ensures Accounted(cfg, owner, Apply(cfg, st, s, bypass).store) <==>
            Balanced(cfg, owner, st.store, s.policy, RunOps(cfg.arith, st.store, s.operations, map[]).values)
  {
    BatchBooksIff(cfg, owner, st.store, s.policy, RunOps(cfg.arith, st.store, s.operations, map[]).values);
  }

  // ---------------------------------------------------------------- two ways to break them

  /**
   * After a mismatch spore that sets the usage of its own policy, the books are right if and only
   * if the bytes it carries are the number of bytes the policy owns, however large.
   */
  lemma OverwrittenUsageIff(cfg: Config, owner: string -> string, st: State, s: Spore, k: string, d: Slice)
    requires Versions.Skipping(cfg, st, s, k, UsageKey(s.policy), d) && Accounted(cfg, owner, st.store)
    ensures Accounted(cfg, owner, Endorse(cfg, st, s, false).store) <==>
            FloatOf(cfg.arith, d).Some? && cfg.toUint(FloatOf(cfg.arith, d).value) ==
              OwnedSize(st.store, owner, s.policy)
  {
    Versions.MismatchSkipsTheChecks(cfg, st, s, k, UsageKey(s.policy), d);
    BooksAfter(cfg, owner, st.store, s.policy, d);
  }

  lemma BooksAfter(cfg: Config, owner: string -> string, store: Store, p: string, d: Slice)
    requires Accounted(cfg, owner, store) && RecordedUsage(cfg, store, p).Some?
    ensures Accounted(cfg, owner, store + Batch(cfg, store, p, map[UsageKey(p) := NewValue(d)])) <==>
            FloatOf(cfg.arith, d).Some? && cfg.toUint(FloatOf(cfg.arith, d).value) == OwnedSize(store, owner, p)
  {
    var store' := store + Batch(cfg, store, p, map[UsageKey(p) := NewValue(d)]);
    assert Load(store', UsageKey(p)) == d;
    forall q ensures OwnedSize(store', owner, q) == OwnedSize(store, owner, q) {
      OnlyUsageWritten(cfg, owner, store, p, d, q);
    }
    forall q | q != p ensures RecordedUsage(cfg, store', q) == Some(OwnedSize(store', owner, q)) {
      UsageKeys(p, q);
      assert RecordedUsage(cfg, store, q) == Some(OwnedSize(store, owner, q));
      assert Load(store', UsageKey(q)) == Load(store, UsageKey(q));
    }
    assert RecordedUsage(cfg, store', p) == Some(OwnedSize(store', owner, p)) <==>
           FloatOf(cfg.arith, d).Some? && cfg.toUint(FloatOf(cfg.arith, d).value) == OwnedSize(store, owner, p);
  }

  lemma OnlyUsageWritten(cfg: Config, owner: string -> string, store: Store, p: string, d: Slice, q: string)
    requires RecordedUsage(cfg, store, p).Some?
    ensures var store' := store + Batch(cfg, store, p, map[UsageKey(p) := NewValue(d)]);
            OwnedSize(store', owner, q) == OwnedSize(store, owner, q)
  {
    var store' := store + Batch(cfg, store, p, map[UsageKey(p) := NewValue(d)]);
    UsageKeys(p, p);
    assert Owned(store', owner, q) == Owned(store, owner, q);
    SumAgree(Owned(store, owner, q), StoredLength(store'), StoredLength(store));
  }

  /**
   * A mismatch spore that sets the usage of another policy: even with the right figure, a text of
   * another length shifts the recorded usage of the spore's own policy.
   */
  lemma ForeignUsageShifts(cfg: Config, owner: string -> string, st: State, s: Spore, k: string, q: string, d: Slice)
    requires Versions.Skipping(cfg, st, s, k, UsageKey(q), d) && q != s.policy
    requires RoundedUsage(cfg) && Accounted(cfg, owner, st.store) && OwnedSize(st.store, owner, s.policy) < EXACT
    requires |d| != |Load(st.store, UsageKey(q))| < TWO63
    ensures !Accounted(cfg, owner, Endorse(cfg, st, s, false).store)
  {
    Versions.MismatchSkipsTheChecks(cfg, st, s, k, UsageKey(q), d);
    ForeignFigureShifts(cfg, owner, st.store, s.policy, q, d);
  }

  lemma ForeignFigureShifts(cfg: Config, owner: string -> string, store: Store, p: string, q: string, d: Slice)
    requires RoundedUsage(cfg) && Accounted(cfg, owner, store) && OwnedSize(store, owner, p) < EXACT
    requires RecordedUsage(cfg, store, p).Some? && q != p && |d| != |Load(store, UsageKey(q))| < TWO63
    ensures !Accounted(cfg, owner, store + Batch(cfg, store, p, map[UsageKey(q) := NewValue(d)]))
  {
    var values: ValueMap := map[UsageKey(q) := NewValue(d)];
    UsageKeys(q, p);
    OneFigure(store, q, d);
    ShortDrift(|d|, |Load(store, UsageKey(q))|);
    NoData(store, owner, p, values);
    DriftBreaks(cfg, owner, store, p, values);
  }

  lemma DriftBreaks(cfg: Config, owner: string -> string, store: Store, p: string, values: ValueMap)
    requires RoundedUsage(cfg) && Accounted(cfg, owner, store) && DataOwned(owner, p, values)
    requires RecordedUsage(cfg, store, p).Some? && OwnedAfter(store, owner, p, values, p) < EXACT
    requires UsageKey(p) !in values && Drift(store, values) % TWO64 != 0
    ensures !Accounted(cfg, owner, store + Batch(cfg, store, p, values))
  {
    BatchBooksIff(cfg, owner, store, p, values);
  }

  lemma ShortDrift(a: nat, b: nat)
    requires a != b && a < TWO63 && b < TWO63
    ensures (a - b) % TWO64 != 0
  {
  }

  lemma NoData(store: Store, owner: string -> string, p: string, values: ValueMap)
    requires forall k :: k in values ==> IsUsage(k)
    ensures OwnedAfter(store, owner, p, values, p) == OwnedSize(store, owner, p) && DataOwned(owner, p, values)
  {
    assert Data(values) == map[];
  }

  lemma OneFigure(store: Store, q: string, d: Slice)
    ensures Drift(store, map[UsageKey(q) := NewValue(d)]) == |d| - |Load(store, UsageKey(q))|
  {
    var values: ValueMap := map[UsageKey(q) := NewValue(d)];
    UsageKeys(q, q);
    assert Figures(values) == values;
    SumPick(values.Keys, ValueLength(values), UsageKey(q));
    SumPick(values.Keys, StoredLength(store), UsageKey(q));
    assert values.Keys - {UsageKey(q)} == {};
  }
}
