/**
 * myc/sec/keys.go and buildTrustWeb of myc/sec/ed25519_trust.go: which keys the web of trust
 * makes trustworthy.
 */
module TrustWeb {
  import opened Prelude

  // ---------------------------------------------------------------- trust levels

  type Trust = t: int | 0 <= t < 256

  const NONE: Trust := 0x00
  const HIGH: Trust := 0x03
  const ULTIMATE: Trust := 0xff
  const THRESHOLD: Trust := HIGH

  function Min(t: Trust, t2: Trust): Trust
  {
    if t < t2 then t else t2
  }

  function Add(t: Trust, t2: Trust): Trust
  {
    if t == ULTIMATE || t2 == ULTIMATE then ULTIMATE
    else if t >= THRESHOLD || t2 >= THRESHOLD then THRESHOLD
    else t + t2
  }

  /** The capped addition is exact below the threshold and does not move the threshold. */
  lemma AddMeans(t: Trust, t2: Trust)
    ensures Add(t, t2) >= THRESHOLD <==> t + t2 >= THRESHOLD
    ensures t + t2 < THRESHOLD ==> Add(t, t2) == t + t2
    ensures Add(t, t2) == Add(t2, t)
  {
  }

  /** An addition lowers a level exactly when that level is unnamed, above HIGH, and nothing ultimate is added. */
  lemma AddLowersIff(t: Trust, t2: Trust)
    ensures Add(t, t2) < t <==> HIGH < t < ULTIMATE && t2 != ULTIMATE
  {
  }

  // ---------------------------------------------------------------- keys and signatures

  datatype Signature = Signature(data: Bytes, trust: Trust)

  /** The lasting fields of a key; its identity is the one it is stored under. */
  datatype Key = Key(public: Bytes, trust: Trust, signatures: map<string, Signature>)

  type Graph = map<string, Key>

  /** The level `signer` has signed for `signee`. */
  function Level(g: Graph, signee: string): string -> int
  {
    signer => if signer in g && signee in g[signer].signatures then g[signer].signatures[signee].trust else 0
  }

  /** A key's own trust plus what the members of `t` have signed for it. */
  ghost function Support(g: Graph, t: set<string>, k: string): int
    requires k in g
  {
    g[k].trust + Sum(t, Level(g, k))
  }

  lemma SupportGrows(g: Graph, t: set<string>, t': set<string>, k: string)
    requires k in g && t <= t'
    ensures Support(g, t, k) <= Support(g, t', k)
  {
    SumMonotone(t, t', Level(g, k));
  }

  /** Everyone the set supports belongs to it. */
  ghost predicate Closed(g: Graph, t: set<string>)
  {
    t <= g.Keys && forall k :: k in g && Support(g, t, k) >= THRESHOLD ==> k in t
  }

  /** The least such set. */
  ghost predicate Least(g: Graph, t: set<string>)
  {
    Closed(g, t) && forall s :: Closed(g, s) ==> t <= s
  }

  lemma LeastUnique(g: Graph, t: set<string>, t': set<string>)
    requires Least(g, t) && Least(g, t')
    ensures t == t'
  {
  }

  // ---------------------------------------------------------------- reference definition

  ghost predicate CanGrow(g: Graph, t: set<string>)
  {
    exists k :: k in g && k !in t && Support(g, t, k) >= THRESHOLD
  }

  /** Add supported keys one at a time until none is left. */
  ghost function Grow(g: Graph, t: set<string>): set<string>
    requires t <= g.Keys
    decreases |g.Keys - t|
  {
    if CanGrow(g, t) then
      var k :| k in g && k !in t && Support(g, t, k) >= THRESHOLD;
      assert g.Keys - (t + {k}) == (g.Keys - t) - {k};
      Grow(g, t + {k})
    else t
  }

  /** The trusted keys. */
  ghost function Trusted(g: Graph): set<string>
  {
    Grow(g, {})
  }

  lemma {:induction false} GrowIsLeast(g: Graph, t: set<string>)
    requires t <= g.Keys && forall s :: Closed(g, s) ==> t <= s
    ensures Least(g, Grow(g, t))
    decreases |g.Keys - t|
  {
    if CanGrow(g, t) {
      var k :| k in g && k !in t && Support(g, t, k) >= THRESHOLD && Grow(g, t) == Grow(g, t + {k});
      assert g.Keys - (t + {k}) == (g.Keys - t) - {k};
      forall s | Closed(g, s) ensures t + {k} <= s {
        SupportGrows(g, t, s, k);
      }
      GrowIsLeast(g, t + {k});
    }
  }

  /** There is a least set, and it is a fixed point: a key is in it exactly when it is supported by it. */
  lemma TrustedIsLeast(g: Graph)
    ensures Least(g, Trusted(g))
  {
    GrowIsLeast(g, {});
  }

  /** Membership in a least set is exactly support by it. */
  lemma {:induction false} LeastIsFixedPoint(g: Graph, t: set<string>, k: string)
    requires Least(g, t) && k in g
    ensures k in t <==> Support(g, t, k) >= THRESHOLD
  {
    if k in t && Support(g, t, k) < THRESHOLD {
      var s := t - {k};
      forall j | j in g && Support(g, s, j) >= THRESHOLD ensures j in s {
        SupportGrows(g, s, t, j);
      }
      assert Closed(g, s);
    }
  }

  // ---------------------------------------------------------------- the greedy search, as a state

  /** The fields and variables of buildTrustWeb. */
  datatype Web = Web(
    effective: map<string, Trust>,
    signedBy: map<string, seq<string>>,
    visited: set<string>,
    queue: seq<string>)

  /** The body of the inner loop: `c` has signed for `k`. */
  function Visit(g: Graph, w: Web, c: string, k: string): Web
  {
    if k !in g || c !in g || k !in g[c].signatures || k !in w.effective || c !in w.effective || k !in w.signedBy then w
    else
      var e := Add(w.effective[k], Min(g[c].signatures[k].trust, w.effective[c]));
      var w' := w.(effective := w.effective[k := e], signedBy := w.signedBy[k := w.signedBy[k] + [c]]);
      if e >= THRESHOLD && k !in w.visited
      then w'.(queue := w.queue + [k], visited := w.visited + {k})
      else w'
  }

  /** The inner loop, visiting the signees in a given order. */
  function VisitAll(g: Graph, w: Web, c: string, order: seq<string>): Web
    decreases |order|
  {
    if order == [] then w
    else Visit(g, VisitAll(g, w, c, order[..|order| - 1]), c, order[|order| - 1])
  }

  /** The body of the initial loop. */
  function Enter(g: Graph, w: Web, k: string): Web
    requires k in g
  {
    var w' := w.(effective := w.effective[k := g[k].trust], signedBy := w.signedBy[k := []]);
    if g[k].trust >= THRESHOLD then w'.(queue := w.queue + [k], visited := w.visited + {k}) else w'
  }

  function EnterAll(g: Graph, w: Web, order: seq<string>): Web
    requires forall k :: k in order ==> k in g
    decreases |order|
  {
    if order == [] then w else Enter(g, EnterAll(g, w, order[..|order| - 1]), order[|order| - 1])
  }

  // ---------------------------------------------------------------- what the search keeps

  /** The effective trust of `k` tells whether the signers in `credit` support it. */
  ghost predicate EffectiveAt(g: Graph, w: Web, credit: set<string>, k: string)
    requires k in g
  {
    && k in w.effective
    && (w.effective[k] >= THRESHOLD <==> Support(g, credit, k) >= THRESHOLD)
    && (Support(g, credit, k) < THRESHOLD ==> w.effective[k] == Support(g, credit, k))
    && (k in w.visited <==> w.effective[k] >= THRESHOLD)
    && (g[k].trust <= HIGH || g[k].trust == ULTIMATE ==> w.effective[k] >= g[k].trust)
  }

  /** `signedBy` lists the signers in `credit`, each once. */
  ghost predicate SignedAt(g: Graph, w: Web, credit: set<string>, k: string)
  {
    && k in w.signedBy && Distinct(w.signedBy[k])
    && (forall s :: s in w.signedBy[k] <==> s in credit && s in g && k in g[s].signatures)
  }

  /** `s` belongs to `credit` and has signed for `k`. */
  ghost predicate Backs(g: Graph, credit: set<string>, s: string, k: string)
  {
    s in credit && s in g && k in g[s].signatures
  }

  ghost predicate Backed(g: Graph, credit: set<string>, k: string)
  {
    exists s :: Backs(g, credit, s, k)
  }

  ghost predicate UltimatelyBacked(g: Graph, credit: set<string>, k: string)
  {
    exists s :: Backs(g, credit, s, k) && g[s].signatures[k].trust == ULTIMATE
  }

  /** A level the named ones do not include, above HIGH. */
  predicate Unnamed(t: Trust)
  {
    HIGH < t < ULTIMATE
  }

  /** A key nobody has signed for keeps its trust; an unnamed level is cut down to HIGH by the first signature. */
  ghost predicate LevelAt(g: Graph, w: Web, credit: set<string>, k: string)
    requires k in g
  {
    && k in w.effective
    && (!Backed(g, credit, k) ==> w.effective[k] == g[k].trust)
    && (Unnamed(g[k].trust) && Backed(g, credit, k) && !UltimatelyBacked(g, credit, k) ==> w.effective[k] == HIGH)
  }

  /** A key of ultimate effective trust has signed for `k` at the ultimate level. */
  ghost predicate Exalted(g: Graph, effective: map<string, Trust>, credit: set<string>, k: string)
  {
    exists s :: Backs(g, credit, s, k) && g[s].signatures[k].trust == ULTIMATE &&
                s in effective && effective[s] == ULTIMATE
  }

  /** Ultimate trust is given by the user or handed on by a key that has it: a signer gives no more than it has. */
  ghost predicate UltimateAt(g: Graph, effective: map<string, Trust>, credit: set<string>, k: string)
    requires k in g
  {
    k in effective && effective[k] == ULTIMATE ==> g[k].trust == ULTIMATE || Exalted(g, effective, credit, k)
  }

  ghost predicate KeyAt(g: Graph, w: Web, credit: set<string>, k: string)
  {
    k in g ==>
      && EffectiveAt(g, w, credit, k) && SignedAt(g, w, credit, k)
      && LevelAt(g, w, credit, k) && UltimateAt(g, w.effective, credit, k)
  }

  /** Ultimate trust is never lost, and credit only grows. */
  lemma ExaltedLater(g: Graph, e: map<string, Trust>, e': map<string, Trust>, credit: set<string>,
                     credit': set<string>, k: string)
    requires Exalted(g, e, credit, k) && credit <= credit'
    requires forall s :: s in e && e[s] == ULTIMATE ==> s in e' && e'[s] == ULTIMATE
    ensures Exalted(g, e', credit', k)
  {
    var s :| Backs(g, credit, s, k) && g[s].signatures[k].trust == ULTIMATE && s in e && e[s] == ULTIMATE;
    assert Backs(g, credit', s, k);
  }

  lemma VisitUltimate(g: Graph, w: Web, done: set<string>, c: string, k: string)
    requires k in g && c in g && k in g[c].signatures && c in w.effective && k in w.effective && k in w.signedBy
    requires UltimateAt(g, w.effective, done, k)
    ensures UltimateAt(g, Visit(g, w, c, k).effective, done + {c}, k)
  {
    var w' := Visit(g, w, c, k);
    if w'.effective[k] == ULTIMATE && g[k].trust != ULTIMATE {
      if w.effective[k] == ULTIMATE {
        ExaltedLater(g, w.effective, w'.effective, done, done + {c}, k);
      } else {
        assert Backs(g, done + {c}, c, k);
      }
    }
  }

  /** Signees in `seen` have been credited with `c`, the others not yet. */
  function Credit(done: set<string>, c: string, seen: set<string>, k: string): set<string>
  {
    if k in seen then done + {c} else done
  }

  ghost predicate Partial(g: Graph, w: Web, done: set<string>, c: string, seen: set<string>)
  {
    forall k :: KeyAt(g, w, Credit(done, c, seen, k), k)
  }

  /** The queue holds the visited keys not yet dequeued, each once. */
  ghost predicate QueueAt(g: Graph, w: Web, done: set<string>)
  {
    && w.visited <= g.Keys && done <= w.visited
    && Distinct(w.queue)
    && (forall k :: k in w.queue <==> k in w.visited && k !in done)
  }

  /** Only keys that belong to every closed set are visited. */
  ghost predicate Necessary(g: Graph, w: Web)
  {
    forall s :: Closed(g, s) ==> w.visited <= s
  }

  lemma CreditOne(g: Graph, done: set<string>, c: string, k: string)
    requires k in g && c !in done
    ensures Support(g, done + {c}, k) == Support(g, done, k) + Level(g, k)(c)
  {
    SumInsert(done, Level(g, k), c);
  }

  /** Crediting the smaller of the signed level and a trusted signer's own trust changes nothing at the threshold. */
  lemma MinIsHarmless(acc: int, e: Trust, level: Trust, signer: Trust)
    requires signer >= THRESHOLD && 0 <= acc
    requires (e >= THRESHOLD <==> acc >= THRESHOLD) && (acc < THRESHOLD ==> e == acc)
    ensures var e' := Add(e, Min(level, signer));
            && (e' >= THRESHOLD <==> acc + level >= THRESHOLD)
            && (acc + level < THRESHOLD ==> e' == acc + level)
  {
    AddMeans(e, Min(level, signer));
  }

  lemma VisitEffective(g: Graph, w: Web, done: set<string>, c: string, k: string)
    requires k in g && c in g && k in g[c].signatures && c !in done && c in w.effective && w.effective[c] >= THRESHOLD
    requires KeyAt(g, w, done, k)
    ensures EffectiveAt(g, Visit(g, w, c, k), done + {c}, k)
  {
    CreditOne(g, done, c, k);
    SumMonotone({}, done, Level(g, k));
    MinIsHarmless(Support(g, done, k), w.effective[k], g[c].signatures[k].trust, w.effective[c]);
    AddLowersIff(w.effective[k], Min(g[c].signatures[k].trust, w.effective[c]));
  }

  lemma VisitSigned(g: Graph, w: Web, done: set<string>, c: string, k: string)
    requires k in g && c in g && k in g[c].signatures && c !in done && c in w.effective && k in w.effective
    requires SignedAt(g, w, done, k)
    ensures SignedAt(g, Visit(g, w, c, k), done + {c}, k)
  {
    var before := w.signedBy[k];
    assert Visit(g, w, c, k).signedBy[k] == before + [c];
    assert c !in before;
  }

  lemma VisitLevel(g: Graph, w: Web, done: set<string>, c: string, k: string)
    requires k in g && c in g && k in g[c].signatures && c !in done && c in w.effective && k in w.signedBy
    requires LevelAt(g, w, done, k)
    ensures LevelAt(g, Visit(g, w, c, k), done + {c}, k)
  {
    assert Backs(g, done + {c}, c, k);
    if Unnamed(g[k].trust) && !UltimatelyBacked(g, done + {c}, k) {
      assert g[c].signatures[k].trust != ULTIMATE;
      assert forall s :: Backs(g, done, s, k) ==> Backs(g, done + {c}, s, k);
    }
  }

  /** Crediting a signer that has not signed for `k` changes nothing. */
  lemma SilentSigner(g: Graph, w: Web, done: set<string>, c: string, k: string)
    requires k in g && LevelAt(g, w, done, k) && !(c in g && k in g[c].signatures)
    ensures LevelAt(g, w, done + {c}, k)
  {
    forall s ensures Backs(g, done + {c}, s, k) <==> Backs(g, done, s, k) {
    }
  }

  lemma VisitElsewhere(g: Graph, w: Web, c: string, k: string, credit: set<string>, j: string)
    requires j != k && KeyAt(g, w, credit, j)
    ensures KeyAt(g, Visit(g, w, c, k), credit, j)
  {
    if Exalted(g, w.effective, credit, j) {
      ExaltedLater(g, w.effective, Visit(g, w, c, k).effective, credit, credit, j);
    }
  }

  lemma VisitPartial(g: Graph, w: Web, done: set<string>, c: string, seen: set<string>, k: string)
    requires c in g && c !in done && c in w.effective && w.effective[c] >= THRESHOLD
    requires k in g[c].signatures && k !in seen && Partial(g, w, done, c, seen)
    ensures Partial(g, Visit(g, w, c, k), done, c, seen + {k})
  {
    var w' := Visit(g, w, c, k);
    forall j ensures KeyAt(g, w', Credit(done, c, seen + {k}, j), j) {
      assert KeyAt(g, w, Credit(done, c, seen, j), j);
      if j != k {
        VisitElsewhere(g, w, c, k, Credit(done, c, seen, j), j);
      } else if k in g {
        VisitEffective(g, w, done, c, k);
        VisitSigned(g, w, done, c, k);
        VisitLevel(g, w, done, c, k);
        VisitUltimate(g, w, done, c, k);
      }
    }
  }

  lemma VisitQueue(g: Graph, w: Web, done: set<string>, c: string, k: string)
    requires QueueAt(g, w, done)
    ensures QueueAt(g, Visit(g, w, c, k), done) && w.visited <= Visit(g, w, c, k).visited
  {
    var w' := Visit(g, w, c, k);
    if w'.queue != w.queue {
      assert w'.queue == w.queue + [k] && k !in w.queue;
    }
  }

  lemma VisitNecessary(g: Graph, w: Web, done: set<string>, c: string, k: string)
    requires Necessary(g, w) && c in w.visited && done <= w.visited
    requires k in g ==> EffectiveAt(g, Visit(g, w, c, k), done + {c}, k) || Visit(g, w, c, k).visited == w.visited
    ensures Necessary(g, Visit(g, w, c, k))
  {
    var w' := Visit(g, w, c, k);
    if w'.visited != w.visited {
      forall s | Closed(g, s) ensures w'.visited <= s {
        SupportGrows(g, done + {c}, s, k);
      }
    }
  }

  ghost predicate Spreading(g: Graph, w: Web, done: set<string>, c: string, seen: set<string>)
  {
    && c in g && c !in done && c in w.visited
    && Partial(g, w, done, c, seen) && QueueAt(g, w, done + {c}) && Necessary(g, w)
  }

  lemma SpreadOne(g: Graph, w: Web, done: set<string>, c: string, seen: set<string>, k: string)
    requires Spreading(g, w, done, c, seen) && k in g[c].signatures && k !in seen
    ensures Spreading(g, Visit(g, w, c, k), done, c, seen + {k})
  {
    assert KeyAt(g, w, Credit(done, c, seen, c), c);
    VisitPartial(g, w, done, c, seen, k);
    VisitQueue(g, w, done + {c}, c, k);
    assert KeyAt(g, Visit(g, w, c, k), Credit(done, c, seen + {k}, k), k);
    VisitNecessary(g, w, done, c, k);
  }

  lemma {:induction false} SpreadAll(g: Graph, w: Web, done: set<string>, c: string, order: seq<string>)
    requires Spreading(g, w, done, c, {}) && Distinct(order) && forall k :: k in order ==> k in g[c].signatures
    ensures Spreading(g, VisitAll(g, w, c, order), done, c, Elements(order))
    decreases |order|
  {
    if order == [] {
      assert Elements(order) == {};
    } else {
      var k, front := order[|order| - 1], order[..|order| - 1];
      SpreadAll(g, w, done, c, front);
      SpreadOne(g, VisitAll(g, w, c, front), done, c, Elements(front), k);
      ElementsSnoc(front, k);
      assert order == front + [k];
    }
  }

  /** Between two dequeuings: every key is credited with exactly the dequeued signers. */
  ghost predicate Searching(g: Graph, w: Web, done: set<string>)
  {
    && (forall k :: KeyAt(g, w, done, k))
    && QueueAt(g, w, done) && Necessary(g, w)
  }

  lemma BeginSpread(g: Graph, w: Web, done: set<string>)
    requires Searching(g, w, done) && w.queue != []
    ensures Spreading(g, w.(queue := w.queue[1..]), done, w.queue[0], {})
  {
    var c := w.queue[0];
    var w' := w.(queue := w.queue[1..]);
    assert c in w.queue;
    forall k ensures KeyAt(g, w', Credit(done, c, {}, k), k) {
      assert KeyAt(g, w, done, k);
    }
    assert w.queue == [c] + w.queue[1..];
    forall k ensures k in w'.queue <==> k in w'.visited && k !in done + {c} {
      assert k in w.queue <==> k == c || k in w'.queue;
    }
  }

  lemma EndSpread(g: Graph, w: Web, done: set<string>, c: string)
    requires c in g && Spreading(g, w, done, c, g[c].signatures.Keys)
    ensures Searching(g, w, done + {c})
  {
    forall k ensures KeyAt(g, w, done + {c}, k) {
      assert KeyAt(g, w, Credit(done, c, g[c].signatures.Keys, k), k);
      if k in g && k !in g[c].signatures {
        CreditOne(g, done, c, k);
        SilentSigner(g, w, done, c, k);
        if Exalted(g, w.effective, done, k) {
          ExaltedLater(g, w.effective, w.effective, done, done + {c}, k);
        }
      }
    }
  }

  // ---------------------------------------------------------------- the start of the search

  ghost predicate EnteredAt(g: Graph, w: Web, seen: set<string>, k: string)
  {
    && (k in seen && k in g ==> KeyAt(g, w, {}, k))
    && (k in w.visited ==> k in seen && k in g)
  }

  ghost predicate Entered(g: Graph, w: Web, seen: set<string>)
  {
    && (forall k :: EnteredAt(g, w, seen, k))
    && QueueAt(g, w, {})
  }

  lemma EnterOne(g: Graph, w: Web, seen: set<string>, k: string)
    requires Entered(g, w, seen) && k in g && k !in seen
    ensures Entered(g, Enter(g, w, k), seen + {k})
  {
    var w' := Enter(g, w, k);
    assert EnteredAt(g, w, seen, k);
    assert k !in w.queue;
    forall j ensures EnteredAt(g, w', seen + {k}, j) {
      assert EnteredAt(g, w, seen, j);
    }
  }

  lemma {:induction false} EnterEvery(g: Graph, order: seq<string>)
    requires Distinct(order) && forall k :: k in order ==> k in g
    ensures Entered(g, EnterAll(g, Web(map[], map[], {}, []), order), Elements(order))
    decreases |order|
  {
    if order != [] {
      var k, front := order[|order| - 1], order[..|order| - 1];
      EnterEvery(g, front);
      EnterOne(g, EnterAll(g, Web(map[], map[], {}, []), front), Elements(front), k);
      ElementsSnoc(front, k);
      assert order == front + [k];
    }
  }

  lemma BeginSearch(g: Graph, w: Web)
    requires Entered(g, w, g.Keys)
    ensures Searching(g, w, {})
  {
    forall k ensures KeyAt(g, w, {}, k) {
      assert EnteredAt(g, w, g.Keys, k);
    }
    forall s | Closed(g, s) ensures w.visited <= s {
      forall k | k in w.visited ensures k in s {
        assert KeyAt(g, w, {}, k);
        SupportGrows(g, {}, s, k);
      }
    }
  }

  // ---------------------------------------------------------------- the end of the search

  /** Effective trust and signers as the least trusted set makes them. */
  ghost predicate Settled(g: Graph, effective: map<string, Trust>, signedBy: map<string, seq<string>>)
  {
    forall k :: k in g ==>
      && k in effective && (effective[k] >= THRESHOLD <==> k in Trusted(g))
      && NotLowered(g, effective[k], k) && UltimateAt(g, effective, Trusted(g), k)
      && k in signedBy && Distinct(signedBy[k])
      && (forall s :: s in signedBy[k] <==> s in Trusted(g) && s in g && k in g[s].signatures)
  }

  /**
   * The effective trust is at least the user's unless the user's level is unnamed and a trusted
   * key has signed; where no such signature is ultimate, only then.
   */
  ghost predicate NotLowered(g: Graph, e: Trust, k: string)
    requires k in g
  {
    && (!Unnamed(g[k].trust) || !Backed(g, Trusted(g), k) ==> e >= g[k].trust)
    && (!UltimatelyBacked(g, Trusted(g), k) ==>
          (e >= g[k].trust <==> !Unnamed(g[k].trust) || !Backed(g, Trusted(g), k)))
  }

  lemma VisitedIsTrusted(g: Graph, w: Web, done: set<string>)
    requires Searching(g, w, done) && w.queue == []
    ensures done == w.visited == Trusted(g)
  {
    assert forall k :: k in w.visited ==> k in done;
    assert done == w.visited;
    forall k | k in g && Support(g, w.visited, k) >= THRESHOLD ensures k in w.visited {
      assert KeyAt(g, w, done, k);
    }
    assert Least(g, w.visited);
    TrustedIsLeast(g);
    LeastUnique(g, w.visited, Trusted(g));
  }

  lemma EndSearch(g: Graph, w: Web, done: set<string>)
    requires Searching(g, w, done) && w.queue == []
    ensures Settled(g, w.effective, w.signedBy)
  {
    VisitedIsTrusted(g, w, done);
    forall k | k in g
      ensures && k in w.effective && (w.effective[k] >= THRESHOLD <==> k in Trusted(g))
              && NotLowered(g, w.effective[k], k) && UltimateAt(g, w.effective, Trusted(g), k)
              && k in w.signedBy && Distinct(w.signedBy[k])
              && (forall s :: s in w.signedBy[k] <==> s in Trusted(g) && s in g && k in g[s].signatures)
    {
      assert KeyAt(g, w, done, k);
    }
  }
}
