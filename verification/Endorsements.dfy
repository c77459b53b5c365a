/**
 * Which endorsements a spore carries when it is sent to Apply: db/endorsement.go, the two
 * lock regions of AddEndorsement and the vetting of each endorsement.
 */
module Endorsements {
  import opened Prelude
  import opened Operations
  import opened Node

  /** The key ring always holds the node's own key. */
  predicate HasLocalKey(cfg: Config)
  {
    cfg.ring.publicOf("").Some?
  }

  /** The public key under which an endorsement is checked. */
  function KeyOf(cfg: Config, e: Endorsement): Option<Bytes>
  {
    cfg.ring.publicOf(Local(cfg, e.emitter))
  }

  /** The node's own endorsement, signed in executeEndorsement. */
  predicate IsOwn(cfg: Config, s: Spore, e: Endorsement)
  {
    e.emitter == cfg.identity && Signs(cfg, s) && cfg.ring.sign(s) == Some(e.signature)
  }

  /** By a listed endorser, and signed by the local node or with a verified signature. */
  predicate Credible(cfg: Config, s: Spore, e: Endorsement)
  {
    && KeyOf(cfg, e).Some?
    && s.policy in cfg.policies
    && Endorser(cfg.policies[s.policy], KeyOf(cfg, e).value)
    && (cfg.ring.verify(Local(cfg, e.emitter), s, e.signature) || IsOwn(cfg, s, e))
  }

  ghost predicate TriggerSound(cfg: Config, t: Trigger)
  {
    && (forall i :: 0 <= i < |t.endorsements| ==> Credible(cfg, t.spore, t.endorsements[i]))
    && (forall i, j :: 0 <= i < j < |t.endorsements| ==> t.endorsements[i].emitter != t.endorsements[j].emitter)
  }

  ghost predicate Sound(cfg: Config, st: State)
  {
    && (forall r :: 0 <= r < |st.triggers| ==> TriggerSound(cfg, st.triggers[r]))
    && (forall r :: r in st.sent ==> r < |st.triggers| && QuorumReached(cfg, st.triggers[r]))
    && (forall r :: r in st.pending ==> r in st.sent)
  }

  /** Nothing is sent, and triggers are only added. */
  lemma AppendKeeps(cfg: Config, st: State, st': State, t: Trigger)
    requires Sound(cfg, st) && TriggerSound(cfg, t)
    requires st'.triggers == st.triggers + [t] && st'.sent == st.sent && st'.pending <= st.pending
    ensures Sound(cfg, st')
  {
    forall r | r in st'.pending ensures r in st'.sent {
      assert r in st.pending;
    }
  }

  lemma SameKeeps(cfg: Config, st: State, st': State)
    requires Sound(cfg, st)
    requires st'.triggers == st.triggers && st'.sent == st.sent && st'.pending <= st.pending
    ensures Sound(cfg, st')
  {
    forall r | r in st'.pending ensures r in st'.sent {
      assert r in st.pending;
    }
  }

  lemma ApplyKeeps(cfg: Config, st: State, s: Spore, bypass: bool)
    requires Sound(cfg, st)
    ensures Sound(cfg, Apply(cfg, st, s, bypass))
  {
    SameKeeps(cfg, st, Apply(cfg, st, s, bypass));
  }

  lemma OwnIsCredible(cfg: Config, s: Spore)
    requires HasLocalKey(cfg) && Signs(cfg, s)
    ensures Credible(cfg, s, OwnEndorsements(cfg, s)[0])
  {
  }

  lemma PromoteKeeps(cfg: Config, st: State, s: Spore, bypass: bool)
    requires HasLocalKey(cfg) && Sound(cfg, st)
    ensures Sound(cfg, Promote(cfg, st, s, bypass))
  {
    var path := PathOf(cfg, s);
    var logged := Log(st, Promoted(s, bypass, Signs(cfg, s), path.ToStaging?));
    SameKeeps(cfg, st, logged);
    if path.AtOnce? {
      ApplyKeeps(cfg, logged, s, bypass);
    } else if path.ToStaging? {
      if Signs(cfg, s) {
        OwnIsCredible(cfg, s);
      }
      AppendKeeps(cfg, logged, Promote(cfg, st, s, bypass), Trigger(s, OwnEndorsements(cfg, s), bypass));
    }
  }

  lemma EndorseKeeps(cfg: Config, st: State, s: Spore, missingFirst: bool)
    requires HasLocalKey(cfg) && Sound(cfg, st)
    ensures Sound(cfg, Endorse(cfg, st, s, missingFirst))
  {
    if Signed(cfg, s) {
      var v := CanEndorse(cfg, st, s, missingFirst);
      if v == Ok {
        PromoteKeeps(cfg, st, s, Bypasses(st, s, missingFirst));
      } else if v == ConflictingWithStaging {
        AppendKeeps(cfg, st, Postpone(st, s), Trigger(s, [], false));
      }
    }
  }

  lemma ReconsiderKeeps(cfg: Config, st: State, k: string, missingFirst: set<string>)
    requires HasLocalKey(cfg) && Sound(cfg, st)
    ensures Sound(cfg, Reconsider(cfg, st, k, missingFirst))
  {
    var st' := Reconsider(cfg, st, k, missingFirst);
    if k in st.waiting && st.waiting[k] < |st.triggers| {
      var s := st.triggers[st.waiting[k]].spore;
      var bypass := Bypasses(st, s, k in missingFirst);
      if CanEndorse(cfg, st, s, k in missingFirst) == Ok {
        PromoteKeeps(cfg, st, s, bypass);
        SameKeeps(cfg, Promote(cfg, st, s, bypass), st');
      } else {
        SameKeeps(cfg, st, st');
      }
    }
  }

  lemma {:induction false} ReconsiderAllKeeps(cfg: Config, st: State, order: seq<string>, missingFirst: set<string>)
    requires HasLocalKey(cfg) && Sound(cfg, st)
    ensures Sound(cfg, ReconsiderAll(cfg, st, order, missingFirst))
    decreases |order|
  {
    if order != [] {
      ReconsiderKeeps(cfg, st, order[0], missingFirst);
      ReconsiderAllKeeps(cfg, Reconsider(cfg, st, order[0], missingFirst), order[1..], missingFirst);
    }
  }

  /** An accepted endorsement is credible and by a new emitter. */
  lemma AcceptedIsSound(cfg: Config, t: Trigger, e: Endorsement)
    requires TriggerSound(cfg, t) && Vet(cfg, t, e) == Accepted
    ensures TriggerSound(cfg, t.(endorsements := t.endorsements + [e]))
  {
    var es := t.endorsements + [e];
    forall i | 0 <= i < |es| ensures Credible(cfg, t.spore, es[i]) {
      if i < |t.endorsements| {
        assert Credible(cfg, t.spore, t.endorsements[i]);
      }
    }
  }

  lemma AddToKeeps(cfg: Config, st: State, ref: nat, e: Endorsement)
    requires Sound(cfg, st) && ref < |st.triggers| && Vet(cfg, st.triggers[ref], e) == Accepted
    ensures Sound(cfg, AddTo(st, ref, e))
  {
    AcceptedIsSound(cfg, st.triggers[ref], e);
    var st' := AddTo(st, ref, e);
    forall r | 0 <= r < |st'.triggers| ensures TriggerSound(cfg, st'.triggers[r]) {
      assert TriggerSound(cfg, st.triggers[r]);
    }
  }

  lemma RegisterKeeps(cfg: Config, st: State, e: Endorsement)
    requires Sound(cfg, st)
    ensures Sound(cfg, Register(cfg, st, e))
  {
    if VetIn(cfg, st, st.staging, e) == Accepted {
      AddToKeeps(cfg, st, st.staging[e.uuid], e);
      SameKeeps(cfg, AddTo(st, st.staging[e.uuid], e), Register(cfg, st, e));
    } else if VetIn(cfg, st, st.waiting, e) == Accepted {
      AddToKeeps(cfg, st, st.waiting[e.uuid], e);
    }
  }

  lemma CommitKeeps(cfg: Config, st: State, ref: nat)
    requires Sound(cfg, st)
    ensures Sound(cfg, Commit(cfg, st, ref))
  {
    if ref in st.calls && ref < |st.triggers| && QuorumReached(cfg, st.triggers[ref]) {
      DispatchKeeps(cfg, st, Commit(cfg, st, ref), ref);
    } else {
      SameKeeps(cfg, st, Commit(cfg, st, ref));
    }
  }

  lemma DispatchKeeps(cfg: Config, st: State, st': State, ref: nat)
    requires Sound(cfg, st) && ref < |st.triggers| && QuorumReached(cfg, st.triggers[ref])
    requires st'.triggers == st.triggers && st'.sent == st.sent + {ref} && st'.pending == st.pending + multiset{ref}
    ensures Sound(cfg, st')
  {
    forall r | r in st'.pending ensures r in st'.sent {
      assert r in st.pending || r == ref;
    }
  }

  lemma RunPendingKeeps(cfg: Config, st: State, ref: nat)
    requires Sound(cfg, st)
    ensures Sound(cfg, RunPending(cfg, st, ref))
  {
    if ref in st.pending && ref < |st.triggers| {
      var mid := st.(pending := st.pending - multiset{ref});
      SameKeeps(cfg, st, mid);
      ApplyKeeps(cfg, mid, st.triggers[ref].spore, st.triggers[ref].bypass);
    }
  }

  lemma CollectKeeps(cfg: Config, st: State, uuid: string, order: seq<string>, missingFirst: set<string>)
    requires HasLocalKey(cfg) && Sound(cfg, st)
    ensures Sound(cfg, Collect(cfg, st, uuid, order, missingFirst))
  {
    var mid := Unstage(st, uuid, Expired(uuid));
    SameKeeps(cfg, st, mid);
    ReconsiderAllKeeps(cfg, mid, order, missingFirst);
  }

  lemma StepKeeps(cfg: Config, st: State, l: Label)
    requires HasLocalKey(cfg) && Sound(cfg, st)
    ensures Sound(cfg, Step(cfg, st, l))
  {
    match l {
      case Receive(s, missingFirst) => EndorseKeeps(cfg, st, s, missingFirst);
      case Timer(uuid, order, missingFirsts) => CollectKeeps(cfg, st, uuid, order, missingFirsts);
      case Spawned(ref) => RunPendingKeeps(cfg, st, ref);
      case FirstRegion(e) => RegisterKeeps(cfg, st, e);
      case SecondRegion(ref) => CommitKeeps(cfg, st, ref);
      case Tick(_) => SameKeeps(cfg, st, Step(cfg, st, l));
      case Sweeping(_) => SameKeeps(cfg, st, Step(cfg, st, l));
    }
  }

  /**
   * In every run, each spore sent to Apply from staging carries at least Quorum endorsements,
   * by pairwise different emitters, each of them credible.
   */
  lemma {:induction false} EverySentSporeIsEndorsed(cfg: Config, now: int, ls: seq<Label>)
    requires HasLocalKey(cfg)
    ensures Sound(cfg, RunLabels(cfg, Initial(now), ls))
    decreases |ls|
  {
    if ls != [] {
      EverySentSporeIsEndorsed(cfg, now, ls[..|ls| - 1]);
      StepKeeps(cfg, RunLabels(cfg, Initial(now), ls[..|ls| - 1]), ls[|ls| - 1]);
    }
  }

  // ---------------------------------------------------------------- how many endorsers that makes

  /** Different identities have different keys. */
  ghost predicate Injective(cfg: Config)
  {
    forall a, b :: cfg.ring.publicOf(a).Some? && cfg.ring.publicOf(a) == cfg.ring.publicOf(b) ==> a == b
  }

  function KeySeq(cfg: Config, es: seq<Endorsement>): (ks: seq<Option<Bytes>>)
    ensures |ks| == |es| && forall i :: 0 <= i < |es| ==> ks[i] == KeyOf(cfg, es[i])
  {
    if es == [] then [] else KeySeq(cfg, es[..|es| - 1]) + [KeyOf(cfg, es[|es| - 1])]
  }

  ghost function KeySet(cfg: Config, es: seq<Endorsement>): set<Option<Bytes>>
  {
    set k | k in KeySeq(cfg, es)
  }

  /** The empty emitter and the node's own identity both stand for the local key. */
  predicate LocalTwice(cfg: Config, es: seq<Endorsement>)
  {
    AlreadyBy(es, "") && AlreadyBy(es, cfg.identity)
  }

  lemma RepeatedKeyLosesOne(ks: seq<Option<Bytes>>, i: nat, j: nat)
    requires i < j < |ks| && ks[i] == ks[j]
    ensures |set k | k in ks| < |ks|
  {
    var rest := ks[..j] + ks[j + 1..];
    assert (set k | k in ks) == (set k | k in rest) by {
      assert rest[i] == ks[j];
      forall k | k in ks ensures k in rest {
        var t :| 0 <= t < |ks| && ks[t] == k;
        assert t != j ==> rest[if t < j then t else t - 1] == k;
      }
    }
    AtMostAsMany(rest);
  }

  /**
   * With an injective ring, the endorsements of a trigger come from as many different keys if
   * and only if the local key has not been counted both under the node's identity and under
   * the empty emitter.
   */
  lemma DistinctEndorsersIff(cfg: Config, t: Trigger)
    requires TriggerSound(cfg, t) && Injective(cfg) && cfg.identity != ""
    ensures |KeySet(cfg, t.endorsements)| == |t.endorsements| <==> !LocalTwice(cfg, t.endorsements)
  {
    var es := t.endorsements;
    var ks := KeySeq(cfg, es);
    if LocalTwice(cfg, es) {
      var i :| 0 <= i < |es| && es[i].emitter == "";
      var j :| 0 <= j < |es| && es[j].emitter == cfg.identity;
      assert ks[i] == ks[j];
      if i < j {
        RepeatedKeyLosesOne(ks, i, j);
      } else {
        RepeatedKeyLosesOne(ks, j, i);
      }
    } else {
      forall i, j | 0 <= i < j < |ks| ensures ks[i] != ks[j] {
        assert Credible(cfg, t.spore, es[i]) && Credible(cfg, t.spore, es[j]);
        assert es[i].emitter != es[j].emitter;
      }
      DistinctSize(ks);
    }
  }

  /** The local signature, sent back under the empty emitter, is counted a second time. */
  lemma EmptyEmitterIsTheLocalKey(cfg: Config, s: Spore, e: Endorsement)
    requires HasLocalKey(cfg) && Signs(cfg, s) && cfg.identity != ""
    requires e == Endorsement(s.uuid, "", cfg.ring.sign(s).value)
    requires cfg.ring.verify("", s, e.signature)
    ensures Vet(cfg, Trigger(s, OwnEndorsements(cfg, s), false), e) == Accepted
  {
  }
}
