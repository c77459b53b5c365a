/**
 * Nothing is forgotten on the way: a staged spore that has its quorum is taken to Apply, and a
 * waiting spore leaves its list only for a reason (db/endorsement.go, db/db.go).
 */
module Progress {
  import opened Prelude
  import opened Operations
  import opened Node
  import opened Conduct

  // ---------------------------------------------------------------- quorums are taken

  /** Whoever completed the quorum of the trigger is about to send it, or has sent it. */
  ghost predicate TakenAt(cfg: Config, st: State, u: string)
  {
    u in st.staging ==>
      && st.staging[u] < |st.triggers|
      && (Enough(cfg, st.triggers[st.staging[u]]) ==> st.staging[u] in st.calls || st.staging[u] in st.sent)
  }

  /** No trigger is staged and waiting at once. */
  ghost predicate Apart(st: State, u: string, k: string)
  {
    u in st.staging && k in st.waiting ==> st.staging[u] != st.waiting[k]
  }

  ghost predicate Taken(cfg: Config, st: State)
  {
    && (forall u :: TakenAt(cfg, st, u))
    && (forall u, k :: Apart(st, u, k))
    && (forall k :: k in st.waiting ==> st.waiting[k] < |st.triggers|)
  }

  /** Triggers, calls and sent ones as before, and no more in the two maps. */
  lemma FewerTaken(cfg: Config, st: State, st': State)
    requires Taken(cfg, st)
    requires st'.triggers == st.triggers && st'.calls == st.calls && st'.sent == st.sent
    requires forall u :: u in st'.staging ==> u in st.staging && st'.staging[u] == st.staging[u]
    requires forall k :: k in st'.waiting ==> k in st.waiting && st'.waiting[k] == st.waiting[k]
    ensures Taken(cfg, st')
  {
    forall u ensures TakenAt(cfg, st', u) {
      assert TakenAt(cfg, st, u);
    }
    forall u, k ensures Apart(st', u, k) {
      assert Apart(st, u, k);
    }
  }

  lemma StagedTaken(cfg: Config, st: State, st': State, s: Spore, es: seq<Endorsement>, bypass: bool)
    requires Taken(cfg, st) && StagedWith(st, st', s, es, bypass)
    requires s.policy in cfg.policies && |es| < cfg.policies[s.policy].quorum
    ensures Taken(cfg, st')
  {
    forall u ensures TakenAt(cfg, st', u) {
      assert TakenAt(cfg, st, u);
    }
    forall u, k ensures Apart(st', u, k) {
      assert Apart(st, u, k);
    }
  }

  lemma PostponedTaken(cfg: Config, st: State, st': State, s: Spore)
    requires Taken(cfg, st) && st'.triggers == st.triggers + [Trigger(s, [], false)]
    requires st'.waiting == st.waiting[s.uuid := |st.triggers|] && st'.staging == st.staging
    requires st'.calls == st.calls && st'.sent == st.sent
    ensures Taken(cfg, st')
  {
    forall u ensures TakenAt(cfg, st', u) {
      assert TakenAt(cfg, st, u);
    }
    forall u, k ensures Apart(st', u, k) {
      assert Apart(st, u, k) && TakenAt(cfg, st, u);
    }
  }

  lemma PromoteTaken(cfg: Config, st: State, s: Spore, bypass: bool)
    requires Taken(cfg, st)
    ensures Taken(cfg, Promote(cfg, st, s, bypass))
  {
    PromoteDoes(cfg, st, s, bypass);
    var st' := Promote(cfg, st, s, bypass);
    if st'.triggers == st.triggers {
      assert st'.staging == st.staging;
      FewerTaken(cfg, st, st');
    } else {
      var es := st'.triggers[|st.triggers|].endorsements;
      StagedTaken(cfg, st, st', s, es, bypass);
    }
  }

  lemma ReconsiderTaken(cfg: Config, st: State, k: string, missingFirst: set<string>)
    requires Taken(cfg, st)
    ensures Taken(cfg, Reconsider(cfg, st, k, missingFirst))
  {
    var st' := Reconsider(cfg, st, k, missingFirst);
    if k in st.waiting && st.waiting[k] < |st.triggers| {
      var s := st.triggers[st.waiting[k]].spore;
      if CanEndorse(cfg, st, s, k in missingFirst) == Ok {
        var mid := Promote(cfg, st, s, Bypasses(st, s, k in missingFirst));
        PromoteTaken(cfg, st, s, Bypasses(st, s, k in missingFirst));
        FewerTaken(cfg, mid, st');
      } else {
        FewerTaken(cfg, st, st');
      }
    }
  }

  lemma {:induction false} ReconsiderAllTaken(cfg: Config, st: State, order: seq<string>, missingFirst: set<string>)
    requires Taken(cfg, st)
    ensures Taken(cfg, ReconsiderAll(cfg, st, order, missingFirst))
    decreases |order|
  {
    if order != [] {
      ReconsiderTaken(cfg, st, order[0], missingFirst);
      ReconsiderAllTaken(cfg, Reconsider(cfg, st, order[0], missingFirst), order[1..], missingFirst);
    }
  }

  lemma EndorseTaken(cfg: Config, st: State, s: Spore, missingFirst: bool)
    requires Taken(cfg, st)
    ensures Taken(cfg, Endorse(cfg, st, s, missingFirst))
  {
    EndorseDoes(cfg, st, s, missingFirst);
    var v := CanEndorse(cfg, st, s, missingFirst);
    if v == Ok {
      PromoteTaken(cfg, st, s, Outdated(st.store, s));
    } else if v == ConflictingWithStaging && Endorse(cfg, st, s, missingFirst) != st {
      PostponedTaken(cfg, st, Endorse(cfg, st, s, missingFirst), s);
    }
  }

  /** The call that adds an endorsement to a staged trigger goes on to the second region. */
  lemma JoinedTaken(cfg: Config, st: State, st': State, ref: nat, e: Endorsement)
    requires Taken(cfg, st) && ref < |st.triggers| && Joins(st, st', ref, e)
    requires st'.staging == st.staging && st'.waiting == st.waiting && st'.sent == st.sent
    requires st.calls <= st'.calls && (ref in st'.calls || forall u :: u in st.staging ==> st.staging[u] != ref)
    ensures Taken(cfg, st')
  {
    forall u ensures TakenAt(cfg, st', u) {
      assert TakenAt(cfg, st, u);
    }
    forall u, k ensures Apart(st', u, k) {
      assert Apart(st, u, k);
    }
  }

  lemma RegisterTaken(cfg: Config, st: State, e: Endorsement)
    requires Taken(cfg, st)
    ensures Taken(cfg, Register(cfg, st, e))
  {
    RegisterDoes(cfg, st, e);
    var st' := Register(cfg, st, e);
    if st' != st {
      if Kept(st, st.staging, e.uuid) {
        JoinedTaken(cfg, st, st', st.staging[e.uuid], e);
      } else {
        forall u | u in st.staging ensures st.staging[u] != st.waiting[e.uuid] {
          assert Apart(st, u, e.uuid);
        }
        JoinedTaken(cfg, st, st', st.waiting[e.uuid], e);
      }
    }
  }

  lemma CommitTaken(cfg: Config, st: State, ref: nat)
    requires Taken(cfg, st)
    ensures Taken(cfg, Commit(cfg, st, ref))
  {
    if ref in st.calls && ref < |st.triggers| {
      CommitDoes(cfg, st, ref);
      var st' := Commit(cfg, st, ref);
      forall u ensures TakenAt(cfg, st', u) {
        assert TakenAt(cfg, st, u);
      }
      forall u, k ensures Apart(st', u, k) {
        assert Apart(st, u, k);
      }
    }
  }

  lemma StepTaken(cfg: Config, st: State, l: Label)
    requires Taken(cfg, st)
    ensures Taken(cfg, Step(cfg, st, l))
  {
    match l {
      case Receive(s, missingFirst) => EndorseTaken(cfg, st, s, missingFirst);
      case Timer(uuid, order, missingFirsts) =>
        var mid := Unstage(st, uuid, Expired(uuid));
        FewerTaken(cfg, st, mid);
        ReconsiderAllTaken(cfg, mid, order, missingFirsts);
      case FirstRegion(e) => RegisterTaken(cfg, st, e);
      case SecondRegion(ref) => CommitTaken(cfg, st, ref);
      case Spawned(ref) => FewerTaken(cfg, st, RunPending(cfg, st, ref));
      case Tick(_) => FewerTaken(cfg, st, Step(cfg, st, l));
      case Sweeping(_) => FewerTaken(cfg, st, Step(cfg, st, l));
    }
  }

  /**
   * In every run, a staged spore with as many endorsements as its policy asks for has been sent to
   * Apply, or the call that completed its quorum has still to run its second region.
   */
  lemma {:induction false} EveryQuorumIsTaken(cfg: Config, now: int, ls: seq<Label>)
    ensures Taken(cfg, RunLabels(cfg, Initial(now), ls))
    decreases |ls|
  {
    if ls != [] {
      EveryQuorumIsTaken(cfg, now, ls[..|ls| - 1]);
      StepTaken(cfg, RunLabels(cfg, Initial(now), ls[..|ls| - 1]), ls[|ls| - 1]);
    }
  }

  // ---------------------------------------------------------------- leaving the waiting list

  /** The spore was logged as promoted between the two states. */
  ghost predicate PromotedBetween(st: State, st': State, s: Spore)
  {
    exists i :: |st.events| <= i < |st'.events| && st'.events[i].Promoted? && st'.events[i].spore == s
  }

  /** The local node would have to sign the spore and its key is locked. */
  ghost predicate Locked(cfg: Config, s: Spore)
  {
    && s.policy in cfg.policies && cfg.policies[s.policy].quorum != 0
    && LocalKey(cfg) in cfg.policies[s.policy].endorsers && cfg.ring.sign(s) == None
  }

  /** Why a spore leaves the waiting list. */
  ghost predicate Excused(cfg: Config, st: State, st': State, s: Spore)
  {
    !InTime(s, st.now) || PromotedBetween(st, st', s) || Locked(cfg, s)
  }

  lemma PromotionIsLogged(cfg: Config, st: State, s: Spore, bypass: bool)
    requires s.policy in cfg.policies && !Locked(cfg, s)
    ensures var st' := Promote(cfg, st, s, bypass); st.events <= st'.events && PromotedBetween(st, st', s)
  {
    var st' := Promote(cfg, st, s, bypass);
    assert !PathOf(cfg, s).Nowhere? && !PathOf(cfg, s).Panics?;
    assert st'.events == st.events + [Promoted(s, bypass, Signs(cfg, s), PathOf(cfg, s).ToStaging?)];
    assert st'.events[|st.events|].spore == s;
  }

  /** An iteration of the promotion loop takes the spore off the list only for one of these reasons. */
  lemma ReconsiderExcuses(cfg: Config, st: State, k: string, missingFirst: set<string>)
    requires k in st.waiting && st.waiting[k] < |st.triggers|
    ensures var s, st' := st.triggers[st.waiting[k]].spore, Reconsider(cfg, st, k, missingFirst);
            k !in st'.waiting ==> Excused(cfg, st, st', s)
  {
    var s, st' := st.triggers[st.waiting[k]].spore, Reconsider(cfg, st, k, missingFirst);
    var v := CanEndorse(cfg, st, s, k in missingFirst);
    EndorsableIff(cfg, st, s, k in missingFirst);
    if v == Ok && k !in st'.waiting && !Locked(cfg, s) {
      PromotionIsLogged(cfg, st, s, Bypasses(st, s, k in missingFirst));
    }
  }

  lemma ExcusedLater(cfg: Config, st: State, mid: State, mid': State, st': State, s: Spore)
    requires mid.now == st.now && st.events <= mid.events && mid'.events <= st'.events
    requires Excused(cfg, mid, mid', s)
    ensures Excused(cfg, st, st', s)
  {
    if PromotedBetween(mid, mid', s) {
      var i :| |mid.events| <= i < |mid'.events| && mid'.events[i].Promoted? && mid'.events[i].spore == s;
      assert st'.events[i] == mid'.events[i];
    }
  }

  /** The spore is staged as before, or under a new trigger. */
  ghost predicate Restaged(st: State, st': State, u: string)
    requires u in st'.staging
  {
    (u in st.staging && st'.staging[u] == st.staging[u]) || st'.staging[u] >= |st.triggers|
  }

  /** What a pass may do to the lists. */
  ghost predicate Passes(cfg: Config, st: State, st': State)
  {
    && st'.now == st.now && st.events <= st'.events && st.triggers <= st'.triggers
    && (forall u :: u in st.staging ==> u in st'.staging)
    && (forall u :: u in st'.staging ==> Restaged(st, st', u))
    && (forall k :: k in st'.waiting ==> k in st.waiting && st'.waiting[k] == st.waiting[k])
    && (forall k :: k in st.waiting && st.waiting[k] < |st.triggers| && k !in st'.waiting ==>
          Excused(cfg, st, st', st.triggers[st.waiting[k]].spore))
  }

  lemma PromoteStaging(cfg: Config, st: State, s: Spore, bypass: bool)
    ensures var st' := Promote(cfg, st, s, bypass);
            && (forall u :: u in st.staging ==> u in st'.staging)
            && (forall u :: u in st'.staging ==> Restaged(st, st', u))
            && st'.now == st.now && st'.waiting == st.waiting
  {
    PromoteDoes(cfg, st, s, bypass);
  }

  lemma ReconsiderPasses(cfg: Config, st: State, k: string, missingFirst: set<string>)
    ensures Passes(cfg, st, Reconsider(cfg, st, k, missingFirst))
  {
    var st' := Reconsider(cfg, st, k, missingFirst);
    if k in st.waiting && st.waiting[k] < |st.triggers| {
      var s := st.triggers[st.waiting[k]].spore;
      ReconsiderExcuses(cfg, st, k, missingFirst);
      if CanEndorse(cfg, st, s, k in missingFirst) == Ok {
        var mid := Promote(cfg, st, s, Bypasses(st, s, k in missingFirst));
        PromoteStaging(cfg, st, s, Bypasses(st, s, k in missingFirst));
        OneLess(cfg, st, mid, st', k);
      } else {
        OneLess(cfg, st, st, st', k);
      }
    }
  }

  lemma OneLess(cfg: Config, st: State, mid: State, st': State, k: string)
    requires mid.now == st.now && st.events <= mid.events && st.triggers <= mid.triggers && mid.waiting == st.waiting
    requires forall u :: u in st.staging ==> u in mid.staging
    requires forall u :: u in mid.staging ==> Restaged(st, mid, u)
    requires st'.now == mid.now && st'.events == mid.events && st'.triggers == mid.triggers
    requires st'.staging == mid.staging && (st'.waiting == st.waiting || st'.waiting == st.waiting - {k})
    requires k in st.waiting && st.waiting[k] < |st.triggers|
    requires k !in st'.waiting ==> Excused(cfg, st, st', st.triggers[st.waiting[k]].spore)
    ensures Passes(cfg, st, st')
  {
    forall u | u in st'.staging ensures Restaged(st, st', u) {
      assert Restaged(st, mid, u);
    }
  }

  lemma PassesOn(cfg: Config, st: State, mid: State, st': State)
    requires Passes(cfg, st, mid) && Passes(cfg, mid, st')
    ensures Passes(cfg, st, st')
  {
    forall u | u in st'.staging ensures Restaged(st, st', u) {
      assert Restaged(mid, st', u) && (u in mid.staging ==> Restaged(st, mid, u));
    }
    forall k | k in st.waiting && st.waiting[k] < |st.triggers| && k !in st'.waiting
      ensures Excused(cfg, st, st', st.triggers[st.waiting[k]].spore)
    {
      var s := st.triggers[st.waiting[k]].spore;
      if k in mid.waiting {
        assert mid.triggers[mid.waiting[k]] == st.triggers[st.waiting[k]];
        ExcusedLater(cfg, st, mid, st', st', s);
      } else {
        ExcusedLater(cfg, st, st, mid, st', s);
      }
    }
  }

  lemma {:induction false} ReconsiderAllPasses(cfg: Config, st: State, order: seq<string>, missingFirst: set<string>)
    ensures Passes(cfg, st, ReconsiderAll(cfg, st, order, missingFirst))
    decreases |order|
  {
    if order != [] {
      var mid := Reconsider(cfg, st, order[0], missingFirst);
      ReconsiderPasses(cfg, st, order[0], missingFirst);
      ReconsiderAllPasses(cfg, mid, order[1..], missingFirst);
      PassesOn(cfg, st, mid, ReconsiderAll(cfg, st, order, missingFirst));
    }
  }

  /**
   * A whole gc pass: the expired spore leaves staging, and is there afterwards only under a new
   * trigger; every other staged spore stays; and a spore leaves the waiting list only because its
   * deadline has passed, because it was promoted, or because the node's own key is locked.
   */
  lemma CollectDoes(cfg: Config, st: State, uuid: string, order: seq<string>, missingFirst: set<string>)
    ensures var st' := Collect(cfg, st, uuid, order, missingFirst);
            && (uuid in st'.staging ==> st'.staging[uuid] >= |st.triggers|)
            && (forall u :: u in st.staging && u != uuid ==> u in st'.staging)
            && (forall u :: u in st'.staging && u != uuid ==> Restaged(st, st', u))
            && (forall k :: k in st'.waiting ==> k in st.waiting && st'.waiting[k] == st.waiting[k])
            && (forall k :: k in st.waiting && st.waiting[k] < |st.triggers| && k !in st'.waiting ==>
                  Excused(cfg, st, st', st.triggers[st.waiting[k]].spore))
  {
    var mid, st' := Unstage(st, uuid, Expired(uuid)), Collect(cfg, st, uuid, order, missingFirst);
    ReconsiderAllPasses(cfg, mid, order, missingFirst);
    forall k | k in st.waiting && st.waiting[k] < |st.triggers| && k !in st'.waiting
      ensures Excused(cfg, st, st', st.triggers[st.waiting[k]].spore)
    {
      ExcusedLater(cfg, st, mid, st', st', st.triggers[st.waiting[k]].spore);
    }
  }

  // ---------------------------------------------------------------- cleaning

  /** As written, Clean forgets exactly the spores whose end lies in the future, and nothing else changes. */
  lemma CleanDoes(st: State, u: string)
    ensures var st' := Clean(st, AsWritten);
            && (u in st'.applied <==> u in st.applied && !(st.applied[u] > 0 && st.applied[u] > st.now))
            && (u in st'.applied ==> st'.applied[u] == st.applied[u])
            && st' == st.(applied := st'.applied)
  {
  }
}
