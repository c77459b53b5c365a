/**
 * What a node has promised: the order of its promotions and of the departures from its
 * staging list.
 */
module History {
  import opened Operations
  import opened Node
  import Staging

  /** The spore is dropped from staging, by its deadline or by reaching its quorum. */
  predicate Leaves(e: Event, uuid: string)
  {
    e == Expired(uuid) || e == Quorate(uuid)
  }

  ghost predicate LeavesBetween(es: seq<Event>, uuid: string, i: int, j: int)
  {
    exists k :: i < k < j && 0 <= k < |es| && Leaves(es[k], uuid)
  }

  predicate StagedBy(e: Event)
  {
    e.Promoted? && e.staged
  }

  /** A staged spore is in staging until an event says it left. */
  ghost predicate StaysAt(st: State, i: nat)
  {
    i < |st.events| && StagedBy(st.events[i]) ==>
      var u := st.events[i].spore.uuid;
      u in st.staging || LeavesBetween(st.events, u, i, |st.events|)
  }

  /** A spore staged after a conflicting one came after its departure, or skipped the checks. */
  ghost predicate OrderedAt(es: seq<Event>, i: nat, j: nat)
  {
    i < j < |es| && StagedBy(es[i]) && StagedBy(es[j]) && !es[j].bypass &&
    es[i].spore.uuid != es[j].spore.uuid && SporesConflict(es[i].spore, es[j].spore) ==>
      LeavesBetween(es, es[i].spore.uuid, i, j)
  }

  /** Promoted spores are the ones their uuids stand for, and signing means staging unless the quorum is small. */
  ghost predicate ProperAt(cfg: Config, catalog: string -> Spore, e: Event)
  {
    e.Promoted? ==>
      && e.spore == catalog(e.spore.uuid)
      && (e.signed ==> e.spore.policy in cfg.policies && (e.staged || cfg.policies[e.spore.policy].quorum <= 1))
  }

  ghost predicate Chronicle(cfg: Config, catalog: string -> Spore, st: State)
  {
    && (forall i: nat :: StaysAt(st, i))
    && (forall i: nat, j: nat :: OrderedAt(st.events, i, j))
    && (forall i :: 0 <= i < |st.events| ==> ProperAt(cfg, catalog, st.events[i]))
  }

  /** A staged spore is still the one that was promoted. */
  ghost predicate Base(cfg: Config, catalog: string -> Spore, st: State)
  {
    Staging.Invariant(st) && Staging.Listed(cfg, catalog, st)
  }

  /** Events and staging untouched. */
  lemma SameKeeps(cfg: Config, catalog: string -> Spore, st: State, st': State)
    requires Chronicle(cfg, catalog, st) && st'.events == st.events
    requires forall u :: u in st.staging ==> u in st'.staging
    ensures Chronicle(cfg, catalog, st')
  {
    forall i: nat ensures StaysAt(st', i) {
      assert StaysAt(st, i);
    }
  }

  lemma LeavesLonger(es: seq<Event>, es': seq<Event>, uuid: string, i: int, j: int, j': int)
    requires es <= es' && j <= j' && LeavesBetween(es, uuid, i, j)
    ensures LeavesBetween(es', uuid, i, j')
  {
    var k :| i < k < j && 0 <= k < |es| && Leaves(es[k], uuid);
    assert Leaves(es'[k], uuid);
  }

  lemma OrderedLonger(es: seq<Event>, e: Event, i: nat, j: nat)
    requires OrderedAt(es, i, j) && j < |es|
    ensures OrderedAt(es + [e], i, j)
  {
    var es' := es + [e];
    if i < j && StagedBy(es[i]) && LeavesBetween(es, es[i].spore.uuid, i, j) {
      LeavesLonger(es, es', es[i].spore.uuid, i, j, j);
    }
  }

  /** A departure is logged together with the deletion. */
  lemma UnstageKeeps(cfg: Config, catalog: string -> Spore, st: State, uuid: string, e: Event)
    requires Chronicle(cfg, catalog, st) && Leaves(e, uuid)
    ensures Chronicle(cfg, catalog, Unstage(st, uuid, e))
  {
    var st' := Unstage(st, uuid, e);
    if uuid !in st.staging {
      SameKeeps(cfg, catalog, st, st');
    } else {
      var n := |st.events|;
      assert st'.events[n] == e;
      forall i: nat ensures StaysAt(st', i) {
        assert StaysAt(st, i);
        if i < n && StagedBy(st.events[i]) {
          var u := st.events[i].spore.uuid;
          if u == uuid {
            assert Leaves(st'.events[n], u);
          } else if LeavesBetween(st.events, u, i, n) {
            LeavesLonger(st.events, st'.events, u, i, n, n + 1);
          }
        }
      }
      forall i: nat, j: nat ensures OrderedAt(st'.events, i, j) {
        assert OrderedAt(st.events, i, j);
        if j < n {
          OrderedLonger(st.events, e, i, j);
        }
      }
    }
  }

  /** Logging a promotion into staging. */
  lemma StageKeeps(cfg: Config, catalog: string -> Spore, st: State, st': State, e: Event)
    requires Chronicle(cfg, catalog, st) && Base(cfg, catalog, st)
    requires StagedBy(e) && ProperAt(cfg, catalog, e)
    requires e.bypass || !ConflictsWithStaging(st, e.spore)
    requires st'.events == st.events + [e]
    requires forall u :: u in st.staging ==> u in st'.staging
    requires e.spore.uuid in st'.staging
    ensures Chronicle(cfg, catalog, st')
  {
    var n := |st.events|;
    forall i: nat ensures StaysAt(st', i) {
      assert StaysAt(st, i);
      if i < n && StagedBy(st.events[i]) && LeavesBetween(st.events, st.events[i].spore.uuid, i, n) {
        LeavesLonger(st.events, st'.events, st.events[i].spore.uuid, i, n, n + 1);
      }
    }
    forall i: nat, j: nat ensures OrderedAt(st'.events, i, j) {
      assert OrderedAt(st.events, i, j);
      if j < n {
        OrderedLonger(st.events, e, i, j);
      } else if j == n && i < j {
        NewComesAfter(cfg, catalog, st, e, i);
        if StagedBy(st.events[i]) && LeavesBetween(st.events, st.events[i].spore.uuid, i, n) {
          LeavesLonger(st.events, st'.events, st.events[i].spore.uuid, i, n, n);
        }
      }
    }
  }

  /** A promise still in staging makes a conflicting spore fail the conflict check. */
  lemma PromiseIsSeen(cfg: Config, catalog: string -> Spore, st: State, i: nat, s: Spore)
    requires Chronicle(cfg, catalog, st) && Base(cfg, catalog, st)
    requires i < |st.events| && StagedBy(st.events[i]) && SporesConflict(st.events[i].spore, s)
    ensures st.events[i].spore.uuid in st.staging ==> ConflictsWithStaging(st, s)
  {
    var u := st.events[i].spore.uuid;
    assert ProperAt(cfg, catalog, st.events[i]);
    assert Staging.RefersTo(st, st.staging, u);
    ConflictSymmetric(st.events[i].spore, s);
  }

  /** A spore that passes the conflict check finds every conflicting promise already dropped. */
  lemma NewComesAfter(cfg: Config, catalog: string -> Spore, st: State, e: Event, i: nat)
    requires Chronicle(cfg, catalog, st) && Base(cfg, catalog, st)
    requires StagedBy(e) && (e.bypass || !ConflictsWithStaging(st, e.spore)) && i < |st.events|
    ensures StagedBy(st.events[i]) && !e.bypass && SporesConflict(st.events[i].spore, e.spore) ==>
              LeavesBetween(st.events, st.events[i].spore.uuid, i, |st.events|)
  {
    if StagedBy(st.events[i]) && !e.bypass && SporesConflict(st.events[i].spore, e.spore) {
      assert StaysAt(st, i);
      PromiseIsSeen(cfg, catalog, st, i, e.spore);
    }
  }

  /** Logging a promotion that does not stage. */
  lemma LogKeeps(cfg: Config, catalog: string -> Spore, st: State, st': State, e: Event)
    requires Chronicle(cfg, catalog, st)
    requires e.Promoted? && !e.staged && ProperAt(cfg, catalog, e)
    requires st'.events == st.events + [e] && st'.staging == st.staging
    ensures Chronicle(cfg, catalog, st')
  {
    var n := |st.events|;
    forall i: nat ensures StaysAt(st', i) {
      assert StaysAt(st, i);
      if i < n && StagedBy(st.events[i]) && LeavesBetween(st.events, st.events[i].spore.uuid, i, n) {
        LeavesLonger(st.events, st'.events, st.events[i].spore.uuid, i, n, n + 1);
      }
    }
    forall i: nat, j: nat ensures OrderedAt(st'.events, i, j) {
      assert OrderedAt(st.events, i, j);
      if j < n {
        OrderedLonger(st.events, e, i, j);
      }
    }
  }

  lemma PromotedIsProper(cfg: Config, catalog: string -> Spore, s: Spore, bypass: bool)
    requires s == catalog(s.uuid) && (PathOf(cfg, s).AtOnce? || PathOf(cfg, s).ToStaging?)
    ensures ProperAt(cfg, catalog, Promoted(s, bypass, Signs(cfg, s), PathOf(cfg, s).ToStaging?))
  {
  }

  lemma PromoteKeeps(cfg: Config, catalog: string -> Spore, st: State, s: Spore, bypass: bool)
    requires Chronicle(cfg, catalog, st) && Base(cfg, catalog, st) && s == catalog(s.uuid)
    requires bypass || !ConflictsWithStaging(st, s)
    ensures Chronicle(cfg, catalog, Promote(cfg, st, s, bypass))
  {
    var path := PathOf(cfg, s);
    var e := Promoted(s, bypass, Signs(cfg, s), path.ToStaging?);
    if path.AtOnce? || path.ToStaging? {
      PromotedIsProper(cfg, catalog, s, bypass);
    }
    if path.AtOnce? {
      LogKeeps(cfg, catalog, st, Promote(cfg, st, s, bypass), e);
    } else if path.ToStaging? {
      StageKeeps(cfg, catalog, st, Promote(cfg, st, s, bypass), e);
    }
  }

  lemma EndorseKeeps(cfg: Config, catalog: string -> Spore, st: State, s: Spore, missingFirst: bool)
    requires Chronicle(cfg, catalog, st) && Base(cfg, catalog, st) && s == catalog(s.uuid)
    ensures Chronicle(cfg, catalog, Endorse(cfg, st, s, missingFirst))
  {
    if Signed(cfg, s) {
      var v := CanEndorse(cfg, st, s, missingFirst);
      if v == Ok {
        Staging.EndorsableIsApart(cfg, st, s, missingFirst);
        PromoteKeeps(cfg, catalog, st, s, Bypasses(st, s, missingFirst));
      } else if v == ConflictingWithStaging {
        SameKeeps(cfg, catalog, st, Postpone(st, s));
      }
    }
  }

  lemma ReconsiderKeeps(cfg: Config, catalog: string -> Spore, st: State, k: string, missingFirst: set<string>)
    requires Chronicle(cfg, catalog, st) && Base(cfg, catalog, st)
    ensures Chronicle(cfg, catalog, Reconsider(cfg, st, k, missingFirst))
  {
    var st' := Reconsider(cfg, st, k, missingFirst);
    if k in st.waiting && st.waiting[k] < |st.triggers| {
      var s := st.triggers[st.waiting[k]].spore;
      var bypass := Bypasses(st, s, k in missingFirst);
      if CanEndorse(cfg, st, s, k in missingFirst) == Ok {
        Staging.EndorsableIsApart(cfg, st, s, k in missingFirst);
        PromoteKeeps(cfg, catalog, st, s, bypass);
        SameKeeps(cfg, catalog, Promote(cfg, st, s, bypass), st');
      } else {
        SameKeeps(cfg, catalog, st, st');
      }
    }
  }

  lemma {:induction false} ReconsiderAllKeeps(cfg: Config, catalog: string -> Spore, st: State,
                                              order: seq<string>, missingFirst: set<string>)
    requires Chronicle(cfg, catalog, st) && Base(cfg, catalog, st)
    ensures Chronicle(cfg, catalog, ReconsiderAll(cfg, st, order, missingFirst))
    decreases |order|
  {
    if order != [] {
      ReconsiderKeeps(cfg, catalog, st, order[0], missingFirst);
      Staging.ReconsiderKeeps(cfg, st, order[0], missingFirst);
      Staging.ReconsiderListed(cfg, catalog, st, order[0], missingFirst);
      ReconsiderAllKeeps(cfg, catalog, Reconsider(cfg, st, order[0], missingFirst), order[1..], missingFirst);
    }
  }

  lemma CollectKeeps(cfg: Config, catalog: string -> Spore, st: State, uuid: string, order: seq<string>,
                     missingFirst: set<string>)
    requires Chronicle(cfg, catalog, st) && Base(cfg, catalog, st)
    ensures Chronicle(cfg, catalog, Collect(cfg, st, uuid, order, missingFirst))
  {
    var mid := Unstage(st, uuid, Expired(uuid));
    UnstageKeeps(cfg, catalog, st, uuid, Expired(uuid));
    Staging.UnstageIsNeutral(st, uuid, Expired(uuid));
    Staging.NoMoreStagedKeeps(st, mid);
    Staging.NeutralKeepsListed(cfg, catalog, st, mid);
    ReconsiderAllKeeps(cfg, catalog, mid, order, missingFirst);
  }

  lemma CommitKeeps(cfg: Config, catalog: string -> Spore, st: State, ref: nat)
    requires Chronicle(cfg, catalog, st)
    ensures Chronicle(cfg, catalog, Commit(cfg, st, ref))
  {
    var st' := Commit(cfg, st, ref);
    if ref in st.calls && ref < |st.triggers| && QuorumReached(cfg, st.triggers[ref]) {
      var u := st.triggers[ref].spore.uuid;
      UnstageKeeps(cfg, catalog, st, u, Quorate(u));
      SameKeeps(cfg, catalog, Unstage(st, u, Quorate(u)), st');
    } else {
      SameKeeps(cfg, catalog, st, st');
    }
  }

  lemma RunPendingKeeps(cfg: Config, catalog: string -> Spore, st: State, ref: nat)
    requires Chronicle(cfg, catalog, st)
    ensures Chronicle(cfg, catalog, RunPending(cfg, st, ref))
  {
    if ref in st.pending && ref < |st.triggers| {
      SameKeeps(cfg, catalog, st, RunPending(cfg, st, ref));
    }
  }

  lemma RegisterKeeps(cfg: Config, catalog: string -> Spore, st: State, e: Endorsement)
    requires Chronicle(cfg, catalog, st)
    ensures Chronicle(cfg, catalog, Register(cfg, st, e))
  {
    Staging.RegisterIsNeutral(cfg, st, e);
    SameKeeps(cfg, catalog, st, Register(cfg, st, e));
  }

  lemma StepKeeps(cfg: Config, catalog: string -> Spore, st: State, l: Label)
    requires Chronicle(cfg, catalog, st) && Base(cfg, catalog, st)
    requires l.Receive? ==> l.spore == catalog(l.spore.uuid)
    ensures Chronicle(cfg, catalog, Step(cfg, st, l))
  {
    match l {
      case Receive(s, missingFirst) => EndorseKeeps(cfg, catalog, st, s, missingFirst);
      case Timer(uuid, order, missingFirsts) => CollectKeeps(cfg, catalog, st, uuid, order, missingFirsts);
      case Spawned(ref) => RunPendingKeeps(cfg, catalog, st, ref);
      case FirstRegion(e) => RegisterKeeps(cfg, catalog, st, e);
      case SecondRegion(ref) => CommitKeeps(cfg, catalog, st, ref);
      case Tick(_) => SameKeeps(cfg, catalog, st, Step(cfg, st, l));
      case Sweeping(_) => SameKeeps(cfg, catalog, st, Step(cfg, st, l));
    }
  }

  // ---------------------------------------------------------------- history only grows

  lemma {:induction false} ReconsiderAllGrows(cfg: Config, st: State, order: seq<string>, missingFirst: set<string>)
    ensures st.events <= ReconsiderAll(cfg, st, order, missingFirst).events
    decreases |order|
  {
    if order != [] {
      ReconsiderAllGrows(cfg, Reconsider(cfg, st, order[0], missingFirst), order[1..], missingFirst);
    }
  }

  lemma StepGrows(cfg: Config, st: State, l: Label)
    ensures st.events <= Step(cfg, st, l).events
  {
    match l {
      case Timer(uuid, order, missingFirsts) =>
        ReconsiderAllGrows(cfg, Unstage(st, uuid, Expired(uuid)), order, missingFirsts);
      case FirstRegion(e) =>
        assert Register(cfg, st, e).events == st.events;
      case _ =>
    }
  }
}
