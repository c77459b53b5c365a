/**
 * The quorum arithmetic of cmd/policy.go and what it buys: agreement between n endorsers of
 * which at most f are faulty, over every run of the honest ones.
 */
module Quorum {
  import opened Prelude
  import opened Operations
  import opened Node
  import Staging
  import Endorsements
  import History

  // ---------------------------------------------------------------- choosing a quorum

  /** Go's division by two. */
  function Half(x: int): int
  {
    if x >= 0 then x / 2 else -((-x) / 2)
  }

  /** The smallest quorum `policy create` accepts for n endorsers and f faulty ones. */
  function QuorumBound(n: nat, f: int): int
  {
    1 + Half(n + f)
  }

  datatype Choice = Chosen(quorum: int) | InsufficientQuorum | InsufficientEndorsers

  /** The two checks on the quorum typed by the user. */
  function ChooseQuorum(n: nat, f: int, user: int): Choice
  {
    if user < QuorumBound(n, f) then InsufficientQuorum
    else if user > n then InsufficientEndorsers
    else Chosen(user)
  }

  /** The natural numbers from `a` up to but not including `b`. */
  function Interval(a: nat, b: nat): (s: set<nat>)
    ensures forall i :: i in s <==> a <= i < b
    ensures |s| == if a <= b then b - a else 0
  {
    if a >= b then {} else Interval(a, b - 1) + {b - 1}
  }

  /** Any two sets of q among n endorsers share more than f of them. */
  ghost predicate QuorumsMeet(n: nat, f: int, q: int)
  {
    forall a, b :: a <= Interval(0, n) && b <= Interval(0, n) && |a| >= q && |b| >= q ==> |a * b| > f
  }

  /** Two disjoint-as-possible quorums. */
  lemma ExtremeQuorums(n: nat, f: nat, q: nat)
    requires q <= n && 2 * q <= n + f
    ensures !QuorumsMeet(n, f, q)
  {
    var a, b := Interval(0, q), Interval(n - q, n);
    assert a * b == Interval(n - q, q);
    assert |a * b| <= f;
  }

  /**
   * The accepted quorums are exactly those that guarantee an honest endorser in common: for
   * every n and f, a quorum of at most n meets every other one in more than f endorsers if
   * and only if `policy create` accepts it.
   */
  lemma AcceptedIffQuorumsMeet(n: nat, f: nat, q: nat)
    requires q <= n
    ensures ChooseQuorum(n, f, q).Chosen? <==> QuorumsMeet(n, f, q)
  {
    if q >= QuorumBound(n, f) {
      forall a, b | a <= Interval(0, n) && b <= Interval(0, n) && |a| >= q && |b| >= q
        ensures |a * b| > f
      {
        IntersectionSize(a, b, Interval(0, n));
      }
    } else {
      ExtremeQuorums(n, f, q);
    }
  }

  // ---------------------------------------------------------------- n nodes

  /** The honest nodes, by public key. */
  type System = map<Bytes, State>
  type Configs = map<Bytes, Config>

  datatype SystemLabel = At(node: Bytes, action: Label)

  function Start(cfgs: Configs, clock: Bytes -> int): System
  {
    map k | k in cfgs :: Initial(clock(k))
  }

  ghost function SystemStep(cfgs: Configs, sys: System, l: SystemLabel): System
  {
    if l.node in cfgs && l.node in sys
    then sys[l.node := Step(cfgs[l.node], sys[l.node], l.action)]
    else sys
  }

  ghost function SystemRun(cfgs: Configs, sys: System, ls: seq<SystemLabel>): System
    decreases |ls|
  {
    if ls == [] then sys else SystemStep(cfgs, SystemRun(cfgs, sys, ls[..|ls| - 1]), ls[|ls| - 1])
  }

  /** The node has signed and broadcast an endorsement of `s`. */
  ghost predicate HasSigned(st: State, s: Spore)
  {
    exists i :: 0 <= i < |st.events| && st.events[i].Promoted? && st.events[i].signed && st.events[i].spore == s
  }

  /** Signatures are unforgeable: what verifies under an honest key was signed by its owner. */
  ghost predicate AuthenticIn(cfgs: Configs, sys: System, node: Bytes, ma: map<string, nat>, e: Endorsement)
    requires node in cfgs && node in sys
  {
    VetIn(cfgs[node], sys[node], ma, e) == Accepted ==>
      var k := Endorsements.KeyOf(cfgs[node], e);
      k.Some? && k.value in cfgs && k.value in sys ==>
        HasSigned(sys[k.value], sys[node].triggers[ma[e.uuid]].spore)
  }

  ghost predicate Authentic(cfgs: Configs, sys: System, l: SystemLabel)
  {
    l.node in cfgs && l.node in sys && l.action.FirstRegion? ==>
      && AuthenticIn(cfgs, sys, l.node, sys[l.node].staging, l.action.endorsement)
      && AuthenticIn(cfgs, sys, l.node, sys[l.node].waiting, l.action.endorsement)
  }

  ghost predicate ValidRun(cfgs: Configs, catalog: string -> Spore, sys: System, ls: seq<SystemLabel>)
  {
    forall i :: 0 <= i < |ls| ==>
      && Authentic(cfgs, SystemRun(cfgs, sys, ls[..i]), ls[i])
      && (ls[i].action.Receive? ==> ls[i].action.spore == catalog(ls[i].action.spore.uuid))
  }

  /** Each node knows itself under its own key. */
  ghost predicate Consistent(cfgs: Configs)
  {
    forall k :: k in cfgs ==> cfgs[k].ring.publicOf("") == Some(k)
  }

  // ---------------------------------------------------------------- invariants of the system

  ghost predicate NodeFine(cfg: Config, catalog: string -> Spore, st: State)
  {
    && Staging.Invariant(st) && Staging.Listed(cfg, catalog, st)
    && Endorsements.Sound(cfg, st) && History.Chronicle(cfg, catalog, st)
  }

  /** Honest endorsements of a trigger were really given. */
  ghost predicate GenuineTrigger(cfgs: Configs, sys: System, cfg: Config, t: Trigger)
  {
    forall i :: 0 <= i < |t.endorsements| ==>
      var k := Endorsements.KeyOf(cfg, t.endorsements[i]);
      k.Some? && k.value in cfgs && k.value in sys ==> HasSigned(sys[k.value], t.spore)
  }

  ghost predicate Genuine(cfgs: Configs, sys: System, node: Bytes)
    requires node in cfgs && node in sys
  {
    forall r :: 0 <= r < |sys[node].triggers| ==> GenuineTrigger(cfgs, sys, cfgs[node], sys[node].triggers[r])
  }

  ghost predicate AllNodesFine(cfgs: Configs, catalog: string -> Spore, sys: System)
  {
    forall k :: k in cfgs ==> k in sys && NodeFine(cfgs[k], catalog, sys[k])
  }

  ghost predicate AllGenuine(cfgs: Configs, sys: System)
  {
    forall k :: k in cfgs ==> k in sys && Genuine(cfgs, sys, k)
  }

  ghost predicate SystemFine(cfgs: Configs, catalog: string -> Spore, sys: System)
  {
    sys.Keys == cfgs.Keys && AllNodesFine(cfgs, catalog, sys) && AllGenuine(cfgs, sys)
  }

  lemma NodeStepFine(cfg: Config, catalog: string -> Spore, st: State, l: Label)
    requires NodeFine(cfg, catalog, st) && Endorsements.HasLocalKey(cfg)
    requires l.Receive? ==> l.spore == catalog(l.spore.uuid)
    ensures NodeFine(cfg, catalog, Step(cfg, st, l))
  {
    Staging.StepKeeps(cfg, st, l);
    Staging.StepListed(cfg, catalog, st, l);
    Endorsements.StepKeeps(cfg, st, l);
    History.StepKeeps(cfg, catalog, st, l);
  }

  lemma SignedForEver(cfg: Config, st: State, l: Label, s: Spore)
    requires HasSigned(st, s)
    ensures HasSigned(Step(cfg, st, l), s)
  {
    History.StepGrows(cfg, st, l);
    var st' := Step(cfg, st, l);
    var i :| 0 <= i < |st.events| && st.events[i].Promoted? && st.events[i].signed && st.events[i].spore == s;
    assert st'.events[i] == st.events[i];
  }

  lemma GenuineLasts(cfgs: Configs, sys: System, l: SystemLabel, cfg: Config, t: Trigger)
    requires GenuineTrigger(cfgs, sys, cfg, t)
    ensures GenuineTrigger(cfgs, SystemStep(cfgs, sys, l), cfg, t)
  {
    var sys' := SystemStep(cfgs, sys, l);
    forall i | 0 <= i < |t.endorsements|
      ensures var k := Endorsements.KeyOf(cfg, t.endorsements[i]);
              k.Some? && k.value in cfgs && k.value in sys' ==> HasSigned(sys'[k.value], t.spore)
    {
      var k := Endorsements.KeyOf(cfg, t.endorsements[i]);
      if k.Some? && k.value in cfgs && k.value in sys && k.value == l.node {
        SignedForEver(cfgs[k.value], sys[k.value], l.action, t.spore);
      }
    }
  }

  /** What a step of a node may do to its triggers: append one of its own, or add one endorsement. */
  ghost predicate TriggersGrow(cfg: Config, st: State, st': State)
  {
    && |st.triggers| <= |st'.triggers|
    && (forall r :: 0 <= r < |st.triggers| ==> st'.triggers[r] == st.triggers[r])
    && (forall r :: |st.triggers| <= r < |st'.triggers| ==> OwnTrigger(cfg, st', st'.triggers[r]))
  }

  /** A new trigger carries at most the node's own endorsement, which is in its history. */
  ghost predicate OwnTrigger(cfg: Config, st: State, t: Trigger)
  {
    t.endorsements == [] ||
    (t.endorsements == OwnEndorsements(cfg, t.spore) && HasSigned(st, t.spore))
  }

  lemma OwnTriggerLasts(cfg: Config, st: State, st': State, t: Trigger)
    requires OwnTrigger(cfg, st, t) && st.events <= st'.events
    ensures OwnTrigger(cfg, st', t)
  {
    if HasSigned(st, t.spore) {
      var i :| 0 <= i < |st.events| && st.events[i].Promoted? && st.events[i].signed && st.events[i].spore == t.spore;
      assert st'.events[i] == st.events[i];
    }
  }

  lemma PromoteTriggers(cfg: Config, st: State, s: Spore, bypass: bool)
    ensures TriggersGrow(cfg, st, Promote(cfg, st, s, bypass))
  {
    var st' := Promote(cfg, st, s, bypass);
    var path := PathOf(cfg, s);
    if path.ToStaging? {
      assert st'.triggers == st.triggers + [Trigger(s, OwnEndorsements(cfg, s), bypass)];
      assert st'.events[|st.events|] == Promoted(s, bypass, Signs(cfg, s), true);
      assert Signs(cfg, s) ==> HasSigned(st', s);
    } else if path.AtOnce? {
      Staging.ApplyIsNeutral(cfg, Log(st, Promoted(s, bypass, Signs(cfg, s), false)), s, bypass);
    }
  }

  lemma ReconsiderTriggers(cfg: Config, st: State, k: string, missingFirst: set<string>)
    ensures TriggersGrow(cfg, st, Reconsider(cfg, st, k, missingFirst))
    ensures st.events <= Reconsider(cfg, st, k, missingFirst).events
  {
    var st' := Reconsider(cfg, st, k, missingFirst);
    if k in st.waiting && st.waiting[k] < |st.triggers| {
      var s := st.triggers[st.waiting[k]].spore;
      var bypass := Bypasses(st, s, k in missingFirst);
      PromoteTriggers(cfg, st, s, bypass);
      SameHistory(cfg, st, Promote(cfg, st, s, bypass), st');
    }
  }

  lemma SameHistory(cfg: Config, st: State, mid: State, st': State)
    requires TriggersGrow(cfg, st, mid)
    ensures st'.triggers == mid.triggers && st'.events == mid.events ==> TriggersGrow(cfg, st, st')
  {
    if st'.triggers == mid.triggers && st'.events == mid.events {
      forall r | |st.triggers| <= r < |st'.triggers| ensures OwnTrigger(cfg, st', st'.triggers[r]) {
        OwnTriggerLasts(cfg, mid, st', mid.triggers[r]);
      }
    }
  }

  lemma {:induction false} ReconsiderAllTriggers(cfg: Config, st: State, order: seq<string>, missingFirst: set<string>)
    ensures TriggersGrow(cfg, st, ReconsiderAll(cfg, st, order, missingFirst))
    decreases |order|
  {
    if order != [] {
      var mid := Reconsider(cfg, st, order[0], missingFirst);
      var st' := ReconsiderAll(cfg, st, order, missingFirst);
      ReconsiderTriggers(cfg, st, order[0], missingFirst);
      ReconsiderAllTriggers(cfg, mid, order[1..], missingFirst);
      History.ReconsiderAllGrows(cfg, mid, order[1..], missingFirst);
      GrowTwice(cfg, st, mid, st');
    }
  }

  lemma GrowTwice(cfg: Config, st: State, mid: State, st': State)
    requires TriggersGrow(cfg, st, mid) && TriggersGrow(cfg, mid, st') && mid.events <= st'.events
    ensures TriggersGrow(cfg, st, st')
  {
    forall r | |st.triggers| <= r < |st'.triggers| ensures OwnTrigger(cfg, st', st'.triggers[r]) {
      if r < |mid.triggers| {
        OwnTriggerLasts(cfg, mid, st', mid.triggers[r]);
      }
    }
  }

  /** Every step but the registration of an endorsement only appends triggers of the node's own. */
  lemma StepTriggers(cfg: Config, st: State, l: Label)
    requires !l.FirstRegion?
    ensures TriggersGrow(cfg, st, Step(cfg, st, l))
  {
    match l {
      case Receive(s, missingFirst) =>
        PromoteTriggers(cfg, st, s, Bypasses(st, s, missingFirst));
      case Timer(uuid, order, missingFirsts) =>
        ReconsiderAllTriggers(cfg, Unstage(st, uuid, Expired(uuid)), order, missingFirsts);
      case Spawned(ref) =>
        if ref in st.pending && ref < |st.triggers| {
          var t := st.triggers[ref];
          Staging.ApplyIsNeutral(cfg, st.(pending := st.pending - multiset{ref}), t.spore, t.bypass);
        }
      case SecondRegion(ref) =>
        assert Commit(cfg, st, ref).triggers == st.triggers;
      case _ =>
    }
  }

  lemma OwnTriggerIsGenuine(cfgs: Configs, sys: System, node: Bytes, t: Trigger)
    requires Consistent(cfgs) && node in cfgs && node in sys
    requires OwnTrigger(cfgs[node], sys[node], t)
    ensures GenuineTrigger(cfgs, sys, cfgs[node], t)
  {
    if t.endorsements != [] {
      assert Endorsements.KeyOf(cfgs[node], t.endorsements[0]) == Some(node);
    }
  }

  lemma GenuineAfterStep(cfgs: Configs, sys: System, l: SystemLabel, node: Bytes)
    requires Consistent(cfgs) && sys.Keys == cfgs.Keys && node in cfgs && Genuine(cfgs, sys, node)
    requires l.node == node && !l.action.FirstRegion?
    ensures Genuine(cfgs, SystemStep(cfgs, sys, l), node)
  {
    var sys' := SystemStep(cfgs, sys, l);
    var cfg := cfgs[node];
    StepTriggers(cfg, sys[node], l.action);
    forall r | 0 <= r < |sys'[node].triggers|
      ensures GenuineTrigger(cfgs, sys', cfg, sys'[node].triggers[r])
    {
      if r < |sys[node].triggers| {
        GenuineLasts(cfgs, sys, l, cfg, sys[node].triggers[r]);
      } else {
        OwnTriggerIsGenuine(cfgs, sys', node, sys'[node].triggers[r]);
      }
    }
  }

  lemma GenuineElsewhere(cfgs: Configs, sys: System, l: SystemLabel, node: Bytes)
    requires sys.Keys == cfgs.Keys && node in cfgs && Genuine(cfgs, sys, node) && l.node != node
    ensures Genuine(cfgs, SystemStep(cfgs, sys, l), node)
  {
    var sys' := SystemStep(cfgs, sys, l);
    forall r | 0 <= r < |sys'[node].triggers|
      ensures GenuineTrigger(cfgs, sys', cfgs[node], sys'[node].triggers[r])
    {
      GenuineLasts(cfgs, sys, l, cfgs[node], sys[node].triggers[r]);
    }
  }

  lemma GenuineAdd(cfgs: Configs, sys: System, cfg: Config, t: Trigger, e: Endorsement)
    requires GenuineTrigger(cfgs, sys, cfg, t)
    requires var k := Endorsements.KeyOf(cfg, e);
             k.Some? && k.value in cfgs && k.value in sys ==> HasSigned(sys[k.value], t.spore)
    ensures GenuineTrigger(cfgs, sys, cfg, t.(endorsements := t.endorsements + [e]))
  {
  }

  /** Where registration puts an accepted endorsement. */
  function Target(cfg: Config, st: State, e: Endorsement): Option<nat>
  {
    if VetIn(cfg, st, st.staging, e) == Accepted then Some(st.staging[e.uuid])
    else if VetIn(cfg, st, st.staging, e) == NoRelatedSpore && VetIn(cfg, st, st.waiting, e) == Accepted
    then Some(st.waiting[e.uuid])
    else None
  }

  lemma RegisterTarget(cfg: Config, st: State, e: Endorsement)
    ensures var t := Target(cfg, st, e);
            && (t.Some? ==> t.value < |st.triggers|)
            && Register(cfg, st, e).triggers ==
               (if t.None? then st.triggers
                else
                  var was := st.triggers[t.value];
                  st.triggers[t.value := was.(endorsements := was.endorsements + [e])])
  {
  }

  lemma GenuineAfterRegister(cfgs: Configs, sys: System, l: SystemLabel, node: Bytes)
    requires sys.Keys == cfgs.Keys && node in cfgs && Genuine(cfgs, sys, node)
    requires l.node == node && l.action.FirstRegion? && Authentic(cfgs, sys, l)
    ensures Genuine(cfgs, SystemStep(cfgs, sys, l), node)
  {
    var sys' := SystemStep(cfgs, sys, l);
    var cfg, st, e := cfgs[node], sys[node], l.action.endorsement;
    RegisterTarget(cfg, st, e);
    forall r | 0 <= r < |sys'[node].triggers|
      ensures GenuineTrigger(cfgs, sys', cfg, sys'[node].triggers[r])
    {
      var t := st.triggers[r];
      if Target(cfg, st, e) == Some(r) {
        GenuineAdd(cfgs, sys, cfg, t, e);
        GenuineLasts(cfgs, sys, l, cfg, t.(endorsements := t.endorsements + [e]));
      } else {
        GenuineLasts(cfgs, sys, l, cfg, t);
      }
    }
  }

  lemma SystemStepFine(cfgs: Configs, catalog: string -> Spore, sys: System, l: SystemLabel)
    requires Consistent(cfgs) && SystemFine(cfgs, catalog, sys) && Authentic(cfgs, sys, l)
    requires l.action.Receive? ==> l.action.spore == catalog(l.action.spore.uuid)
    ensures SystemFine(cfgs, catalog, SystemStep(cfgs, sys, l))
  {
    NodesStayFine(cfgs, catalog, sys, l);
    AllStayGenuine(cfgs, sys, l);
  }

  lemma NodesStayFine(cfgs: Configs, catalog: string -> Spore, sys: System, l: SystemLabel)
    requires Consistent(cfgs) && sys.Keys == cfgs.Keys && AllNodesFine(cfgs, catalog, sys)
    requires l.action.Receive? ==> l.action.spore == catalog(l.action.spore.uuid)
    ensures AllNodesFine(cfgs, catalog, SystemStep(cfgs, sys, l))
  {
    forall k | k in cfgs
      ensures k in SystemStep(cfgs, sys, l) && NodeFine(cfgs[k], catalog, SystemStep(cfgs, sys, l)[k])
    {
      NodeFineAfter(cfgs, catalog, sys, l, k);
    }
  }

  lemma AllStayGenuine(cfgs: Configs, sys: System, l: SystemLabel)
    requires Consistent(cfgs) && sys.Keys == cfgs.Keys && AllGenuine(cfgs, sys) && Authentic(cfgs, sys, l)
    ensures AllGenuine(cfgs, SystemStep(cfgs, sys, l))
  {
    forall k | k in cfgs ensures k in SystemStep(cfgs, sys, l) && Genuine(cfgs, SystemStep(cfgs, sys, l), k) {
      GenuineAfter(cfgs, sys, l, k);
    }
  }

  lemma NodeFineAfter(cfgs: Configs, catalog: string -> Spore, sys: System, l: SystemLabel, k: Bytes)
    requires Consistent(cfgs) && sys.Keys == cfgs.Keys && k in cfgs && NodeFine(cfgs[k], catalog, sys[k])
    requires l.action.Receive? ==> l.action.spore == catalog(l.action.spore.uuid)
    ensures NodeFine(cfgs[k], catalog, SystemStep(cfgs, sys, l)[k])
  {
    if k == l.node {
      NodeStepFine(cfgs[k], catalog, sys[k], l.action);
    }
  }

  lemma GenuineAfter(cfgs: Configs, sys: System, l: SystemLabel, k: Bytes)
    requires Consistent(cfgs) && sys.Keys == cfgs.Keys && k in cfgs && Genuine(cfgs, sys, k)
    requires Authentic(cfgs, sys, l)
    ensures Genuine(cfgs, SystemStep(cfgs, sys, l), k)
  {
    if k != l.node {
      GenuineElsewhere(cfgs, sys, l, k);
    } else if l.action.FirstRegion? {
      GenuineAfterRegister(cfgs, sys, l, k);
    } else {
      GenuineAfterStep(cfgs, sys, l, k);
    }
  }

  lemma ValidPrefix(cfgs: Configs, catalog: string -> Spore, sys: System, ls: seq<SystemLabel>)
    requires ValidRun(cfgs, catalog, sys, ls) && ls != []
    ensures ValidRun(cfgs, catalog, sys, ls[..|ls| - 1])
  {
    var before := ls[..|ls| - 1];
    forall i | 0 <= i < |before|
      ensures Authentic(cfgs, SystemRun(cfgs, sys, before[..i]), before[i])
    {
      assert before[..i] == ls[..i] && before[i] == ls[i];
    }
  }

  lemma StartIsFine(cfgs: Configs, catalog: string -> Spore, clock: Bytes -> int)
    ensures SystemFine(cfgs, catalog, Start(cfgs, clock))
  {
  }

  lemma {:induction false} EveryRunIsFine(cfgs: Configs, catalog: string -> Spore, clock: Bytes -> int,
                                          ls: seq<SystemLabel>)
    requires Consistent(cfgs) && ValidRun(cfgs, catalog, Start(cfgs, clock), ls)
    ensures SystemFine(cfgs, catalog, SystemRun(cfgs, Start(cfgs, clock), ls))
    decreases |ls|
  {
    if ls == [] {
      StartIsFine(cfgs, catalog, clock);
    } else {
      var before, last := ls[..|ls| - 1], ls[|ls| - 1];
      ValidPrefix(cfgs, catalog, Start(cfgs, clock), ls);
      EveryRunIsFine(cfgs, catalog, clock, before);
      assert Authentic(cfgs, SystemRun(cfgs, Start(cfgs, clock), before), last);
      SystemStepFine(cfgs, catalog, SystemRun(cfgs, Start(cfgs, clock), before), last);
    }
  }

  // ---------------------------------------------------------------- two conflicting quorums

  function Listed(p: Policy): set<Bytes>
  {
    set k | k in p.endorsers
  }

  /** The keys behind the endorsements of a trigger. */
  ghost function Backers(cfg: Config, t: Trigger): set<Bytes>
  {
    set i | 0 <= i < |t.endorsements| && Endorsements.KeyOf(cfg, t.endorsements[i]).Some? ::
      Endorsements.KeyOf(cfg, t.endorsements[i]).value
  }

  lemma BackersSize(cfg: Config, t: Trigger)
    requires Endorsements.TriggerSound(cfg, t) && Endorsements.Injective(cfg) && cfg.identity != ""
    requires !Endorsements.LocalTwice(cfg, t.endorsements)
    ensures |Backers(cfg, t)| >= |t.endorsements|
  {
    Endorsements.DistinctEndorsersIff(cfg, t);
    var ks := Endorsements.KeySet(cfg, t.endorsements);
    var image := set b | b in Backers(cfg, t) :: Some(b);
    forall k | k in ks ensures k in image {
      var seqK := Endorsements.KeySeq(cfg, t.endorsements);
      var i :| 0 <= i < |seqK| && seqK[i] == k;
      assert Endorsements.Credible(cfg, t.spore, t.endorsements[i]);
      assert k.value in Backers(cfg, t);
    }
    SubsetSize(ks, image);
    ImageSize(Backers(cfg, t));
  }

  lemma {:induction false} ImageSize(bs: set<Bytes>)
    ensures |set b | b in bs :: Some(b)| <= |bs|
    decreases |bs|
  {
    var image := set b | b in bs :: Some(b);
    if bs == {} {
      assert image == {};
    } else {
      var x :| x in bs;
      ImageSize(bs - {x});
      assert image == (set b | b in bs - {x} :: Some(b)) + {Some(x)};
    }
  }

  lemma BackersAreListed(cfg: Config, t: Trigger)
    requires Endorsements.TriggerSound(cfg, t) && t.spore.policy in cfg.policies
    ensures Backers(cfg, t) <= Listed(cfg.policies[t.spore.policy])
  {
    forall b | b in Backers(cfg, t) ensures b in cfg.policies[t.spore.policy].endorsers {
      var i :| 0 <= i < |t.endorsements| && Endorsements.KeyOf(cfg, t.endorsements[i]) == Some(b);
      assert Endorsements.Credible(cfg, t.spore, t.endorsements[i]);
    }
  }

  /** Two quorums have an honest backer in common. */
  lemma HonestBacker(a: set<Bytes>, b: set<Bytes>, honest: set<Bytes>, p: Policy, f: nat) returns (h: Bytes)
    requires a <= Listed(p) && b <= Listed(p)
    requires |a| >= p.quorum && |b| >= p.quorum && p.quorum >= QuorumBound(|p.endorsers|, f)
    requires |Listed(p) - honest| <= f
    ensures h in a && h in b && h in honest
  {
    AtMostAsMany(p.endorsers);
    IntersectionSize(a, b, Listed(p));
    if a * b <= Listed(p) - honest {
      SubsetSize(a * b, Listed(p) - honest);
      assert false;
    }
    h :| h in a * b && h !in Listed(p) - honest;
  }

  /** An honest node that signed two conflicting spores dropped the first before signing the second. */
  ghost predicate DroppedBetween(es: seq<Event>, s: Spore, t: Spore)
  {
    exists i: nat, j: nat ::
      && i < j < |es| && es[i].Promoted? && es[j].Promoted? && es[i].signed && es[j].signed
      && es[i].spore == s && es[j].spore == t
      && (es[j].bypass || History.LeavesBetween(es, s.uuid, i, j))
  }

  lemma BothSigned(cfg: Config, catalog: string -> Spore, st: State, s: Spore, t: Spore)
    requires History.Chronicle(cfg, catalog, st) && HasSigned(st, s) && HasSigned(st, t)
    requires s.uuid != t.uuid && SporesConflict(s, t)
    requires s.policy in cfg.policies && cfg.policies[s.policy].quorum >= 2
    ensures DroppedBetween(st.events, s, t) || DroppedBetween(st.events, t, s)
  {
    var es := st.events;
    var i :| 0 <= i < |es| && es[i].Promoted? && es[i].signed && es[i].spore == s;
    var j :| 0 <= j < |es| && es[j].Promoted? && es[j].signed && es[j].spore == t;
    assert History.ProperAt(cfg, catalog, es[i]) && History.ProperAt(cfg, catalog, es[j]);
    ConflictSymmetric(s, t);
    assert History.OrderedAt(es, i, j) && History.OrderedAt(es, j, i);
  }

  /** The trigger of `s`, wherever it is kept, has collected a quorum and counts no endorser twice. */
  ghost predicate Gathered(cfg: Config, st: State, ref: nat, s: Spore)
  {
    && ref < |st.triggers| && st.triggers[ref].spore == s && QuorumReached(cfg, st.triggers[ref])
    && !Endorsements.LocalTwice(cfg, st.triggers[ref].endorsements)
  }

  /** Whatever was sent to Apply has gathered a quorum, unless the local key was counted twice. */
  lemma SentHasGathered(cfg: Config, now: int, ls: seq<Label>, ref: nat)
    requires Endorsements.HasLocalKey(cfg)
    requires ref in RunLabels(cfg, Initial(now), ls).sent && ref < |RunLabels(cfg, Initial(now), ls).triggers|
    ensures var st := RunLabels(cfg, Initial(now), ls);
            Gathered(cfg, st, ref, st.triggers[ref].spore) <==>
              !Endorsements.LocalTwice(cfg, st.triggers[ref].endorsements)
  {
    Endorsements.EverySentSporeIsEndorsed(cfg, now, ls);
  }

  lemma GatheredBackers(cfg: Config, catalog: string -> Spore, st: State, ref: nat, s: Spore, p: Policy)
    requires NodeFine(cfg, catalog, st) && Gathered(cfg, st, ref, s)
    requires Endorsements.Injective(cfg) && cfg.identity != ""
    requires s.policy in cfg.policies && cfg.policies[s.policy] == p
    ensures var b := Backers(cfg, st.triggers[ref]); b <= Listed(p) && |b| >= p.quorum
  {
    var t := st.triggers[ref];
    assert Endorsements.TriggerSound(cfg, t);
    BackersSize(cfg, t);
    BackersAreListed(cfg, t);
  }

  /**
   * A policy in force at every honest node, with quorum at least 1 + (n + f) / 2 and at least 2
   * and at most f faulty endorsers; different identities have different keys at each node.
   */
  ghost predicate Deployed(cfgs: Configs, name: string, p: Policy, f: nat, faulty: set<Bytes>)
  {
    && p.quorum >= QuorumBound(|p.endorsers|, f) && p.quorum >= 2
    && |faulty| <= f
    && (forall i :: 0 <= i < |p.endorsers| ==> p.endorsers[i] in cfgs || p.endorsers[i] in faulty)
    && Consistent(cfgs)
    && forall k :: k in cfgs ==> InForce(cfgs[k], name, p)
  }

  ghost predicate InForce(cfg: Config, name: string, p: Policy)
  {
    && Endorsements.Injective(cfg) && cfg.identity != ""
    && name in cfg.policies && cfg.policies[name] == p
  }

  /** At node `m` spore `s` has gathered a quorum. */
  ghost predicate GatheredAt(cfgs: Configs, sys: System, m: Bytes, ref: nat, s: Spore)
  {
    m in cfgs && m in sys && Gathered(cfgs[m], sys[m], ref, s)
  }

  /** Two conflicting spores have both gathered a quorum, at whatever nodes. */
  ghost predicate Split(cfgs: Configs, sys: System, m: Bytes, ref: nat, s: Spore, m': Bytes, ref': nat, t: Spore)
  {
    && s.uuid != t.uuid && SporesConflict(s, t)
    && GatheredAt(cfgs, sys, m, ref, s) && GatheredAt(cfgs, sys, m', ref', t)
  }

  /** Some honest endorser signed both spores, the later one only once the earlier one was dropped. */
  ghost predicate SomeoneDropped(cfgs: Configs, sys: System, p: Policy, s: Spore, t: Spore)
  {
    exists h :: h in cfgs && h in sys && h in Listed(p) &&
                (DroppedBetween(sys[h].events, s, t) || DroppedBetween(sys[h].events, t, s))
  }

  /**
   * Quorum safety, over every run of the honest nodes.  If two conflicting spores of a deployed
   * policy both gather a quorum, at whatever nodes, then some honest endorser signed both, and it
   * signed the later one either after the earlier one had left its staging list, by deadline or
   * by quorum, or by way of a requirement mismatch.
   */
  lemma QuorumSafety(cfgs: Configs, catalog: string -> Spore, clock: Bytes -> int, ls: seq<SystemLabel>,
                     m: Bytes, ref: nat, s: Spore, m': Bytes, ref': nat, t: Spore,
                     p: Policy, f: nat, faulty: set<Bytes>)
    requires Deployed(cfgs, s.policy, p, f, faulty) && ValidRun(cfgs, catalog, Start(cfgs, clock), ls)
    ensures var sys := SystemRun(cfgs, Start(cfgs, clock), ls);
            Split(cfgs, sys, m, ref, s, m', ref', t) ==> SomeoneDropped(cfgs, sys, p, s, t)
  {
    var sys := SystemRun(cfgs, Start(cfgs, clock), ls);
    EveryRunIsFine(cfgs, catalog, clock, ls);
    if Split(cfgs, sys, m, ref, s, m', ref', t) {
      BothGathered(cfgs, catalog, sys, m, ref, s, m', ref', t, p, f, faulty);
    }
  }

  lemma BothGathered(cfgs: Configs, catalog: string -> Spore, sys: System,
                    m: Bytes, ref: nat, s: Spore, m': Bytes, ref': nat, t: Spore, p: Policy, f: nat, faulty: set<Bytes>)
    requires Deployed(cfgs, s.policy, p, f, faulty) && SystemFine(cfgs, catalog, sys)
    requires Split(cfgs, sys, m, ref, s, m', ref', t)
    ensures SomeoneDropped(cfgs, sys, p, s, t)
  {
    assert InForce(cfgs[m], s.policy, p) && InForce(cfgs[m'], s.policy, p);
    GatheredBackers(cfgs[m], catalog, sys[m], ref, s, p);
    GatheredBackers(cfgs[m'], catalog, sys[m'], ref', t, p);
    var a, b := Backers(cfgs[m], sys[m].triggers[ref]), Backers(cfgs[m'], sys[m'].triggers[ref']);
    SubsetSize(Listed(p) - cfgs.Keys, faulty);
    var h := HonestBacker(a, b, cfgs.Keys, p, f);
    assert InForce(cfgs[h], s.policy, p);
    BackerSigned(cfgs, sys, m, ref, h);
    BackerSigned(cfgs, sys, m', ref', h);
    BothSigned(cfgs[h], catalog, sys[h], s, t);
  }

  lemma BackerSigned(cfgs: Configs, sys: System, m: Bytes, ref: nat, h: Bytes)
    requires m in cfgs && m in sys && h in cfgs && h in sys && Genuine(cfgs, sys, m)
    requires ref < |sys[m].triggers| && h in Backers(cfgs[m], sys[m].triggers[ref])
    ensures HasSigned(sys[h], sys[m].triggers[ref].spore)
  {
    var t := sys[m].triggers[ref];
    assert GenuineTrigger(cfgs, sys, cfgs[m], t);
    var i :| 0 <= i < |t.endorsements| && Endorsements.KeyOf(cfgs[m], t.endorsements[i]) == Some(h);
  }

  /** The node has dropped neither spore, nor let one of the two through by a mismatch. */
  ghost predicate BothStillHeld(st: State, s: Spore, t: Spore)
  {
    forall k :: 0 <= k < |st.events| ==>
      && !History.Leaves(st.events[k], s.uuid) && !History.Leaves(st.events[k], t.uuid)
      && !(st.events[k].Promoted? && st.events[k].bypass && st.events[k].spore in {s, t})
  }

  lemma HeldIsNotDropped(st: State, s: Spore, t: Spore)
    requires BothStillHeld(st, s, t)
    ensures !DroppedBetween(st.events, s, t) && !DroppedBetween(st.events, t, s)
  {
  }

  /**
   * So two conflicting spores never both gather a quorum while both stay staged at every honest
   * endorser.
   */
  lemma NeverBothWhileStaged(cfgs: Configs, catalog: string -> Spore, clock: Bytes -> int, ls: seq<SystemLabel>,
                             m: Bytes, ref: nat, s: Spore, m': Bytes, ref': nat, t: Spore,
                             p: Policy, f: nat, faulty: set<Bytes>)
    requires Deployed(cfgs, s.policy, p, f, faulty) && ValidRun(cfgs, catalog, Start(cfgs, clock), ls)
    ensures var sys := SystemRun(cfgs, Start(cfgs, clock), ls);
            AllStillHold(cfgs, sys, p, s, t) ==> !Split(cfgs, sys, m, ref, s, m', ref', t)
  {
    var sys := SystemRun(cfgs, Start(cfgs, clock), ls);
    QuorumSafety(cfgs, catalog, clock, ls, m, ref, s, m', ref', t, p, f, faulty);
    if AllStillHold(cfgs, sys, p, s, t) {
      HeldByAll(cfgs, sys, p, s, t);
    }
  }

  ghost predicate AllStillHold(cfgs: Configs, sys: System, p: Policy, s: Spore, t: Spore)
  {
    forall h :: h in cfgs && h in sys && h in Listed(p) ==> BothStillHeld(sys[h], s, t)
  }

  lemma HeldByAll(cfgs: Configs, sys: System, p: Policy, s: Spore, t: Spore)
    requires AllStillHold(cfgs, sys, p, s, t)
    ensures !SomeoneDropped(cfgs, sys, p, s, t)
  {
    forall h | h in cfgs && h in sys && h in Listed(p)
      ensures !DroppedBetween(sys[h].events, s, t) && !DroppedBetween(sys[h].events, t, s)
    {
      HeldIsNotDropped(sys[h], s, t);
    }
  }
}
