/**
 * The consensus engine of one node: db/endorsement.go, db/db.go, db/policy.go and the
 * deadline checks of db/spore.go, as functions from one state to the next.
 *
 * A Go pointer to a dbTrigger is an index into `triggers`, which only ever grows.  The fields
 * below `now` record history and do not influence any step.
 */
module Node {
  import opened Prelude
  import opened Values
  import opened Operations
  import opened Execution

  // ---------------------------------------------------------------- policies and keys

  /** A key specification: its compiled expression, left open, and the operations it allows. */
  datatype Spec = Spec(matches: string -> bool, allowed: seq<Op>)

  datatype Policy = Policy(
    endorsers: seq<Bytes>,
    quorum: nat,
    maxOpSize: nat,
    maxSize: nat,
    specs: seq<Spec>,
    grace: Option<int>)

  /** The key ring: known public keys, signature checks (trust included), signing when unlocked. */
  datatype Ring = Ring(
    publicOf: string -> Option<Bytes>,
    verify: (string, Spore, Bytes) -> bool,
    sign: Spore -> Option<Bytes>)

  datatype Config = Config(
    identity: string,
    policies: map<string, Policy>,
    ring: Ring,
    arith: Arithmetic,
    toUint: Number -> nat,
    ofUint: nat -> Number,
    hash: Bytes -> Version,
    nilVersion: Version)

  const INTERNAL_PREFIX: string := "__internal"

  predicate Internal(k: string)
  {
    INTERNAL_PREFIX <= k
  }

  function UsageKey(policy: string): string
  {
    INTERNAL_PREFIX + "/size" + "/" + policy
  }

  /** The identity under which the ring knows the emitter of a message. */
  function Local(cfg: Config, emitter: string): string
  {
    if emitter == cfg.identity then "" else emitter
  }

  /** Policy.pubToEndorser finds the key. */
  predicate Endorser(p: Policy, pub: Bytes)
  {
    pub in p.endorsers
  }

  /** The local node is an endorser of the policy. */
  predicate LocalEndorser(cfg: Config, p: Policy)
  {
    var pub := cfg.ring.publicOf("");
    Endorser(p, if pub.Some? then pub.value else [])
  }

  // ---------------------------------------------------------------- state

  datatype Endorsement = Endorsement(uuid: string, emitter: string, signature: Bytes)

  /** `bypass` records that the spore was promoted by way of a requirement mismatch. */
  datatype Trigger = Trigger(spore: Spore, endorsements: seq<Endorsement>, bypass: bool)

  datatype Event =
    | Promoted(spore: Spore, bypass: bool, signed: bool, staged: bool)
    | Expired(uuid: string)
    | Quorate(uuid: string)

  datatype Application = Application(spore: Spore, bypass: bool)

  datatype State = State(
    store: Store,
    triggers: seq<Trigger>,
    staging: map<string, nat>,
    waiting: map<string, nat>,
    applied: map<string, int>,
    calls: multiset<nat>,
    pending: multiset<nat>,
    now: int,
    events: seq<Event>,
    writes: seq<Application>,
    sent: set<nat>)

  function Initial(now: int): State
  {
    State(map[], [], map[], map[], map[], multiset{}, multiset{}, now, [], [], {})
  }

  // ---------------------------------------------------------------- CanEndorse

  datatype Verdict =
    | Ok | DeadlineExpired | KeyNotFound | ExecFailed(error: ExecError)
    | UnknownPolicy | OpSystemKey | OpTooLarge | OpNotAllowed | OpDisabledKey
    | QuotaExceeded | ConflictingWithStaging | BadSignature | Crashed

  predicate CheckDeadline(s: Spore, now: int)
  {
    s.deadline.None? || s.deadline.value >= now
  }

  datatype Requirement = Met | Missing | Mismatch

  predicate AnyMissing(store: Store, s: Spore)
  {
    exists k :: k in s.requirements && k !in store
  }

  predicate AnyMismatch(store: Store, s: Spore)
  {
    exists k :: k in s.requirements && k in store && store[k].version != s.requirements[k]
  }

  /**
   * The requirement loop stops at the first requirement that is not met.  The order is that
   * of a Go map; it matters only when a key is unknown and another one has a different
   * version, and `missingFirst` then says which one comes first.
   */
  function CheckRequirements(store: Store, s: Spore, missingFirst: bool): Requirement
  {
    if AnyMissing(store, s) && (missingFirst || !AnyMismatch(store, s)) then Missing
    else if AnyMismatch(store, s) then Mismatch
    else Met
  }

  predicate Allows(spec: Spec, op: Op)
  {
    spec.allowed == [] || op in spec.allowed
  }

  predicate SpecMatches(p: Policy, i: nat, k: string)
    requires i < |p.specs|
  {
    p.specs[i].matches(k)
  }

  /** Refusals that come neither from the deadline nor from staging. */
  predicate Final(v: Verdict)
  {
    !v.Ok? && !v.DeadlineExpired? && !v.ConflictingWithStaging?
  }

  /** DB.Check. */
  ghost function Check(cfg: Config, policy: string, o: Operation, raw: Bytes): (v: Verdict)
    ensures v.Ok? || Final(v)
  {
    if policy !in cfg.policies then UnknownPolicy else
      var p := cfg.policies[policy];
      if Internal(o.key) then OpSystemKey
      else if p.maxOpSize > 0 && |raw| > p.maxOpSize then OpTooLarge
      else if exists i: nat :: i < |p.specs| && SpecMatches(p, i, o.key) && !Allows(p.specs[i], o.op) then OpNotAllowed
      else if !exists i: nat :: i < |p.specs| && SpecMatches(p, i, o.key) then OpDisabledKey
      else Ok
  }

  datatype Checked = Passed(values: ValueMap) | Refused(verdict: Verdict)

  /** The dry run of CanEndorse: each operation is executed, then checked. */
  ghost function DryRun(cfg: Config, store: Store, policy: string, ops: seq<Operation>, values: ValueMap): (c: Checked)
    ensures c.Refused? ==> Final(c.verdict)
    decreases |ops|
  {
    if ops == [] then Passed(values) else
      var o := ops[0];
      match Exec(cfg.arith, o.op, o.data, Current(store, values, o.key))
      case Failed(e) => Refused(ExecFailed(e))
      case Done(v) =>
        var c := Check(cfg, policy, o, v.raw);
        if c != Ok then Refused(c) else DryRun(cfg, store, policy, ops[1..], values[o.key := v])
  }

  function StoredLength(store: Store): string -> int
  {
    k => |Load(store, k)|
  }

  function ValueLength(values: ValueMap): string -> int
  {
    k => if k in values then |values[k].raw| else 0
  }

  /** Bytes held by the store under the given keys. */
  ghost function StoredSize(store: Store, keys: set<string>): int
  {
    Sum(keys, StoredLength(store))
  }

  ghost function ValuesSize(values: ValueMap): int
  {
    Sum(values.Keys, ValueLength(values))
  }

  /** DB.getCurrentPolicyUsage; a usage that is not a number crashes the node. */
  function RecordedUsage(cfg: Config, store: Store, policy: string): Option<nat>
  {
    match FloatOf(cfg.arith, Load(store, UsageKey(policy)))
    case Some(x) => Some(cfg.toUint(x))
    case None => None
  }

  /** usage - oldSize + newSize in unsigned 64-bit arithmetic. */
  function Wrapped(usage: nat, oldSize: int, newSize: int): nat
  {
    (usage - oldSize + newSize) % TWO64
  }

  /** checkCurrentPolicyUsage. */
  ghost function CheckUsage(cfg: Config, store: Store, policy: string, values: ValueMap): (v: Verdict)
    ensures v.Ok? || Final(v)
  {
    match RecordedUsage(cfg, store, policy)
    case None => Crashed
    case Some(usage) =>
      if policy !in cfg.policies then Crashed else
        var quota := cfg.policies[policy].maxSize;
        if quota > 0 && Wrapped(usage, StoredSize(store, values.Keys), ValuesSize(values)) > quota
        then QuotaExceeded else Ok
  }

  ghost predicate ConflictsWithStaging(st: State, s: Spore)
  {
    exists u :: u in st.staging && st.staging[u] < |st.triggers| &&
                SporesConflict(s, st.triggers[st.staging[u]].spore)
  }

  ghost function CanEndorse(cfg: Config, st: State, s: Spore, missingFirst: bool): Verdict
  {
    if !CheckDeadline(s, st.now) then DeadlineExpired else
      match CheckRequirements(st.store, s, missingFirst)
      case Missing => KeyNotFound
      case Mismatch => Ok // the error returned is that of the successful Get, which is nil
      case Met =>
        match DryRun(cfg, st.store, s.policy, s.operations, map[])
        case Refused(v) => v
        case Passed(values) =>
          var usage := CheckUsage(cfg, st.store, s.policy, values);
          if usage != Ok then usage
          else if ConflictsWithStaging(st, s) then ConflictingWithStaging
          else Ok
  }

  /** The spore is let through without any of the checks that follow the requirements. */
  predicate Bypasses(st: State, s: Spore, missingFirst: bool)
  {
    CheckRequirements(st.store, s, missingFirst) == Mismatch
  }

  // ---------------------------------------------------------------- Apply

  datatype ApplyError = Applied | GracePeriodExpired | DuplicatedApplication | ApplyFailed(error: ExecError)
                      | ApplyCrashed

  /** The moment until which a spore may be applied; zero stands for no limit. */
  function Death(p: Policy, s: Spore): int
  {
    if s.deadline.None? then 0
    else s.deadline.value + if p.grace.None? then 0 else p.grace.value
  }

  /** checkGracePeriod. */
  predicate WithinGrace(p: Policy, s: Spore, now: int)
  {
    s.deadline.None? || Death(p, s) >= now
  }

  ghost function ApplyVerdict(cfg: Config, st: State, s: Spore): ApplyError
  {
    if s.policy !in cfg.policies then ApplyCrashed
    else if !WithinGrace(cfg.policies[s.policy], s, st.now) then GracePeriodExpired
    else if s.uuid in st.applied then DuplicatedApplication
    else
      match RunOps(cfg.arith, st.store, s.operations, map[])
      case Aborted(e) => ApplyFailed(e)
      case Finished(_) =>
        if RecordedUsage(cfg, st.store, s.policy).None? then ApplyCrashed else Applied
  }

  /** The entry updatePolicyUsage prepares; it carries no version. */
  ghost function UsageEntry(cfg: Config, store: Store, policy: string, values: ValueMap): Entry
    requires RecordedUsage(cfg, store, policy).Some?
  {
    var usage := RecordedUsage(cfg, store, policy).value;
    var u := Wrapped(usage, StoredSize(store, values.Keys), ValuesSize(values));
    Entry(cfg.arith.render(cfg.ofUint(u)), cfg.nilVersion)
  }

  /** The batch written by Apply: the usage first, so that a value under the same key wins. */
  ghost function Batch(cfg: Config, store: Store, policy: string, values: ValueMap): Store
    requires RecordedUsage(cfg, store, policy).Some?
  {
    map[UsageKey(policy) := UsageEntry(cfg, store, policy, values)] + Written(cfg.hash, values)
  }

  ghost function Apply(cfg: Config, st: State, s: Spore, bypass: bool): (st': State)
    ensures st'.triggers == st.triggers && st'.staging == st.staging && st'.waiting == st.waiting
    ensures st'.calls == st.calls && st'.pending == st.pending && st'.sent == st.sent
    ensures st'.now == st.now && st'.events == st.events && st.writes <= st'.writes
  {
    if ApplyVerdict(cfg, st, s) != Applied then st else
      var values := RunOps(cfg.arith, st.store, s.operations, map[]).values;
      st.(store := st.store + Batch(cfg, st.store, s.policy, values),
          applied := st.applied[s.uuid := Death(cfg.policies[s.policy], s)],
          writes := st.writes + [Application(s, bypass)])
  }

  // ---------------------------------------------------------------- Endorse

  function Stage(st: State, s: Spore, es: seq<Endorsement>, bypass: bool): State
  {
    st.(triggers := st.triggers + [Trigger(s, es, bypass)],
        staging := st.staging[s.uuid := |st.triggers|])
  }

  function Log(st: State, e: Event): State
  {
    st.(events := st.events + [e])
  }

  /** Where executeEndorsement takes a spore; an unknown policy is a nil pointer and panics. */
  datatype Path = Panics | Nowhere | AtOnce | ToStaging

  function PathOf(cfg: Config, s: Spore): Path
  {
    if s.policy !in cfg.policies then Panics else
      var p := cfg.policies[s.policy];
      if p.quorum == 0 then AtOnce
      else if !LocalEndorser(cfg, p) then ToStaging
      else if cfg.ring.sign(s).None? then Nowhere
      else if p.quorum == 1 then AtOnce
      else ToStaging
  }

  /** The node signs and broadcasts an endorsement of its own. */
  predicate Signs(cfg: Config, s: Spore)
  {
    && s.policy in cfg.policies
    && cfg.policies[s.policy].quorum > 0
    && LocalEndorser(cfg, cfg.policies[s.policy])
    && cfg.ring.sign(s).Some?
  }

  function OwnEndorsements(cfg: Config, s: Spore): seq<Endorsement>
  {
    if Signs(cfg, s) then [Endorsement(s.uuid, cfg.identity, cfg.ring.sign(s).value)] else []
  }

  /** executeEndorsement. */
  ghost function Promote(cfg: Config, st: State, s: Spore, bypass: bool): (st': State)
    ensures st'.waiting == st.waiting && st'.calls == st.calls && st'.pending == st.pending && st'.sent == st.sent
    ensures st'.now == st.now && st.triggers <= st'.triggers && st.writes <= st'.writes && st.events <= st'.events
    ensures !PathOf(cfg, s).ToStaging? ==> st'.triggers == st.triggers && st'.staging == st.staging
  {
    match PathOf(cfg, s)
    case Panics => st
    case Nowhere => st
    case AtOnce => Apply(cfg, Log(st, Promoted(s, bypass, Signs(cfg, s), false)), s, bypass)
    case ToStaging => Stage(Log(st, Promoted(s, bypass, Signs(cfg, s), true)), s, OwnEndorsements(cfg, s), bypass)
  }

  /** executeEndorsement panics, by itself or in Apply. */
  ghost predicate PromoteCrashes(cfg: Config, st: State, s: Spore)
  {
    PathOf(cfg, s).Panics? || (PathOf(cfg, s).AtOnce? && ApplyVerdict(cfg, st, s).ApplyCrashed?)
  }

  /** VerifySporeSignature. */
  predicate Signed(cfg: Config, s: Spore)
  {
    cfg.ring.verify(Local(cfg, s.emitter), s.(signature := []), s.signature)
  }

  function Postpone(st: State, s: Spore): State
  {
    st.(triggers := st.triggers + [Trigger(s, [], false)],
        waiting := st.waiting[s.uuid := |st.triggers|])
  }

  /** DB.Endorse, as one step. */
  ghost function Endorse(cfg: Config, st: State, s: Spore, missingFirst: bool): State
  {
    if !Signed(cfg, s) then st else
      match CanEndorse(cfg, st, s, missingFirst)
      case ConflictingWithStaging => Postpone(st, s)
      case Ok => Promote(cfg, st, s, Bypasses(st, s, missingFirst))
      case _ => st
  }

  /** What Endorse returns: no error for a spore that is promoted or put on the waiting list. */
  ghost function EndorseError(cfg: Config, st: State, s: Spore, missingFirst: bool): Verdict
  {
    if !Signed(cfg, s) then BadSignature else
      match CanEndorse(cfg, st, s, missingFirst)
      case ConflictingWithStaging => Ok
      case Ok => if PromoteCrashes(cfg, st, s) then Crashed else Ok
      case v => v
  }

  // ---------------------------------------------------------------- AddEndorsement

  datatype Vetting = Accepted | NoRelatedSpore | DuplicatedEndorsement | UnknownIdentity
                   | UnallowedEndorser | InvalidSignature

  predicate AlreadyBy(es: seq<Endorsement>, emitter: string)
  {
    exists i :: 0 <= i < |es| && es[i].emitter == emitter
  }

  /** The checks of addEndorsementMap on the trigger found. */
  function Vet(cfg: Config, t: Trigger, e: Endorsement): Vetting
  {
    var from := Local(cfg, e.emitter);
    if AlreadyBy(t.endorsements, e.emitter) then DuplicatedEndorsement
    else if cfg.ring.publicOf(from).None? then UnknownIdentity
    else if t.spore.policy !in cfg.policies ||
            !Endorser(cfg.policies[t.spore.policy], cfg.ring.publicOf(from).value) then UnallowedEndorser
    else if !cfg.ring.verify(from, t.spore, e.signature) then InvalidSignature
    else Accepted
  }

  function VetIn(cfg: Config, st: State, ma: map<string, nat>, e: Endorsement): Vetting
  {
    if e.uuid !in ma || ma[e.uuid] >= |st.triggers| then NoRelatedSpore
    else Vet(cfg, st.triggers[ma[e.uuid]], e)
  }

  /** What AddEndorsement returns: the waiting list counts only if there is no staged spore. */
  function VetAnywhere(cfg: Config, st: State, e: Endorsement): Vetting
  {
    var v := VetIn(cfg, st, st.staging, e);
    if v == NoRelatedSpore then VetIn(cfg, st, st.waiting, e) else v
  }

  /** The staged trigger that the endorsement joins. */
  function Joined(cfg: Config, st: State, e: Endorsement): Option<nat>
  {
    if VetIn(cfg, st, st.staging, e) == Accepted then Some(st.staging[e.uuid]) else None
  }

  function AddTo(st: State, ref: nat, e: Endorsement): State
    requires ref < |st.triggers|
  {
    var t := st.triggers[ref];
    st.(triggers := st.triggers[ref := t.(endorsements := t.endorsements + [e])])
  }

  /** The first lock region of AddEndorsement; `calls` remembers the trigger it returned. */
  function Register(cfg: Config, st: State, e: Endorsement): (st': State)
    ensures st'.store == st.store && st'.staging == st.staging && st'.waiting == st.waiting
    ensures st'.applied == st.applied && st'.writes == st.writes && st'.now == st.now
    ensures st'.events == st.events && st'.pending == st.pending && st'.sent == st.sent
    ensures |st'.triggers| == |st.triggers|
  {
    match VetIn(cfg, st, st.staging, e)
    case Accepted =>
      var ref := st.staging[e.uuid];
      AddTo(st, ref, e).(calls := st.calls + multiset{ref})
    case NoRelatedSpore =>
      if VetIn(cfg, st, st.waiting, e) == Accepted then AddTo(st, st.waiting[e.uuid], e) else st
    case _ => st
  }

  function Unstage(st: State, uuid: string, e: Event): State
  {
    st.(staging := st.staging - {uuid},
        events := if uuid in st.staging then st.events + [e] else st.events)
  }

  /** Enough endorsements have been collected in the trigger. */
  predicate QuorumReached(cfg: Config, t: Trigger)
  {
    t.spore.policy in cfg.policies && cfg.policies[t.spore.policy].quorum <= |t.endorsements|
  }

  /** The call ends by starting a goroutine for its trigger. */
  function Dispatch(st: State, ref: nat): State
  {
    st.(calls := st.calls - multiset{ref}, pending := st.pending + multiset{ref}, sent := st.sent + {ref})
  }

  /** The second lock region, run by the call that holds trigger `ref`. */
  function Commit(cfg: Config, st: State, ref: nat): (st': State)
    ensures st'.store == st.store && st'.triggers == st.triggers && st'.waiting == st.waiting
    ensures st'.applied == st.applied && st'.writes == st.writes && st'.now == st.now
  {
    if ref !in st.calls || ref >= |st.triggers| then st else
      var uuid := st.triggers[ref].spore.uuid;
      if QuorumReached(cfg, st.triggers[ref]) then Dispatch(Unstage(st, uuid, Quorate(uuid)), ref)
      else st.(calls := st.calls - multiset{ref})
  }

  /** The goroutine spawned by Commit. */
  ghost function RunPending(cfg: Config, st: State, ref: nat): State
  {
    if ref !in st.pending || ref >= |st.triggers| then st else
      var t := st.triggers[ref];
      Apply(cfg, st.(pending := st.pending - multiset{ref}), t.spore, t.bypass)
  }

  // ---------------------------------------------------------------- garbage collection

  /** One iteration of the promotion loop. */
  ghost function Reconsider(cfg: Config, st: State, k: string, missingFirst: set<string>): (st': State)
    ensures st.triggers <= st'.triggers && st.writes <= st'.writes && st.events <= st'.events
    ensures st'.waiting == st.waiting || st'.waiting == st.waiting - {k}
  {
    if k !in st.waiting || st.waiting[k] >= |st.triggers| then st else
      var s := st.triggers[st.waiting[k]].spore;
      match CanEndorse(cfg, st, s, k in missingFirst)
      case Ok =>
        var st' := Promote(cfg, st, s, Bypasses(st, s, k in missingFirst));
        st'.(waiting := if PromoteCrashes(cfg, st, s) then st'.waiting else st'.waiting - {k})
      case DeadlineExpired => st.(waiting := st.waiting - {k})
      case _ => st
  }

  ghost function ReconsiderAll(cfg: Config, st: State, order: seq<string>, missingFirst: set<string>): State
    decreases |order|
  {
    if order == [] then st
    else ReconsiderAll(cfg, Reconsider(cfg, st, order[0], missingFirst), order[1..], missingFirst)
  }

  /** A message on the gc channel; `order` is the order in which Go visits the waiting map. */
  ghost function Collect(cfg: Config, st: State, uuid: string, order: seq<string>, missingFirst: set<string>): State
  {
    ReconsiderAll(cfg, Unstage(st, uuid, Expired(uuid)), order, missingFirst)
  }

  // ---------------------------------------------------------------- Clean

  /** The comparison as written, and the one the comment on `applied` describes. */
  datatype Sweep = AsWritten | GraceOver

  predicate Sweeps(sweep: Sweep, death: int, now: int)
  {
    match sweep
    case AsWritten => death > 0 && death > now
    case GraceOver => death > 0 && death < now
  }

  function Clean(st: State, sweep: Sweep): State
  {
    st.(applied := map u | u in st.applied && !Sweeps(sweep, st.applied[u], st.now) :: st.applied[u])
  }

  // ---------------------------------------------------------------- runs

  datatype Label =
    | Tick(to: int)
    | Receive(spore: Spore, missingFirst: bool)
    | FirstRegion(endorsement: Endorsement)
    | SecondRegion(ref: nat)
    | Spawned(ref: nat)
    | Timer(uuid: string, order: seq<string>, missingFirsts: set<string>)
    | Sweeping(sweep: Sweep)

  ghost function Step(cfg: Config, st: State, l: Label): State
  {
    match l
    case Tick(to) => st.(now := if to > st.now then to else st.now)
    case Receive(s, missingFirst) => Endorse(cfg, st, s, missingFirst)
    case FirstRegion(e) => Register(cfg, st, e)
    case SecondRegion(ref) => Commit(cfg, st, ref)
    case Spawned(ref) => RunPending(cfg, st, ref)
    case Timer(uuid, order, missingFirsts) => Collect(cfg, st, uuid, order, missingFirsts)
    case Sweeping(sweep) => Clean(st, sweep)
  }

  ghost function RunLabels(cfg: Config, st: State, ls: seq<Label>): State
    decreases |ls|
  {
    if ls == [] then st else Step(cfg, RunLabels(cfg, st, ls[..|ls| - 1]), ls[|ls| - 1])
  }

  /** Runs of two and three steps, spelled out. */
  lemma RunTwo(cfg: Config, st: State, l1: Label, l2: Label)
    ensures RunLabels(cfg, st, [l1, l2]) == Step(cfg, Step(cfg, st, l1), l2)
  {
    assert [l1, l2][..1] == [l1] && [l1][..0] == [];
    assert RunLabels(cfg, st, [l1]) == Step(cfg, RunLabels(cfg, st, []), l1);
  }

  lemma RunThree(cfg: Config, st: State, l1: Label, l2: Label, l3: Label)
    ensures RunLabels(cfg, st, [l1, l2, l3]) == Step(cfg, Step(cfg, Step(cfg, st, l1), l2), l3)
  {
    RunTwo(cfg, st, l1, l2);
    assert [l1, l2, l3][..2] == [l1, l2];
  }
}
