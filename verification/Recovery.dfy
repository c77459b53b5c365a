/**
 * myc/recovery.go: restoring a key from the answers of other nodes.
 */
module Recovery {
  import opened Prelude
  import opened Operations
  import opened Execution
  import Node

  /** protocol.Raw: an answer to a recovery request. */
  datatype Raw = Raw(key: string, version: Version, data: Bytes, signature: Bytes)

  datatype Process = Process(deadline: int, answers: map<string, Raw>, quorum: int)

  /** The hash of version.New and the key ring's check of a signed answer, trust included. */
  datatype Env = Env(hash: Bytes -> Version, verify: (string, Raw) -> bool)

  /** A value that was stored, with the answers that decided it and the last of them. */
  datatype Decision = Decision(key: string, entry: Entry, answers: map<string, Raw>, quorum: int, arrived: Raw)

  /** `decisions` is history. */
  datatype Book = Book(store: Store, recoveries: map<string, Process>, decisions: seq<Decision>)

  // ---------------------------------------------------------------- counting answers

  /** The identities that currently report version `v`. */
  function Reporters(answers: map<string, Raw>, v: Version): set<string>
  {
    set q | q in answers && answers[q].version == v
  }

  /** Enough identities agree with `q`. */
  predicate Wins(answers: map<string, Raw>, quorum: int, q: string)
  {
    q in answers && |Reporters(answers, answers[q].version)| >= quorum
  }

  ghost predicate AnyWinner(answers: map<string, Raw>, quorum: int)
  {
    exists q :: Wins(answers, quorum, q)
  }

  /** The answer picked by checkQuorum, whatever the order of its two map iterations. */
  ghost predicate PickedWell(answers: map<string, Raw>, quorum: int, pick: Option<string>)
  {
    if AnyWinner(answers, quorum) then pick.Some? && Wins(answers, quorum, pick.value) else pick.None?
  }

  /** The answers in `done` that report `v`. */
  ghost function Votes(answers: map<string, Raw>, done: set<string>, v: Version): int
  {
    |Reporters(answers, v) * done|
  }

  lemma OneMoreVote(answers: map<string, Raw>, done: set<string>, q: string, v: Version)
    requires q in answers && q !in done
    ensures Votes(answers, done + {q}, v) == Votes(answers, done, v) + if answers[q].version == v then 1 else 0
  {
    if answers[q].version == v {
      assert Reporters(answers, v) * (done + {q}) == Reporters(answers, v) * done + {q};
    } else {
      assert Reporters(answers, v) * (done + {q}) == Reporters(answers, v) * done;
    }
  }

  lemma NoVotes(answers: map<string, Raw>, done: set<string>, v: Version)
    requires forall q :: q in done && q in answers ==> answers[q].version != v
    ensures Votes(answers, done, v) == 0
  {
    assert Reporters(answers, v) * done == {};
  }

  ghost predicate Kept(answers: map<string, Raw>, raw: Raw, who: string, v: Version)
  {
    who in answers && raw == answers[who] && raw.version == v
  }

  /** `count` after the answers in `done`. */
  ghost predicate Counted(answers: map<string, Raw>, done: set<string>, count: map<Version, int>)
  {
    && (forall q :: q in done && q in answers ==> answers[q].version in count)
    && (forall v :: v in count ==> count[v] == Votes(answers, done, v))
  }

  /** Every version seen has an answer on file in `raws`; `who` names whose it is. */
  ghost predicate AllKept(answers: map<string, Raw>, seen: set<Version>, raws: map<Version, Raw>,
                          who: map<Version, string>)
  {
    forall v :: v in seen ==> v in raws && v in who && Kept(answers, raws[v], who[v], v)
  }

  function Increment(count: map<Version, int>, id: Version): map<Version, int>
  {
    count[id := (if id in count then count[id] else 0) + 1]
  }

  lemma CountOne(answers: map<string, Raw>, done: set<string>, count: map<Version, int>, q: string)
    requires Counted(answers, done, count) && q in answers && q !in done
    ensures Counted(answers, done + {q}, Increment(count, answers[q].version))
  {
    var id := answers[q].version;
    if id !in count {
      NoVotes(answers, done, id);
    }
    forall v | v in Increment(count, id) ensures Increment(count, id)[v] == Votes(answers, done + {q}, v) {
      OneMoreVote(answers, done, q, v);
    }
  }

  lemma KeepOne(answers: map<string, Raw>, count: map<Version, int>, raws: map<Version, Raw>,
                who: map<Version, string>, q: string)
    requires AllKept(answers, count.Keys, raws, who) && q in answers
    ensures var id := answers[q].version;
            AllKept(answers, Increment(count, id).Keys, raws[id := answers[q]], who[id := q])
  {
  }

  /** The maps built by visiting the answers in a given order. */
  function CountOf(answers: map<string, Raw>, order: seq<string>): map<Version, int>
    requires forall q :: q in order ==> q in answers
  {
    if order == [] then map[] else
      var n := |order| - 1;
      Increment(CountOf(answers, order[..n]), answers[order[n]].version)
  }

  function RawsOf(answers: map<string, Raw>, order: seq<string>): map<Version, Raw>
    requires forall q :: q in order ==> q in answers
  {
    if order == [] then map[] else
      var n := |order| - 1;
      RawsOf(answers, order[..n])[answers[order[n]].version := answers[order[n]]]
  }

  lemma {:induction false} CountOfIsRight(answers: map<string, Raw>, order: seq<string>)
    requires Distinct(order) && forall q :: q in order ==> q in answers
    ensures Counted(answers, Elements(order), CountOf(answers, order))
    decreases |order|
  {
    if order != [] {
      var q, front := order[|order| - 1], order[..|order| - 1];
      CountOfIsRight(answers, front);
      CountOne(answers, Elements(front), CountOf(answers, front), q);
      ElementsSnoc(front, q);
      assert order == front + [q];
    }
  }

  lemma {:induction false} RawsOfIsRight(answers: map<string, Raw>, order: seq<string>)
    returns (who: map<Version, string>)
    requires forall q :: q in order ==> q in answers
    ensures AllKept(answers, CountOf(answers, order).Keys, RawsOf(answers, order), who)
    decreases |order|
  {
    who := map[];
    if order != [] {
      var q, front := order[|order| - 1], order[..|order| - 1];
      var before := RawsOfIsRight(answers, front);
      KeepOne(answers, CountOf(answers, front), RawsOf(answers, front), before, q);
      who := before[answers[q].version := q];
    }
  }

  /** The counting loop of checkQuorum, whatever the order Go visits the answers in. */
  method Tally(answers: map<string, Raw>)
    returns (count: map<Version, int>, raws: map<Version, Raw>, ghost order: seq<string>)
    ensures Counted(answers, answers.Keys, count)
    ensures Distinct(order) && Elements(order) == answers.Keys
    ensures count == CountOf(answers, order) && raws == RawsOf(answers, order)
  {
    count, raws, order := map[], map[], [];
    var todo := answers.Keys;
    while todo != {}
      invariant todo <= answers.Keys
      invariant Distinct(order) && forall q :: q in order <==> q in answers.Keys - todo
      invariant count == CountOf(answers, order) && raws == RawsOf(answers, order)
    {
      var q :| q in todo;
      var id := answers[q].version;
      count := Increment(count, id);
      raws := raws[id := answers[q]];
      todo := todo - {q};
      assert q !in order && (order + [q])[..|order|] == order;
      order := order + [q];
    }
    assert Elements(order) == answers.Keys;
    CountOfIsRight(answers, order);
  }

  lemma FullTally(answers: map<string, Raw>, count: map<Version, int>, v: Version)
    requires Counted(answers, answers.Keys, count) && v in count
    ensures count[v] == |Reporters(answers, v)|
  {
    assert Reporters(answers, v) * answers.Keys == Reporters(answers, v);
  }

  method CheckQuorum(answers: map<string, Raw>, quorum: int) returns (result: Option<Raw>, ghost pick: Option<string>)
    ensures result.Some? <==> AnyWinner(answers, quorum)
    ensures result.Some? ==> exists q :: Wins(answers, quorum, q) && answers[q] == result.value
    ensures PickedWell(answers, quorum, pick)
    ensures result == if pick.Some? then Some(answers[pick.value]) else None
  {
    var count, raws, order := Tally(answers);
    ghost var who := RawsOfIsRight(answers, order);
    var id := Reached(count, quorum);
    if id.None? {
      forall v | v in count ensures |Reporters(answers, v)| < quorum {
        FullTally(answers, count, v);
      }
      NoneCounted(answers, quorum, count);
      return None, None;
    }
    Counting(answers, quorum, count, raws, who, id.value);
    return Some(raws[id.value]), Some(who[id.value]);
  }

  /** The second loop of checkQuorum, whatever the order Go visits the versions in. */
  method Reached(count: map<Version, int>, quorum: int) returns (id: Option<Version>)
    ensures id.Some? ==> id.value in count && count[id.value] >= quorum
    ensures id.None? ==> forall v :: v in count ==> count[v] < quorum
  {
    var ids := count.Keys;
    while ids != {}
      invariant ids <= count.Keys
      invariant forall v :: v in count && v !in ids ==> count[v] < quorum
    {
      var v :| v in ids;
      if count[v] >= quorum {
        return Some(v);
      }
      ids := ids - {v};
    }
    return None;
  }

  /** A version that reaches the quorum in `count` has a winner on file. */
  lemma Counting(answers: map<string, Raw>, quorum: int, count: map<Version, int>, raws: map<Version, Raw>,
                 who: map<Version, string>, id: Version)
    requires Counted(answers, answers.Keys, count) && AllKept(answers, count.Keys, raws, who) && id in count
    ensures id in raws && id in who
    ensures count[id] == |Reporters(answers, id)|
    ensures count[id] >= quorum ==> Wins(answers, quorum, who[id]) && answers[who[id]] == raws[id]
  {
    FullTally(answers, count, id);
    assert Kept(answers, raws[id], who[id], id);
  }

  lemma NoneCounted(answers: map<string, Raw>, quorum: int, count: map<Version, int>)
    requires Counted(answers, answers.Keys, count)
    requires forall v :: v in count ==> |Reporters(answers, v)| < quorum
    ensures !AnyWinner(answers, quorum)
  {
    forall q ensures !Wins(answers, quorum, q) {
      assert q in answers ==> answers[q].version in count;
    }
  }

  // ---------------------------------------------------------------- steps

  /** StartRecovery. */
  function Begin(st: Book, key: string, quorum: int, now: int): Book
  {
    if key in st.recoveries then st
    else st.(recoveries := st.recoveries[key := Process(now + 60, map[], quorum)])
  }

  /** StopRecovery. */
  function Stop(st: Book, key: string): Book
  {
    st.(recoveries := st.recoveries - {key})
  }

  /** The answer is for a running recovery, in time, well versioned and well signed. */
  predicate Admissible(env: Env, st: Book, peer: string, trusted: bool, raw: Raw, now: int)
  {
    && trusted && raw.key in st.recoveries
    && st.recoveries[raw.key].deadline >= now
    && (Node.Internal(raw.key) || env.hash(raw.data) == raw.version)
    && env.verify(peer, raw)
  }

  /** handleRaw; `pick` is what checkQuorum returns if it is called. */
  function Handle(env: Env, st: Book, peer: string, trusted: bool, raw: Raw, now: int, pick: Option<string>): Book
  {
    if !trusted || raw.key !in st.recoveries then st
    else if st.recoveries[raw.key].deadline < now then Stop(st, raw.key)
    else if !Admissible(env, st, peer, trusted, raw, now) then st
    else
      var r := st.recoveries[raw.key];
      var answers := r.answers[peer := raw];
      if |answers| >= r.quorum && pick.Some? && pick.value in answers then
        var chosen := answers[pick.value];
        var entry := Entry(chosen.data, chosen.version);
        Stop(st, raw.key).(store := st.store[chosen.key := entry],
                           decisions := st.decisions + [Decision(raw.key, entry, answers, r.quorum, raw)])
      else st.(recoveries := st.recoveries[raw.key := r.(answers := answers)])
  }

  /** The answers that checkQuorum is given. */
  function AnswersWith(st: Book, peer: string, raw: Raw): map<string, Raw>
  {
    if raw.key in st.recoveries then st.recoveries[raw.key].answers[peer := raw] else map[peer := raw]
  }

  ghost predicate GoodPick(env: Env, st: Book, peer: string, trusted: bool, raw: Raw, now: int, pick: Option<string>)
  {
    Admissible(env, st, peer, trusted, raw, now) ==>
      PickedWell(AnswersWith(st, peer, raw), st.recoveries[raw.key].quorum, pick)
  }

  datatype Label =
    | Starting(key: string, quorum: int, now: int)
    | Stopping(key: string)
    | Answer(peer: string, trusted: bool, raw: Raw, at: int, pick: Option<string>)

  function Step(env: Env, st: Book, l: Label): Book
  {
    match l
    case Starting(key, quorum, now) => Begin(st, key, quorum, now)
    case Stopping(key) => Stop(st, key)
    case Answer(peer, trusted, raw, now, pick) => Handle(env, st, peer, trusted, raw, now, pick)
  }

  ghost predicate Possible(env: Env, st: Book, l: Label)
  {
    l.Answer? ==> GoodPick(env, st, l.peer, l.trusted, l.raw, l.at, l.pick)
  }

  // ---------------------------------------------------------------- the node object

  class Mycelium {
    var recoveries: map<string, Process>
    var store: Store
    ghost var decisions: seq<Decision>

    ghost function Value(): Book
      reads this
    {
      Book(store, recoveries, decisions)
    }

    constructor ()
      ensures Value() == Book(map[], map[], [])
    {
      recoveries, store, decisions := map[], map[], [];
    }

    method StartRecovery(key: string, quorum: int, now: int)
      modifies this
      ensures Value() == Begin(old(Value()), key, quorum, now)
    {
      if key in recoveries {
        return;
      }
      recoveries := recoveries[key := Process(now + 60, map[], quorum)];
    }

    method StopRecovery(key: string)
      modifies this
      ensures Value() == Stop(old(Value()), key)
    {
      if key !in recoveries {
        assert recoveries - {key} == recoveries;
        return;
      }
      recoveries := recoveries - {key};
    }

    method HandleRaw(env: Env, peer: string, trusted: bool, raw: Raw, now: int) returns (ghost pick: Option<string>)
      modifies this
      ensures GoodPick(env, old(Value()), peer, trusted, raw, now, pick)
      ensures Value() == Handle(env, old(Value()), peer, trusted, raw, now, pick)
    {
      pick := None;
      if !trusted {
        return;
      }
      if raw.key !in recoveries {
        return;
      }
      var r := recoveries[raw.key];
      if r.deadline < now {
        StopRecovery(raw.key);
        return;
      }
      if !Node.Internal(raw.key) && env.hash(raw.data) != raw.version {
        return;
      }
      if !env.verify(peer, raw) {
        return;
      }
      var answers := r.answers[peer := raw];
      recoveries := recoveries[raw.key := r.(answers := answers)];
      if |answers| >= r.quorum {
        var result;
        result, pick := CheckQuorum(answers, r.quorum);
        if result.Some? {
          var entry := Entry(result.value.data, result.value.version);
          store := store[result.value.key := entry];
          decisions := decisions + [Decision(raw.key, entry, answers, r.quorum, raw)];
          StopRecovery(raw.key);
          assert recoveries == old(recoveries) - {raw.key};
        }
      } else {
        TooFew(answers, r.quorum);
      }
    }
  }

  lemma TooFew(answers: map<string, Raw>, quorum: int)
    requires |answers| < quorum
    ensures !AnyWinner(answers, quorum)
  {
    forall q ensures !Wins(answers, quorum, q) {
      if q in answers {
        SubsetSize(Reporters(answers, answers[q].version), answers.Keys);
      }
    }
  }

  // ---------------------------------------------------------------- what every sequence of answers keeps

  /** An answer on file was checked when it arrived. */
  predicate Filed(env: Env, key: string, peer: string, raw: Raw)
  {
    raw.key == key && (Node.Internal(key) || env.hash(raw.data) == raw.version) && env.verify(peer, raw)
  }

  ghost predicate AllFiled(env: Env, key: string, answers: map<string, Raw>)
  {
    forall q :: q in answers ==> Filed(env, key, q, answers[q])
  }

  /** Running recoveries hold only checked answers and have no winner yet. */
  ghost predicate Running(env: Env, st: Book)
  {
    forall k :: k in st.recoveries ==>
      && AllFiled(env, k, st.recoveries[k].answers)
      && !AnyWinner(st.recoveries[k].answers, st.recoveries[k].quorum)
  }

  /** A decision is backed by a quorum of checked answers, and is that of the last one. */
  ghost predicate Justified(env: Env, d: Decision)
  {
    && AllFiled(env, d.key, d.answers)
    && |Reporters(d.answers, d.entry.version)| >= d.quorum
    && d.entry.version == d.arrived.version
    && (exists q :: q in d.answers && d.entry == Entry(d.answers[q].data, d.answers[q].version))
    && (exists q :: q in d.answers && d.answers[q] == d.arrived)
  }

  ghost predicate AllJustified(env: Env, st: Book)
  {
    forall i :: 0 <= i < |st.decisions| ==> Justified(env, st.decisions[i])
  }

  /** If nothing won before, only the version that has just arrived can win. */
  lemma OnlyTheArrivedWins(answers: map<string, Raw>, quorum: int, peer: string, raw: Raw, q: string)
    requires !AnyWinner(answers, quorum) && Wins(answers[peer := raw], quorum, q)
    ensures answers[peer := raw][q].version == raw.version
  {
    var answers' := answers[peer := raw];
    var v := answers'[q].version;
    if v != raw.version {
      SubsetSize(Reporters(answers', v), Reporters(answers, v));
      assert q in answers && answers[q].version == v;
      assert Wins(answers, quorum, q);
      assert false;
    }
  }

  lemma HandleKeeps(env: Env, st: Book, peer: string, trusted: bool, raw: Raw, now: int, pick: Option<string>)
    requires Running(env, st) && AllJustified(env, st) && GoodPick(env, st, peer, trusted, raw, now, pick)
    ensures Running(env, Handle(env, st, peer, trusted, raw, now, pick))
    ensures AllJustified(env, Handle(env, st, peer, trusted, raw, now, pick))
  {
    if Admissible(env, st, peer, trusted, raw, now) {
      var r := st.recoveries[raw.key];
      var answers := r.answers[peer := raw];
      assert AllFiled(env, raw.key, r.answers);
      forall q | q in answers ensures Filed(env, raw.key, q, answers[q]) {
        assert q != peer ==> Filed(env, raw.key, q, r.answers[q]);
      }
      if AnyWinner(answers, r.quorum) {
        WinnerJustified(env, raw.key, r.answers, r.quorum, peer, raw, pick.value);
        SubsetSize(Reporters(answers, answers[pick.value].version), answers.Keys);
      }
    }
  }

  lemma WinnerJustified(env: Env, key: string, answers: map<string, Raw>, quorum: int, peer: string, raw: Raw,
                        q: string)
    requires !AnyWinner(answers, quorum) && Wins(answers[peer := raw], quorum, q)
    requires AllFiled(env, key, answers[peer := raw])
    ensures var answers' := answers[peer := raw];
            Justified(env, Decision(key, Entry(answers'[q].data, answers'[q].version), answers', quorum, raw))
  {
    OnlyTheArrivedWins(answers, quorum, peer, raw, q);
    var answers' := answers[peer := raw];
    assert peer in answers' && answers'[peer] == raw;
  }

  lemma StepKeeps(env: Env, st: Book, l: Label)
    requires Running(env, st) && AllJustified(env, st) && Possible(env, st, l)
    ensures Running(env, Step(env, st, l)) && AllJustified(env, Step(env, st, l))
  {
    if l.Answer? {
      HandleKeeps(env, st, l.peer, l.trusted, l.raw, l.at, l.pick);
    }
  }

  ghost function RunLabels(env: Env, st: Book, ls: seq<Label>): Book
    decreases |ls|
  {
    if ls == [] then st else Step(env, RunLabels(env, st, ls[..|ls| - 1]), ls[|ls| - 1])
  }

  ghost predicate PossibleRun(env: Env, st: Book, ls: seq<Label>)
  {
    forall i :: 0 <= i < |ls| ==> Possible(env, RunLabels(env, st, ls[..i]), ls[i])
  }

  /** In every sequence of answers handled one at a time, every decision is justified. */
  lemma {:induction false} EveryDecisionIsJustified(env: Env, store: Store, ls: seq<Label>)
    requires PossibleRun(env, Book(store, map[], []), ls)
    ensures Running(env, RunLabels(env, Book(store, map[], []), ls))
    ensures AllJustified(env, RunLabels(env, Book(store, map[], []), ls))
    decreases |ls|
  {
    if ls != [] {
      var before := ls[..|ls| - 1];
      PossiblePrefix(env, Book(store, map[], []), ls);
      EveryDecisionIsJustified(env, store, before);
      StepKeeps(env, RunLabels(env, Book(store, map[], []), before), ls[|ls| - 1]);
    }
  }

  lemma PossiblePrefix(env: Env, st: Book, ls: seq<Label>)
    requires PossibleRun(env, st, ls) && ls != []
    ensures PossibleRun(env, st, ls[..|ls| - 1])
    ensures Possible(env, RunLabels(env, st, ls[..|ls| - 1]), ls[|ls| - 1])
  {
    var before := ls[..|ls| - 1];
    forall i | 0 <= i < |before| ensures Possible(env, RunLabels(env, st, before[..i]), before[i]) {
      assert before[..i] == ls[..i] && before[i] == ls[i];
    }
  }

  // ---------------------------------------------------------------- what the store holds

  /** The store once the decided entries have been written, in order. */
  function Restored(store: Store, ds: seq<Decision>): Store
  {
    if ds == [] then store
    else Restored(store, ds[..|ds| - 1])[ds[|ds| - 1].key := ds[|ds| - 1].entry]
  }

  lemma StepRestores(env: Env, store: Store, st: Book, l: Label)
    requires Running(env, st) && st.store == Restored(store, st.decisions)
    ensures var st' := Step(env, st, l); st'.store == Restored(store, st'.decisions)
  {
    var st' := Step(env, st, l);
    if l.Answer? && st'.decisions != st.decisions {
      var key := l.raw.key;
      assert AllFiled(env, key, st.recoveries[key].answers);
      assert st'.decisions[..|st'.decisions| - 1] == st.decisions;
    }
  }

  /** An answer with this content arrived from a trusted peer. */
  ghost predicate Reported(ls: seq<Label>, peer: string, raw: Raw)
  {
    exists i :: 0 <= i < |ls| && ls[i].Answer? && ls[i].trusted && ls[i].peer == peer && ls[i].raw == raw
  }

  ghost predicate AllReported(ls: seq<Label>, answers: map<string, Raw>)
  {
    forall q :: q in answers ==> Reported(ls, q, answers[q])
  }

  /** A recovery of `key` was asked for with this quorum. */
  ghost predicate Started(ls: seq<Label>, key: string, quorum: int)
  {
    exists i :: 0 <= i < |ls| && ls[i].Starting? && ls[i].key == key && ls[i].quorum == quorum
  }

  /** Recoveries and decisions rest on what was asked for and on what arrived. */
  ghost predicate Traced(ls: seq<Label>, st: Book)
  {
    && (forall k :: k in st.recoveries ==>
          Started(ls, k, st.recoveries[k].quorum) && AllReported(ls, st.recoveries[k].answers))
    && (forall i :: 0 <= i < |st.decisions| ==>
          Started(ls, st.decisions[i].key, st.decisions[i].quorum) && AllReported(ls, st.decisions[i].answers))
  }

  lemma ReportedLater(ls: seq<Label>, l: Label, peer: string, raw: Raw)
    requires Reported(ls, peer, raw) || (l.Answer? && l.trusted && l.peer == peer && l.raw == raw)
    ensures Reported(ls + [l], peer, raw)
  {
    var all := ls + [l];
    if Reported(ls, peer, raw) {
      var i :| 0 <= i < |ls| && ls[i].Answer? && ls[i].trusted && ls[i].peer == peer && ls[i].raw == raw;
      assert all[i] == ls[i];
    } else {
      assert all[|ls|] == l;
    }
  }

  lemma StartedLater(ls: seq<Label>, l: Label, key: string, quorum: int)
    requires Started(ls, key, quorum) || (l.Starting? && l.key == key && l.quorum == quorum)
    ensures Started(ls + [l], key, quorum)
  {
    var all := ls + [l];
    if Started(ls, key, quorum) {
      var i :| 0 <= i < |ls| && ls[i].Starting? && ls[i].key == key && ls[i].quorum == quorum;
      assert all[i] == ls[i];
    } else {
      assert all[|ls|] == l;
    }
  }

  lemma AnswersLater(ls: seq<Label>, l: Label, answers: map<string, Raw>)
    requires AllReported(ls, answers)
    ensures AllReported(ls + [l], answers)
    ensures l.Answer? && l.trusted ==> AllReported(ls + [l], answers[l.peer := l.raw])
  {
    forall q | q in answers ensures Reported(ls + [l], q, answers[q]) {
      ReportedLater(ls, l, q, answers[q]);
    }
    if l.Answer? && l.trusted {
      ReportedLater(ls, l, l.peer, l.raw);
    }
  }

  lemma TracedLater(ls: seq<Label>, l: Label, st: Book)
    requires Traced(ls, st)
    ensures Traced(ls + [l], st)
  {
    forall k | k in st.recoveries
      ensures Started(ls + [l], k, st.recoveries[k].quorum) && AllReported(ls + [l], st.recoveries[k].answers)
    {
      StartedLater(ls, l, k, st.recoveries[k].quorum);
      AnswersLater(ls, l, st.recoveries[k].answers);
    }
    forall i | 0 <= i < |st.decisions|
      ensures Started(ls + [l], st.decisions[i].key, st.decisions[i].quorum)
      ensures AllReported(ls + [l], st.decisions[i].answers)
    {
      StartedLater(ls, l, st.decisions[i].key, st.decisions[i].quorum);
      AnswersLater(ls, l, st.decisions[i].answers);
    }
  }

  lemma StepTraced(env: Env, ls: seq<Label>, st: Book, l: Label)
    requires Traced(ls, st)
    ensures Traced(ls + [l], Step(env, st, l))
  {
    TracedLater(ls, l, st);
    match l {
      case Starting(key, quorum, now) => StartedLater(ls, l, key, quorum);
      case Stopping(_) =>
      case Answer(peer, trusted, raw, now, pick) =>
        if trusted && raw.key in st.recoveries {
          AnswersLater(ls, l, st.recoveries[raw.key].answers);
          HandleTraced(env, ls + [l], st, peer, raw, now, pick);
        }
    }
  }

  lemma HandleTraced(env: Env, ls: seq<Label>, st: Book, peer: string, raw: Raw, now: int, pick: Option<string>)
    requires Traced(ls, st) && raw.key in st.recoveries
    requires AllReported(ls, st.recoveries[raw.key].answers[peer := raw])
    ensures Traced(ls, Handle(env, st, peer, true, raw, now, pick))
  {
  }

  lemma {:induction false} EveryStoreIsRestored(env: Env, store: Store, ls: seq<Label>)
    requires PossibleRun(env, Book(store, map[], []), ls)
    ensures var st := RunLabels(env, Book(store, map[], []), ls); st.store == Restored(store, st.decisions)
    decreases |ls|
  {
    if ls != [] {
      var before := ls[..|ls| - 1];
      PossiblePrefix(env, Book(store, map[], []), ls);
      EveryStoreIsRestored(env, store, before);
      EveryDecisionIsJustified(env, store, before);
      StepRestores(env, store, RunLabels(env, Book(store, map[], []), before), ls[|ls| - 1]);
    }
  }

  lemma {:induction false} EveryRunIsTraced(env: Env, store: Store, ls: seq<Label>)
    ensures Traced(ls, RunLabels(env, Book(store, map[], []), ls))
    decreases |ls|
  {
    if ls != [] {
      var before, last := ls[..|ls| - 1], ls[|ls| - 1];
      EveryRunIsTraced(env, store, before);
      StepTraced(env, before, RunLabels(env, Book(store, map[], []), before), last);
      assert before + [last] == ls;
    }
  }

  /**
   * In every sequence of answers handled one at a time, the store is the initial one with the
   * decided entries written over it, and each decision is justified by answers that arrived.
   */
  lemma EveryStoreIsDecided(env: Env, store: Store, ls: seq<Label>)
    requires PossibleRun(env, Book(store, map[], []), ls)
    ensures var st := RunLabels(env, Book(store, map[], []), ls);
            st.store == Restored(store, st.decisions) && AllJustified(env, st) && Traced(ls, st)
  {
    EveryDecisionIsJustified(env, store, ls);
    EveryStoreIsRestored(env, store, ls);
    EveryRunIsTraced(env, store, ls);
  }

  /** A key that changed was decided, and holds the entry of its last decision. */
  lemma {:induction false} ChangedWasDecided(store: Store, ds: seq<Decision>, k: string) returns (i: int)
    ensures k in store ==> k in Restored(store, ds)
    ensures i < |ds|
    ensures if i < 0
            then (k in Restored(store, ds) <==> k in store) && (k in store ==> Restored(store, ds)[k] == store[k])
            else ds[i].key == k && k in Restored(store, ds) && Restored(store, ds)[k] == ds[i].entry
    decreases |ds|
  {
    if ds == [] {
      i := -1;
    } else if ds[|ds| - 1].key == k {
      var _ := ChangedWasDecided(store, ds[..|ds| - 1], k);
      i := |ds| - 1;
    } else {
      i := ChangedWasDecided(store, ds[..|ds| - 1], k);
    }
  }

  // ---------------------------------------------------------------- faulty answerers

  ghost predicate InjectiveHash(env: Env)
  {
    forall x, y :: env.hash(x) == env.hash(y) ==> x == y
  }

  /**
   * With fewer than quorum faulty answerers, a recovered non-internal key gets the data that
   * some honest identity reported, and that is the data of the last answer whatever answer
   * checkQuorum picked.
   */
  lemma RecoveredDataIsHonest(env: Env, d: Decision, faulty: set<string>)
    requires Justified(env, d) && InjectiveHash(env) && !Node.Internal(d.key)
    requires |faulty| < d.quorum
    ensures exists q :: q in d.answers && q !in faulty && env.verify(q, d.answers[q]) &&
                        d.answers[q].data == d.entry.data && d.answers[q].version == d.entry.version
    ensures d.entry.data == d.arrived.data
  {
    var voters := Reporters(d.answers, d.entry.version);
    if voters <= faulty {
      SubsetSize(voters, faulty);
      assert false;
    }
    var q :| q in voters && q !in faulty;
    var w :| w in d.answers && d.entry == Entry(d.answers[w].data, d.answers[w].version);
    var z :| z in d.answers && d.answers[z] == d.arrived;
    assert Filed(env, d.key, q, d.answers[q]) && Filed(env, d.key, w, d.answers[w]);
    assert Filed(env, d.key, z, d.answers[z]);
  }

  /** The entry is what an identity outside `faulty` answered during the run, under its signature. */
  ghost predicate HonestlyReported(env: Env, ls: seq<Label>, faulty: set<string>, k: string, e: Entry)
  {
    exists q, raw :: q !in faulty && Reported(ls, q, raw) && env.verify(q, raw) &&
                     raw.key == k && raw.data == e.data && raw.version == e.version
  }

  /**
   * Over every sequence of answers: if every recovery of a non-internal key asks for more
   * answers than there are faulty identities, then whatever the store holds under the key
   * afterwards was there before or was reported by an honest identity, and nothing is lost.
   */
  lemma EveryRecoveryIsHonest(env: Env, store: Store, ls: seq<Label>, faulty: set<string>, k: string)
    requires PossibleRun(env, Book(store, map[], []), ls) && InjectiveHash(env) && !Node.Internal(k)
    requires forall i :: 0 <= i < |ls| && ls[i].Starting? && ls[i].key == k ==> |faulty| < ls[i].quorum
    ensures var after := RunLabels(env, Book(store, map[], []), ls).store;
            && (k in store ==> k in after)
            && (k in after ==> (k in store && after[k] == store[k]) || HonestlyReported(env, ls, faulty, k, after[k]))
  {
    EveryStoreIsDecided(env, store, ls);
    var st := RunLabels(env, Book(store, map[], []), ls);
    var i := ChangedWasDecided(store, st.decisions, k);
    if i >= 0 {
      var d := st.decisions[i];
      assert Justified(env, d) && Started(ls, d.key, d.quorum) && AllReported(ls, d.answers);
      RecoveredDataIsHonest(env, d, faulty);
      var q :| q in d.answers && q !in faulty && env.verify(q, d.answers[q]) &&
               d.answers[q].data == d.entry.data && d.answers[q].version == d.entry.version;
      assert Filed(env, d.key, q, d.answers[q]) && Reported(ls, q, d.answers[q]);
    }
  }

  // ---------------------------------------------------------------- the timeout

  /** The recovery of `k` running after `ls` was started at position `m`, and has run since. */
  ghost predicate RunsSince(env: Env, base: Book, ls: seq<Label>, k: string, m: nat)
  {
    && m < |ls| && ls[m].Starting? && ls[m].key == k
    && k !in RunLabels(env, base, ls[..m]).recoveries
    && forall j :: m < j <= |ls| ==> k in RunLabels(env, base, ls[..j]).recoveries
  }

  /** A minute after it was started, and with the quorum it was started with. */
  ghost predicate OnTerms(l: Label, r: Process)
  {
    l.Starting? && r.deadline == l.now + 60 && r.quorum == l.quorum
  }

  /** Every running recovery stands on the terms it was started on. */
  ghost predicate AllOnTerms(env: Env, base: Book, ls: seq<Label>)
  {
    var st := RunLabels(env, base, ls);
    forall k :: k in st.recoveries ==> OneOnTerms(env, base, ls, k, st.recoveries[k])
  }

  ghost predicate OneOnTerms(env: Env, base: Book, ls: seq<Label>, k: string, r: Process)
  {
    exists m: nat :: RunsSince(env, base, ls, k, m) && OnTerms(ls[m], r)
  }

  lemma RunOneMore(env: Env, base: Book, ls: seq<Label>, l: Label)
    ensures RunLabels(env, base, ls + [l]) == Step(env, RunLabels(env, base, ls), l)
    ensures forall j :: 0 <= j <= |ls| ==> (ls + [l])[..j] == ls[..j]
  {
    assert (ls + [l])[..|ls|] == ls;
  }

  lemma RunsOn(env: Env, base: Book, ls: seq<Label>, l: Label, k: string, m: nat)
    requires RunsSince(env, base, ls, k, m) && k in RunLabels(env, base, ls + [l]).recoveries
    ensures RunsSince(env, base, ls + [l], k, m)
  {
    var all := ls + [l];
    RunOneMore(env, base, ls, l);
    forall j | m < j <= |all| ensures k in RunLabels(env, base, all[..j]).recoveries {
      if j == |all| {
        assert all[..j] == all;
      }
    }
  }

  lemma StartsNow(env: Env, base: Book, ls: seq<Label>, l: Label)
    requires l.Starting? && l.key !in RunLabels(env, base, ls).recoveries
    ensures RunsSince(env, base, ls + [l], l.key, |ls|)
  {
    var all := ls + [l];
    RunOneMore(env, base, ls, l);
    assert all[..|ls|] == ls;
    forall j | |ls| < j <= |all| ensures l.key in RunLabels(env, base, all[..j]).recoveries {
      assert all[..j] == all;
    }
  }

  /** A step keeps the terms of every recovery that goes on running. */
  lemma StepTerms(env: Env, st: Book, l: Label, k: string)
    requires k in Step(env, st, l).recoveries
    ensures var r' := Step(env, st, l).recoveries[k];
            if k in st.recoveries then r'.deadline == st.recoveries[k].deadline && r'.quorum == st.recoveries[k].quorum
            else l.Starting? && l.key == k && OnTerms(l, r')
  {
  }

  lemma TermsLater(env: Env, base: Book, ls: seq<Label>, l: Label, k: string, r: Process, r': Process)
    requires OneOnTerms(env, base, ls, k, r) && k in RunLabels(env, base, ls + [l]).recoveries
    requires r'.deadline == r.deadline && r'.quorum == r.quorum
    ensures OneOnTerms(env, base, ls + [l], k, r')
  {
    var m: nat :| RunsSince(env, base, ls, k, m) && OnTerms(ls[m], r);
    RunsOn(env, base, ls, l, k, m);
    assert (ls + [l])[m] == ls[m];
  }

  lemma {:induction false} EveryRecoveryIsOnTerms(env: Env, store: Store, ls: seq<Label>)
    ensures AllOnTerms(env, Book(store, map[], []), ls)
    decreases |ls|
  {
    var base := Book(store, map[], []);
    if ls != [] {
      var before, last := ls[..|ls| - 1], ls[|ls| - 1];
      EveryRecoveryIsOnTerms(env, store, before);
      assert before + [last] == ls;
      RunOneMore(env, base, before, last);
      var st, st' := RunLabels(env, base, before), RunLabels(env, base, ls);
      forall k | k in st'.recoveries ensures OneOnTerms(env, base, ls, k, st'.recoveries[k]) {
        StepTerms(env, st, last, k);
        if k in st.recoveries {
          assert OneOnTerms(env, base, before, k, st.recoveries[k]);
          TermsLater(env, base, before, last, k, st.recoveries[k], st'.recoveries[k]);
        } else {
          StartsNow(env, base, before, last);
          assert ls[|before|] == last;
        }
      }
    }
  }

  /** The decision was taken on an answer that came within a minute of the start of its own recovery. */
  ghost predicate InTime(env: Env, base: Book, ls: seq<Label>, d: Decision)
  {
    exists m: nat, n: nat :: m < n < |ls| && RunsSince(env, base, ls[..n], d.key, m) && DecidedBy(ls[m], ls[n], d)
  }

  predicate DecidedBy(start: Label, answer: Label, d: Decision)
  {
    && start.Starting? && start.key == d.key && start.quorum == d.quorum
    && answer.Answer? && answer.trusted && answer.raw == d.arrived && answer.raw.key == d.key
    && answer.at <= start.now + 60
  }

  ghost predicate AllInTime(env: Env, base: Book, ls: seq<Label>)
  {
    var ds := RunLabels(env, base, ls).decisions;
    forall i :: 0 <= i < |ds| ==> InTime(env, base, ls, ds[i])
  }

  lemma InTimeLater(env: Env, base: Book, ls: seq<Label>, l: Label, d: Decision)
    requires InTime(env, base, ls, d)
    ensures InTime(env, base, ls + [l], d)
  {
    var m: nat, n: nat :| m < n < |ls| && RunsSince(env, base, ls[..n], d.key, m) && DecidedBy(ls[m], ls[n], d);
    var all := ls + [l];
    assert all[..n] == ls[..n] && all[m] == ls[m] && all[n] == ls[n];
  }

  /** What a decision that a step adds looks like. */
  lemma StepDecides(env: Env, st: Book, l: Label)
    ensures var ds, ds' := st.decisions, Step(env, st, l).decisions;
            || ds' == ds
            || (&& l.Answer? && l.trusted && l.raw.key in st.recoveries
                && l.at <= st.recoveries[l.raw.key].deadline
                && |ds'| == |ds| + 1 && ds'[..|ds|] == ds
                && ds'[|ds|].key == l.raw.key && ds'[|ds|].arrived == l.raw
                && ds'[|ds|].quorum == st.recoveries[l.raw.key].quorum)
  {
  }

  /**
   * In every run, every decision was taken on an answer that came at most sixty seconds after its
   * own recovery was started, which had been running since.
   */
  lemma {:induction false} EveryDecisionIsInTime(env: Env, store: Store, ls: seq<Label>)
    ensures AllInTime(env, Book(store, map[], []), ls)
    decreases |ls|
  {
    var base := Book(store, map[], []);
    if ls != [] {
      var before, last := ls[..|ls| - 1], ls[|ls| - 1];
      EveryDecisionIsInTime(env, store, before);
      EveryRecoveryIsOnTerms(env, store, before);
      assert before + [last] == ls;
      RunOneMore(env, base, before, last);
      var st, st' := RunLabels(env, base, before), RunLabels(env, base, ls);
      StepDecides(env, st, last);
      forall i | 0 <= i < |st'.decisions| ensures InTime(env, base, ls, st'.decisions[i]) {
        if i < |st.decisions| {
          assert st'.decisions[i] == st.decisions[i];
          InTimeLater(env, base, before, last, st.decisions[i]);
        } else {
          NewDecisionInTime(env, base, before, last, st'.decisions[i]);
        }
      }
    }
  }

  lemma NewDecisionInTime(env: Env, base: Book, ls: seq<Label>, l: Label, d: Decision)
    requires AllOnTerms(env, base, ls)
    requires var rs := RunLabels(env, base, ls).recoveries;
             && l.Answer? && l.trusted && l.raw.key in rs && l.at <= rs[l.raw.key].deadline
             && d.key == l.raw.key && d.arrived == l.raw && d.quorum == rs[l.raw.key].quorum
    ensures InTime(env, base, ls + [l], d)
  {
    var r := RunLabels(env, base, ls).recoveries[d.key];
    assert OneOnTerms(env, base, ls, d.key, r);
    var m: nat :| RunsSince(env, base, ls, d.key, m) && OnTerms(ls[m], r);
    LastInTime(env, base, ls, l, d, m);
  }

  lemma LastInTime(env: Env, base: Book, ls: seq<Label>, l: Label, d: Decision, m: nat)
    requires RunsSince(env, base, ls, d.key, m) && DecidedBy(ls[m], l, d)
    ensures InTime(env, base, ls + [l], d)
  {
    var all := ls + [l];
    assert all[..|ls|] == ls && all[m] == ls[m] && all[|ls|] == l;
  }

  /** A trusted answer more than sixty seconds after the start stops the recovery and stores nothing. */
  lemma LateAnswerStops(env: Env, store: Store, ls: seq<Label>, k: string, m: nat, l: Label)
    requires RunsSince(env, Book(store, map[], []), ls, k, m)
    requires l.Answer? && l.trusted && l.raw.key == k && l.at > ls[m].now + 60
    ensures var st := RunLabels(env, Book(store, map[], []), ls);
            var st' := RunLabels(env, Book(store, map[], []), ls + [l]);
            st'.store == st.store && st'.decisions == st.decisions && st'.recoveries == st.recoveries - {k}
  {
    var base := Book(store, map[], []);
    EveryRecoveryIsOnTerms(env, store, ls);
    RunOneMore(env, base, ls, l);
    StillRuns(env, base, ls, k, m);
    TermsSince(env, base, ls, k, m);
    LateHandled(env, RunLabels(env, base, ls), l);
  }

  lemma StillRuns(env: Env, base: Book, ls: seq<Label>, k: string, m: nat)
    requires RunsSince(env, base, ls, k, m)
    ensures k in RunLabels(env, base, ls).recoveries
  {
    assert ls[..|ls|] == ls;
  }

  lemma TermsSince(env: Env, base: Book, ls: seq<Label>, k: string, m: nat)
    requires AllOnTerms(env, base, ls) && RunsSince(env, base, ls, k, m) && k in RunLabels(env, base, ls).recoveries
    ensures OnTerms(ls[m], RunLabels(env, base, ls).recoveries[k])
  {
    var r := RunLabels(env, base, ls).recoveries[k];
    assert OneOnTerms(env, base, ls, k, r);
    var n: nat :| RunsSince(env, base, ls, k, n) && OnTerms(ls[n], r);
    NotEarlier(env, base, ls, k, m, n);
    NotEarlier(env, base, ls, k, n, m);
  }

  /** A running recovery has one start. */
  lemma NotEarlier(env: Env, base: Book, ls: seq<Label>, k: string, m: nat, n: nat)
    requires RunsSince(env, base, ls, k, m) && RunsSince(env, base, ls, k, n)
    ensures m >= n
  {
    var before := RunLabels(env, base, ls[..n]).recoveries;
    assert m < n ==> k in before;
  }

  lemma LateHandled(env: Env, st: Book, l: Label)
    requires l.Answer? && l.trusted && l.raw.key in st.recoveries && l.at > st.recoveries[l.raw.key].deadline
    ensures Step(env, st, l) == st.(recoveries := st.recoveries - {l.raw.key})
  {
  }

  /** A recovery starts empty, for a minute, unless one is running for the key; others are not touched. */
  lemma StartDoes(st: Book, key: string, quorum: int, now: int)
    ensures var st' := Begin(st, key, quorum, now);
            && st'.store == st.store && st'.decisions == st.decisions
            && st'.recoveries ==
               if key in st.recoveries then st.recoveries else st.recoveries[key := Process(now + 60, map[], quorum)]
  {
  }

  // ---------------------------------------------------------------- what an answer does

  /** The answer counts: it is in time, its data has the version it states, and its signature holds. */
  predicate Counts(env: Env, r: Process, peer: string, raw: Raw, at: int)
  {
    && at <= r.deadline
    && (("__internal" <= raw.key) || env.hash(raw.data) == raw.version)
    && env.verify(peer, raw)
  }

  /** As many identities as the recovery asks for report this version. */
  ghost predicate Agreed(answers: map<string, Raw>, quorum: int, v: Version)
  {
    |set q | q in answers && answers[q].version == v| >= quorum
  }

  /**
   * A trusted answer to a running recovery without winner: if it counts and completes a quorum for
   * its version, an entry of that version is stored under the key and the recovery ends; if it
   * counts otherwise, it is filed; if it is late, the recovery ends; else nothing changes.
   */
  lemma AnswerDoes(env: Env, st: Book, peer: string, raw: Raw, at: int, pick: Option<string>)
    requires Running(env, st) && GoodPick(env, st, peer, true, raw, at, pick) && raw.key in st.recoveries
    ensures var st', r := Handle(env, st, peer, true, raw, at, pick), st.recoveries[raw.key];
            var answers := r.answers[peer := raw];
            if Counts(env, r, peer, raw, at) then
              if Agreed(answers, r.quorum, raw.version) then
                && raw.key in st'.store && st'.store[raw.key].version == raw.version
                && (forall k :: k != raw.key ==> (k in st'.store <==> k in st.store))
                && (forall k :: k != raw.key && k in st.store ==> st'.store[k] == st.store[k])
                && st'.recoveries == st.recoveries - {raw.key}
              else
                && st'.store == st.store && st'.decisions == st.decisions
                && st'.recoveries == st.recoveries[raw.key := r.(answers := answers)]
            else
              && st'.store == st.store && st'.decisions == st.decisions
              && st'.recoveries == if at > r.deadline then st.recoveries - {raw.key} else st.recoveries
  {
    var r := st.recoveries[raw.key];
    var answers := r.answers[peer := raw];
    if Counts(env, r, peer, raw, at) {
      AgreedWins(env, r, peer, raw, pick);
      if Agreed(answers, r.quorum, raw.version) {
        SubsetSize(Reporters(answers, raw.version), answers.Keys);
        PickedIsFiled(env, st, peer, raw, pick.value);
      }
    }
  }

  lemma AgreedWins(env: Env, r: Process, peer: string, raw: Raw, pick: Option<string>)
    requires !AnyWinner(r.answers, r.quorum) && PickedWell(r.answers[peer := raw], r.quorum, pick)
    ensures var answers := r.answers[peer := raw];
            && (Agreed(answers, r.quorum, raw.version) <==> pick.Some?)
            && (pick.Some? ==> pick.value in answers && answers[pick.value].version == raw.version)
  {
    var answers := r.answers[peer := raw];
    assert Reporters(answers, raw.version) == set q | q in answers && answers[q].version == raw.version;
    if Agreed(answers, r.quorum, raw.version) {
      assert Wins(answers, r.quorum, peer);
    }
    if pick.Some? {
      OnlyTheArrivedWins(r.answers, r.quorum, peer, raw, pick.value);
    }
  }

  lemma PickedIsFiled(env: Env, st: Book, peer: string, raw: Raw, q: string)
    requires Running(env, st) && raw.key in st.recoveries && q in st.recoveries[raw.key].answers[peer := raw]
    ensures st.recoveries[raw.key].answers[peer := raw][q].key == raw.key
  {
    var r := st.recoveries[raw.key];
    assert AllFiled(env, raw.key, r.answers);
    assert q != peer ==> Filed(env, raw.key, q, r.answers[q]);
  }

  /** An answer from an untrusted peer, or to no recovery, changes nothing. */
  lemma StrayAnswer(env: Env, st: Book, peer: string, trusted: bool, raw: Raw, at: int, pick: Option<string>)
    requires !trusted || raw.key !in st.recoveries
    ensures Handle(env, st, peer, trusted, raw, at, pick) == st
  {
  }
}
