/**
The runner's threads as a transition system: every interleaving of leases, deaths, timeouts, failed spawns
and lock acquisitions is a script of actions.
*/
module RunnerSystem {
  import opened Bytes
  import opened Scheduling
  import Protocol
  import WorkerStream

  type CaseResult = WorkerStream.CaseResult

  function CrashResult(name: Text, reason: Text): CaseResult {
    WorkerStream.CaseResult(name, Protocol.Failed, 0, reason, [])
  }

  /** Where one thread stands; `last` is the group it still counts against. */
  datatype Phase =
    | Spawning(last: Option<Text>)
    | Ready(last: Option<Text>)
    | Running(lease: Case)
    | Reporting(lease: Case, result: CaseResult, alive: bool)
    | Doomed(last: Option<Text>, reason: Text)
    | Stranded(last: Option<Text>, reason: Text, cases: seq<Case>)
    | Finished
    | Failed(last: Option<Text>)

  datatype Lease = Lease(thread: nat, leased: Case)

  /** `leases` and `drained` record what the scheduler gave away, in order. */
  datatype System = System(queue: Queue, threads: seq<Phase>, results: seq<CaseResult>,
                           leases: seq<Lease>, drained: seq<Case>)

  datatype Action =
    | SpawnOk
    | SpawnFails(reason: Text)
    | Take
    | Answers(status: Protocol.Status, millis: nat, message: Text, output: seq<Text>)
    | Dies(reason: Text)
    | Push
    | Drain
    | Append

  predicate Enabled(s: System, t: nat, a: Action) {
    t < |s.threads| &&
    match s.threads[t]
    case Spawning(_) => a.SpawnOk? || a.SpawnFails?
    case Ready(_) => a.Take?
    case Running(_) => a.Answers? || a.Dies?
    case Reporting(_, _, _) => a.Push?
    case Doomed(_, _) => a.Drain?
    case Stranded(_, _, _) => a.Append?
    case Finished => false
    case Failed(_) => false
  }

  function Goes(s: System, t: nat, p: Phase): System
    requires t < |s.threads|
  {
    s.(threads := s.threads[t := p])
  }

  function Do(s: System, t: nat, a: Action): System
    requires Enabled(s, t, a)
  {
    match s.threads[t]
    case Spawning(last) => Goes(s, t, if a.SpawnOk? then Ready(last) else Doomed(last, a.reason))
    case Ready(last) =>
      var (queue, r) := TakeNext(s.queue, last);
      (match r
       case None => Goes(s.(queue := queue), t, Finished)
       case Some(c) => Goes(s.(queue := queue, leases := s.leases + [Lease(t, c)]), t, Running(c)))
    case Running(c) =>
      Goes(s, t, if a.Answers?
                 then Reporting(c, WorkerStream.CaseResult(c.name, a.status, a.millis, a.message, a.output), true)
                 else Reporting(c, CrashResult(c.name, a.reason), false))
    case Reporting(c, result, alive) =>
      Goes(s.(results := s.results + [result]), t, if alive then Ready(c.group) else Spawning(c.group))
    case Doomed(last, reason) =>
      Goes(s.(queue := s.queue.(pending := []), drained := s.drained + s.queue.pending), t,
           Stranded(last, reason, s.queue.pending))
    case Stranded(last, reason, cases) =>
      Goes(s.(results := s.results + AllCrashed(cases, reason)), t, Failed(last))
  }

  function AllCrashed(cases: seq<Case>, reason: Text): (r: seq<CaseResult>)
    ensures |r| == |cases| && forall i :: 0 <= i < |cases| ==> r[i] == CrashResult(cases[i].name, reason)
  {
    seq(|cases|, i requires 0 <= i < |cases| => CrashResult(cases[i].name, reason))
  }

  /** One thread per worker asked for, at least one, and never more than there are cases. */
  function Threads(workers: nat, cases: nat): nat {
    var asked := if workers == 0 then 1 else workers;
    if asked < cases then asked else cases
  }

  lemma {:induction false} ThreadsMean(workers: nat, cases: nat)
    ensures Threads(workers, cases) <= cases && (cases > 0 ==> Threads(workers, cases) > 0)
    ensures 0 < workers <= cases ==> Threads(workers, cases) == workers
    ensures workers > cases ==> Threads(workers, cases) == cases
    ensures workers == 0 && cases > 0 ==> Threads(workers, cases) == 1
  {
  }

  function Init(cases: seq<Case>, workers: nat): System {
    System(Queue(cases, map[]), seq(Threads(workers, |cases|), _ => Spawning(None)), [], [], [])
  }

  type Script = seq<(nat, Action)>

  /** The state a script leads to, if each action is enabled when its turn comes. */
  function Run(s: System, script: Script): Option<System>
    decreases |script|
  {
    if script == [] then Some(s)
    else if !Enabled(s, script[0].0, script[0].1) then None
    else Run(Do(s, script[0].0, script[0].1), script[1..])
  }

  predicate Ended(p: Phase) { p.Finished? || p.Failed? }

  predicate AllEnded(s: System) {
    forall t :: 0 <= t < |s.threads| ==> Ended(s.threads[t])
  }

  // ---------------------------------------------------------------- conservation

  function Names(cases: seq<Case>): (r: seq<Text>)
    ensures |r| == |cases| && forall i :: 0 <= i < |cases| ==> r[i] == cases[i].name
  {
    seq(|cases|, i requires 0 <= i < |cases| => cases[i].name)
  }

  function ResultNames(results: seq<CaseResult>): (r: seq<Text>)
    ensures |r| == |results| && forall i :: 0 <= i < |results| ==> r[i] == results[i].name
  {
    seq(|results|, i requires 0 <= i < |results| => results[i].name)
  }

  /** The cases a thread has in hand: leased and not yet reported, or drained and not yet appended. */
  function InHand(p: Phase): multiset<Text> {
    match p
    case Running(c) => multiset{c.name}
    case Reporting(_, result, _) => multiset{result.name}
    case Stranded(_, _, cases) => multiset(Names(cases))
    case _ => multiset{}
  }

  function AllInHand(ts: seq<Phase>): multiset<Text> {
    if ts == [] then multiset{} else AllInHand(ts[..|ts| - 1]) + InHand(ts[|ts| - 1])
  }

  /** Pending, in hand and reported are together the input, each case as often as it was given. */
  predicate Conserved(s: System, cases: seq<Case>) {
    multiset(Names(s.queue.pending)) + AllInHand(s.threads) + multiset(ResultNames(s.results))
    == multiset(Names(cases))
  }

  lemma {:induction false} InHandUpdate(ts: seq<Phase>, t: nat, p: Phase)
    requires t < |ts|
    ensures AllInHand(ts[t := p]) + InHand(ts[t]) == AllInHand(ts) + InHand(p)
    decreases |ts|
  {
    hide InHand;
    var n := |ts| - 1;
    var us := ts[t := p];
    if t == n {
      assert us[..n] == ts[..n];
    } else {
      InHandUpdate(ts[..n], t, p);
      assert us[..n] == ts[..n][t := p];
      assert ts[..n][t] == ts[t] && us[n] == ts[n];
      Widen(AllInHand(us[..n]), InHand(ts[t]), AllInHand(ts[..n]), InHand(p), InHand(ts[n]));
    }
  }

  lemma {:induction false} Widen(a: multiset<Text>, b: multiset<Text>, c: multiset<Text>, d: multiset<Text>,
                                 x: multiset<Text>)
    requires a + b == c + d
    ensures (a + x) + b == (c + x) + d
  {
    forall y ensures ((a + x) + b)[y] == ((c + x) + d)[y] {
      assert (a + b)[y] == (c + d)[y];
    }
  }

  lemma {:induction false} NamesWithout(cases: seq<Case>, i: nat)
    requires i < |cases|
    ensures multiset(Names(Without(cases, i))) + multiset{cases[i].name} == multiset(Names(cases))
  {
    var n := Names(cases);
    assert Names(Without(cases, i)) == n[..i] + n[i + 1..];
    assert n == n[..i] + [n[i]] + n[i + 1..];
  }

  lemma {:induction false} ResultNamesAppend(a: seq<CaseResult>, b: seq<CaseResult>)
    ensures multiset(ResultNames(a + b)) == multiset(ResultNames(a)) + multiset(ResultNames(b))
  {
    assert ResultNames(a + b) == ResultNames(a) + ResultNames(b);
  }

  /** What one thread puts down and picks up, against what the queue and the report gain and lose. */
  lemma {:induction false} Balance(p: multiset<Text>, h: multiset<Text>, r: multiset<Text>, p': multiset<Text>,
                                   h': multiset<Text>,
                r': multiset<Text>, down: multiset<Text>, up: multiset<Text>)
    requires h' + down == h + up && p' + up + r' == p + down + r
    ensures p' + h' + r' == p + h + r
  {
    forall x ensures (p' + h' + r')[x] == (p + h + r)[x] {
      assert (h' + down)[x] == (h + up)[x] && (p' + up + r')[x] == (p + down + r)[x];
    }
  }

  /** What is pending, reported and in the hands of thread `t`. */
  function Around(s: System, t: nat): multiset<Text>
    requires t < |s.threads|
  {
    multiset(Names(s.queue.pending)) + InHand(s.threads[t]) + multiset(ResultNames(s.results))
  }

  lemma {:induction false} TakeMoves(s: System, t: nat, a: Action)
    requires Enabled(s, t, a) && s.threads[t].Ready?
    ensures Around(Do(s, t, a), t) == Around(s, t)
  {
    hide TakeNext, Names, ResultNames;
    var last := s.threads[t].last;
    TakeMeans(s.queue, last);
    var r := TakeNext(s.queue, last);
    if r.1.Some? {
      var i: nat :| TakenAt(s.queue, r, i);
      NamesWithout(s.queue.pending, i);
    }
  }

  lemma {:induction false} PushMoves(s: System, t: nat, a: Action)
    requires Enabled(s, t, a) && s.threads[t].Reporting?
    ensures Around(Do(s, t, a), t) == Around(s, t)
  {
    hide Names;
    var result := s.threads[t].result;
    ResultNamesAppend(s.results, [result]);
    assert ResultNames([result]) == [result.name];
  }

  lemma {:induction false} DrainMoves(s: System, t: nat, a: Action)
    requires Enabled(s, t, a) && s.threads[t].Doomed?
    ensures Around(Do(s, t, a), t) == Around(s, t)
  {
    hide ResultNames;
    assert Names([]) == [];
  }

  lemma {:induction false} AppendMoves(s: System, t: nat, a: Action)
    requires Enabled(s, t, a) && s.threads[t].Stranded?
    ensures Around(Do(s, t, a), t) == Around(s, t)
  {
    hide Names, ResultNames;
    var p := s.threads[t];
    ResultNamesAppend(s.results, AllCrashed(p.cases, p.reason));
    CrashedNames(p.cases, p.reason);
  }

  lemma {:induction false} CrashedNames(cases: seq<Case>, reason: Text)
    ensures ResultNames(AllCrashed(cases, reason)) == Names(cases)
  {
  }

  /** An action moves cases between the queue, the acting thread's hands and the report, and loses none. */
  lemma {:induction false} StepMoves(s: System, t: nat, a: Action)
    requires Enabled(s, t, a)
    ensures |Do(s, t, a).threads| == |s.threads| && Around(Do(s, t, a), t) == Around(s, t)
  {
    hide TakeNext, Names, ResultNames;
    ThreadsAfter(s, t, a);
    match s.threads[t]
    case Ready(_) => TakeMoves(s, t, a);
    case Reporting(_, _, _) => PushMoves(s, t, a);
    case Doomed(_, _) => DrainMoves(s, t, a);
    case Stranded(_, _, _) => AppendMoves(s, t, a);
    case _ =>
  }

  lemma {:induction false} StepConserves(s: System, t: nat, a: Action, cases: seq<Case>)
    requires Enabled(s, t, a) && Conserved(s, cases)
    ensures Conserved(Do(s, t, a), cases)
  {
    hide InHand, AllInHand, Names, ResultNames;
    var s' := Do(s, t, a);
    StepMoves(s, t, a);
    ThreadsAfter(s, t, a);
    hide Do;
    InHandUpdate(s.threads, t, s'.threads[t]);
    Balance(multiset(Names(s.queue.pending)), AllInHand(s.threads), multiset(ResultNames(s.results)),
            multiset(Names(s'.queue.pending)), AllInHand(s'.threads), multiset(ResultNames(s'.results)),
            InHand(s.threads[t]), InHand(s'.threads[t]));
  }

  lemma {:induction false} ThreadsAfter(s: System, t: nat, a: Action)
    requires Enabled(s, t, a)
    ensures var s' := Do(s, t, a); |s'.threads| == |s.threads| && s'.threads == s.threads[t := s'.threads[t]]
  {
    hide TakeNext;
  }

  // ---------------------------------------------------------------- group accounting

  function Claim(p: Phase): Option<Text> {
    match p
    case Spawning(last) => last
    case Ready(last) => last
    case Running(c) => c.group
    case Reporting(c, _, _) => c.group
    case Doomed(last, _) => last
    case Stranded(last, _, _) => last
    case Finished => None
    case Failed(last) => last
  }

  function Holders(ts: seq<Phase>, g: Text): nat {
    if ts == [] then 0
    else Holders(ts[..|ts| - 1], g) + if Claim(ts[|ts| - 1]) == Some(g) then 1 else 0
  }

  /** Each group's count is the number of unfinished or failed threads last on it, and none is kept at zero. */
  ghost predicate Counted(s: System) {
    NoZero(s.queue.workers) && forall g :: Count(s.queue.workers, g) == Holders(s.threads, g)
  }

  lemma {:induction false} HoldersUpdate(ts: seq<Phase>, t: nat, p: Phase, g: Text)
    requires t < |ts|
    ensures Holders(ts[t := p], g) + (if Claim(ts[t]) == Some(g) then 1 else 0)
         == Holders(ts, g) + if Claim(p) == Some(g) then 1 else 0
  {
    hide Claim;
    var n := |ts| - 1;
    if t == n {
      assert ts[t := p][..n] == ts[..n];
    } else {
      HoldersUpdate(ts[..n], t, p, g);
      assert ts[t := p][..n] == ts[..n][t := p];
    }
  }

  /** What a take does to the counts, whatever it hands out. */
  lemma {:induction false} TakeCounts(q: Queue, current: Option<Text>)
    requires NoZero(q.workers)
    requires forall g :: current == Some(g) ==> g in q.workers
    ensures var r := TakeNext(q, current);
            NoZero(r.0.workers) &&
            forall g :: Count(r.0.workers, g) + (if current == Some(g) then 1 else 0)
                     == Count(q.workers, g) + (if r.1.Some? && r.1.value.group == Some(g) then 1 else 0)
  {
    hide Best;
    match current {
      case None => MoveOnCounts(q);
      case Some(g) =>
        LeftCounts(q.workers, g);
        MoveOnCounts(q.(workers := Left(q.workers, g)));
    }
  }

  lemma {:induction false} MoveOnCounts(q: Queue)
    requires NoZero(q.workers)
    ensures var r := MoveOn(q);
            NoZero(r.0.workers) &&
            forall g :: Count(r.0.workers, g)
                     == Count(q.workers, g) + if r.1.Some? && r.1.value.group == Some(g) then 1 else 0
  {
    hide Best;
    if q.pending != [] {
      JoinedCounts(q.workers, q.pending[Best(q, |q.pending|)].group);
    }
  }

  lemma {:induction false} HolderCounts(ts: seq<Phase>, t: nat, g: Text)
    requires t < |ts| && Claim(ts[t]) == Some(g)
    ensures Holders(ts, g) > 0
    decreases |ts|
  {
    if t < |ts| - 1 {
      HolderCounts(ts[..|ts| - 1], t, g);
    }
  }

  lemma {:induction false} StepCounts(s: System, t: nat, a: Action)
    requires Enabled(s, t, a) && Counted(s)
    ensures Counted(Do(s, t, a))
  {
    hide TakeNext, Holders, NoZero, Count;
    var s' := Do(s, t, a);
    if s.threads[t].Ready? {
      var last := s.threads[t].last;
      if last.Some? {
        HolderCounts(s.threads, t, last.value);
        CountPositive(s.queue.workers, last.value);
      }
      TakeCounts(s.queue, last);
    }
    forall g ensures Count(s'.queue.workers, g) == Holders(s'.threads, g) {
      HoldersUpdate(s.threads, t, s'.threads[t], g);
    }
  }

  lemma {:induction false} CountPositive(m: Counts, g: Text)
    requires Count(m, g) > 0
    ensures g in m
  {
  }

  // ---------------------------------------------------------------- the end of the queue

  /** A thread that stopped taking has seen the queue empty. */
  predicate Exhausted(s: System) {
    forall t :: 0 <= t < |s.threads| && (Ended(s.threads[t]) || s.threads[t].Stranded?) ==> s.queue.pending == []
  }

  lemma {:induction false} StepExhausts(s: System, t: nat, a: Action)
    requires Enabled(s, t, a) && Exhausted(s)
    ensures Exhausted(Do(s, t, a))
  {
    hide TakeNext;
    if s.threads[t].Ready? {
      TakeMeans(s.queue, s.threads[t].last);
    }
  }

  // ---------------------------------------------------------------- order of leases

  function OfGroup(cases: seq<Case>, k: Option<Text>): seq<Case> {
    if cases == [] then []
    else if cases[0].group == k then [cases[0]] + OfGroup(cases[1..], k)
    else OfGroup(cases[1..], k)
  }

  function Leased(leases: seq<Lease>): (r: seq<Case>)
    ensures |r| == |leases| && forall i :: 0 <= i < |leases| ==> r[i] == leases[i].leased
  {
    seq(|leases|, i requires 0 <= i < |leases| => leases[i].leased)
  }

  /** Within a group, and among the ungrouped, cases leave the queue in the order they were given. */
  predicate InOrderOf(s: System, cases: seq<Case>, k: Option<Text>) {
    OfGroup(Leased(s.leases), k) + OfGroup(s.drained, k) + OfGroup(s.queue.pending, k) == OfGroup(cases, k)
  }

  ghost predicate Ordered(s: System, cases: seq<Case>) {
    && (forall k :: InOrderOf(s, cases, k))
    && (s.drained != [] ==> s.queue.pending == [])
  }

  lemma {:induction false} OfGroupAppend(a: seq<Case>, b: seq<Case>, k: Option<Text>)
    ensures OfGroup(a + b, k) == OfGroup(a, k) + OfGroup(b, k)
  {
    if a == [] {
      assert a + b == b;
    } else {
      OfGroupAppend(a[1..], b, k);
      assert (a + b)[1..] == a[1..] + b;
    }
  }

  lemma {:induction false} OfGroupOne(c: Case, k: Option<Text>)
    ensures OfGroup([c], k) == if c.group == k then [c] else []
  {
    assert [c][1..] == [];
  }

  lemma {:induction false} OfGroupNone(cases: seq<Case>, k: Option<Text>)
    requires forall i :: 0 <= i < |cases| ==> cases[i].group != k
    ensures OfGroup(cases, k) == []
  {
    if cases != [] {
      OfGroupNone(cases[1..], k);
    }
  }

  /** Removing the earliest case of its group takes the head of that group's order and nothing else. */
  lemma {:induction false} OfGroupWithout(cases: seq<Case>, i: nat, k: Option<Text>)
    requires i < |cases| && forall j :: 0 <= j < i ==> cases[j].group != cases[i].group
    ensures OfGroup([cases[i]], k) + OfGroup(Without(cases, i), k) == OfGroup(cases, k)
  {
    var (head, tail) := (cases[..i], cases[i + 1..]);
    assert cases == head + ([cases[i]] + tail);
    OfGroupAppend(head, [cases[i]] + tail, k);
    OfGroupAppend([cases[i]], tail, k);
    OfGroupAppend(head, tail, k);
    OfGroupOne(cases[i], k);
    if cases[i].group == k {
      OfGroupNone(head, k);
    }
  }

  lemma {:induction false} LeasedAppend(leases: seq<Lease>, l: Lease, k: Option<Text>)
    ensures OfGroup(Leased(leases + [l]), k) == OfGroup(Leased(leases), k) + OfGroup([l.leased], k)
  {
    assert Leased(leases + [l]) == Leased(leases) + [l.leased];
    OfGroupAppend(Leased(leases), [l.leased], k);
  }

  lemma {:induction false} TakeInOrder(s: System, t: nat, a: Action, cases: seq<Case>, k: Option<Text>)
    requires Enabled(s, t, a) && s.threads[t].Ready? && Ordered(s, cases)
    ensures InOrderOf(Do(s, t, a), cases, k)
  {
    hide TakeNext, OfGroup;
    TakeMeans(s.queue, s.threads[t].last);
    var r := TakeNext(s.queue, s.threads[t].last);
    assert InOrderOf(s, cases, k);
    if r.1.Some? {
      var i: nat :| TakenAt(s.queue, r, i);
      var (l, rest) := (OfGroup([r.1.value], k), OfGroup(r.0.pending, k));
      OfGroupWithout(s.queue.pending, i, k);
      LeasedAppend(s.leases, Lease(t, r.1.value), k);
      OfGroupNone(s.drained, k);
      assert OfGroup(Leased(s.leases), k) + [] + (l + rest) == OfGroup(Leased(s.leases), k) + l + [] + rest;
    }
  }

  lemma {:induction false} DrainInOrder(s: System, t: nat, a: Action, cases: seq<Case>, k: Option<Text>)
    requires Enabled(s, t, a) && s.threads[t].Doomed? && Ordered(s, cases)
    ensures InOrderOf(Do(s, t, a), cases, k)
  {
    hide OfGroup;
    assert InOrderOf(s, cases, k);
    OfGroupAppend(s.drained, s.queue.pending, k);
    OfGroupNone([], k);
  }

  lemma {:induction false} StepOrders(s: System, t: nat, a: Action, cases: seq<Case>)
    requires Enabled(s, t, a) && Ordered(s, cases)
    ensures Ordered(Do(s, t, a), cases)
  {
    hide TakeNext, OfGroup;
    var s' := Do(s, t, a);
    if s.threads[t].Ready? {
      TakeMeans(s.queue, s.threads[t].last);
    }
    forall k ensures InOrderOf(s', cases, k) {
      if s.threads[t].Ready? {
        TakeInOrder(s, t, a, cases, k);
      } else if s.threads[t].Doomed? {
        DrainInOrder(s, t, a, cases, k);
      } else {
        assert InOrderOf(s, cases, k);
      }
    }
  }
}
