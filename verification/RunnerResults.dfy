/**
The pool and its workers' streams together: what each reported result says, over every interleaving and
whichever workers die.
*/
module RunnerResults {
  import opened Bytes
  import opened Scheduling
  import opened RunnerSystem
  import WS = WorkerStream
  import RunnerRuns
  import Protocol

  /** What each case does when a worker runs it. */
  type Behaviours = map<Text, WS.Behaviour>

  /** A thread's worker: what it has written that nobody has read yet, and whether it has died. */
  datatype Worker = Worker(unread: Text, dead: bool)

  datatype Pool = Pool(sys: System, workers: seq<Worker>)

  /** One action of one thread, and what its worker writes meanwhile. */
  datatype Move = Move(thread: nat, action: Action, wrote: Text)

  /** A live worker writes the whole case, or dies somewhere inside it; a dead one writes nothing. */
  predicate Writes(w: Worker, name: Text, b: WS.Behaviour, wrote: Text) {
    if w.dead then wrote == [] else wrote == WS.CaseWire(name, b) || WS.StrictPrefix(wrote, WS.CaseWire(name, b))
  }

  /** The runner takes an answer off the stream it reads; a death or timeout can come at any time. */
  predicate Possible(p: Pool, m: Move, beh: Behaviours) {
    && Enabled(p.sys, m.thread, m.action) && |p.workers| == |p.sys.threads|
    && (m.action.Answers? ==>
          var (c, w) := (p.sys.threads[m.thread].lease, p.workers[m.thread]);
          && c.name in beh && Writes(w, c.name, beh[c.name], m.wrote)
          && Answered(c.name, w.unread + m.wrote, m.action))
  }

  predicate Answered(name: Text, stream: Text, a: Action)
    requires a.Answers?
  {
    var reply := WS.Collect(name, stream, []);
    reply.Reported? && reply.result == WS.CaseResult(name, a.status, a.millis, a.message, a.output)
  }

  function WorkerAfter(p: Pool, m: Move, beh: Behaviours): Worker
    requires Possible(p, m, beh)
  {
    var w := p.workers[m.thread];
    match m.action
    case SpawnOk => Worker([], false)
    case Answers(_, _, _, _) =>
      var name := p.sys.threads[m.thread].lease.name;
      Worker(WS.Collect(name, w.unread + m.wrote, []).rest, w.dead || m.wrote != WS.CaseWire(name, beh[name]))
    case _ => w
  }

  function Next(p: Pool, m: Move, beh: Behaviours): Pool
    requires Possible(p, m, beh)
  {
    Pool(Do(p.sys, m.thread, m.action), p.workers[m.thread := WorkerAfter(p, m, beh)])
  }

  /**
  A worker that died, one that did not write a whole case, stays dead until its thread starts another; nobody else
  touches its stream.
  */
  lemma {:induction false} DeadUntilRespawned(p: Pool, m: Move, beh: Behaviours, t: nat)
    requires Possible(p, m, beh) && t < |p.workers|
    ensures var (w, v) := (p.workers[t], Next(p, m, beh).workers[t]);
            && (t != m.thread ==> v == w)
            && (t == m.thread && m.action == SpawnOk ==> v == Worker([], false))
            && (t == m.thread && m.action.Answers? ==>
                  var name := p.sys.threads[t].lease.name;
                  (!v.dead <==> !w.dead && m.wrote == WS.CaseWire(name, beh[name])))
            && (m.action != SpawnOk && !m.action.Answers? ==> v == w)
  {
    hide WS.Collect, WS.CaseWire, WS.StrictPrefix;
  }

  type Moves = seq<Move>

  function RunPool(p: Pool, moves: Moves, beh: Behaviours): Option<Pool>
    decreases |moves|
  {
    if moves == [] then Some(p)
    else if !Possible(p, moves[0], beh) then None
    else RunPool(Next(p, moves[0], beh), moves[1..], beh)
  }

  function Start(cases: seq<Case>, workers: nat): Pool {
    Pool(Init(cases, workers), seq(Threads(workers, |cases|), _ => Worker([], false)))
  }

  /** The scheduling the moves are an instance of. */
  function Actions(moves: Moves): Script {
    seq(|moves|, i requires 0 <= i < |moves| => (moves[i].thread, moves[i].action))
  }

  // ---------------------------------------------------------------- what every result says

  predicate Own(r: CaseResult, beh: Behaviours) {
    r.name in beh && r == WS.OwnResult(r.name, beh[r.name])
  }

  /** A result that says its case failed, after no time and without output, for one of these reasons. */
  predicate Crashed(r: CaseResult, reasons: set<Text>) {
    r.status == Protocol.Failed && r.millis == 0 && r.output == [] && r.message in reasons
  }

  /** Every result reported or about to be is the case's own or a crash, for a reason something failed with. */
  predicate Genuine(s: System, beh: Behaviours, reasons: set<Text>) {
    && (forall i :: 0 <= i < |s.results| ==> Own(s.results[i], beh) || Crashed(s.results[i], reasons))
    && (forall t :: 0 <= t < |s.threads| && s.threads[t].Reporting? ==>
          if s.threads[t].alive then Own(s.threads[t].result, beh) else Crashed(s.threads[t].result, reasons))
    && (forall t :: 0 <= t < |s.threads| && (s.threads[t].Doomed? || s.threads[t].Stranded?) ==>
          s.threads[t].reason in reasons)
  }

  /** A worker kept has nothing unread: every case starts where the one before it ended. */
  predicate Drained(p: Pool) {
    && |p.workers| == |p.sys.threads|
    && forall t :: 0 <= t < |p.workers| && Kept(p.sys.threads[t]) ==> p.workers[t].unread == []
  }

  predicate Kept(ph: Phase) {
    ph.Ready? || ph.Running? || (ph.Reporting? && ph.alive)
  }

  predicate AllBehaved(beh: Behaviours) {
    forall n :: n in beh ==> WS.Behaved(n, beh[n])
  }

  /** Whatever a worker writes from an empty stream, an answer taken off it is the case's own. */
  lemma {:induction false} AnswerIsOwn(name: Text, b: WS.Behaviour, w: Worker, wrote: Text, a: Action)
    requires WS.Behaved(name, b) && w.unread == [] && Writes(w, name, b, wrote)
    requires a.Answers? && Answered(name, w.unread + wrote, a)
    ensures WS.Collect(name, w.unread + wrote, []) == WS.Reported(WS.OwnResult(name, b), [])
  {
    hide WS.Collect, WS.CaseWire, WS.OwnResult, WS.StrictPrefix;
    assert w.unread + wrote == wrote;
    if wrote == WS.CaseWire(name, b) {
      assert wrote + [] == wrote;
      WS.CaseAttributed(name, b, []);
    } else if w.dead {
      WS.CollectEmpty(name, []);
    } else {
      WS.CutCase(name, b, wrote);
    }
  }

  /** What can make a crash: a worker that dies or times out, or one that does not start. */
  predicate Failure(a: Action) {
    a.Dies? || a.SpawnFails?
  }

  function ReasonOf(a: Action): set<Text> {
    if Failure(a) then {a.reason} else {}
  }

  lemma {:induction false} MoveGenuine(p: Pool, m: Move, beh: Behaviours, reasons: set<Text>)
    requires AllBehaved(beh) && Possible(p, m, beh) && Genuine(p.sys, beh, reasons) && Drained(p)
    ensures Genuine(Next(p, m, beh).sys, beh, reasons + ReasonOf(m.action)) && Drained(Next(p, m, beh))
  {
    hide WS.Collect, WS.CaseWire, WS.OwnResult, TakeNext, WS.Behaved, Writes;
    if m.action.Answers? {
      var name := p.sys.threads[m.thread].lease.name;
      AnswerIsOwn(name, beh[name], p.workers[m.thread], m.wrote, m.action);
      OwnName(name, beh[name]);
    }
  }

  lemma {:induction false} OwnName(name: Text, b: WS.Behaviour)
    ensures WS.OwnResult(name, b).name == name
  {
  }

  /** What the deaths, timeouts and failed starts among the moves gave as their reasons. */
  function Reasons(moves: Moves): set<Text> {
    set i | 0 <= i < |moves| && Failure(moves[i].action) :: moves[i].action.reason
  }

  lemma {:induction false} RunGenuine(p: Pool, moves: Moves, beh: Behaviours, reasons: set<Text>)
    requires AllBehaved(beh) && RunPool(p, moves, beh).Some? && Genuine(p.sys, beh, reasons) && Drained(p)
    requires Reasons(moves) <= reasons
    ensures Genuine(RunPool(p, moves, beh).value.sys, beh, reasons)
    decreases |moves|
  {
    hide Next, Possible, Genuine, Drained, AllBehaved;
    if moves != [] {
      MoveGenuine(p, moves[0], beh, reasons);
      ReasonsSplit(moves);
      assert reasons + ReasonOf(moves[0].action) == reasons;
      RunGenuine(Next(p, moves[0], beh), moves[1..], beh, reasons);
    }
  }

  lemma {:induction false} ReasonsSplit(moves: Moves)
    requires moves != []
    ensures ReasonOf(moves[0].action) <= Reasons(moves) && Reasons(moves[1..]) <= Reasons(moves)
  {
    var rest := moves[1..];
    forall x | x in Reasons(rest) ensures x in Reasons(moves) {
      var i :| 0 <= i < |rest| && Failure(rest[i].action) && x == rest[i].action.reason;
      assert moves[i + 1] == rest[i];
    }
  }

  lemma {:induction false} StartGenuine(cases: seq<Case>, workers: nat, beh: Behaviours, reasons: set<Text>)
    ensures Genuine(Start(cases, workers).sys, beh, reasons) && Drained(Start(cases, workers))
  {
  }

  /** The pool's scheduling is one of the runs of the thread system. */
  lemma {:induction false} RunsAlike(p: Pool, moves: Moves, beh: Behaviours)
    requires RunPool(p, moves, beh).Some?
    ensures Run(p.sys, Actions(moves)) == Some(RunPool(p, moves, beh).value.sys)
    decreases |moves|
  {
    hide Do, Enabled;
    if moves == [] {
      assert Actions(moves) == [];
    } else {
      assert Actions(moves)[0] == (moves[0].thread, moves[0].action);
      assert Actions(moves)[1..] == Actions(moves[1..]);
      NextDoes(p, moves[0], beh);
      RunsAlike(Next(p, moves[0], beh), moves[1..], beh);
    }
  }

  lemma {:induction false} NextDoes(p: Pool, m: Move, beh: Behaviours)
    requires Possible(p, m, beh)
    ensures Enabled(p.sys, m.thread, m.action) && Next(p, m, beh).sys == Do(p.sys, m.thread, m.action)
  {
  }

  /** Every worker kept lives and has nothing unread. */
  predicate Healthy(p: Pool) {
    && |p.workers| == |p.sys.threads|
    && forall t :: 0 <= t < |p.workers| && Kept(p.sys.threads[t]) ==> p.workers[t] == Worker([], false)
  }

  /** A run of the thread system in which every answer is the leased case's own result. */
  predicate AnswersOwn(s: System, script: Script, beh: Behaviours)
    decreases |script|
  {
    script == [] || (
      var ((t, a), rest) := (script[0], script[1..]);
      && Enabled(s, t, a)
      && (a.Answers? ==>
            var name := s.threads[t].lease.name;
            && name in beh
            && WS.OwnResult(name, beh[name]) == WS.CaseResult(name, a.status, a.millis, a.message, a.output))
      && AnswersOwn(Do(s, t, a), rest, beh))
  }

  lemma {:induction false} WholeAnswer(name: Text, b: WS.Behaviour, a: Action)
    requires WS.Behaved(name, b) && a.Answers?
    requires WS.OwnResult(name, b) == WS.CaseResult(name, a.status, a.millis, a.message, a.output)
    ensures Answered(name, [] + WS.CaseWire(name, b), a)
    ensures WS.Collect(name, [] + WS.CaseWire(name, b), []).Reported?
         && WS.Collect(name, [] + WS.CaseWire(name, b), []).rest == []
  {
    hide WS.Collect, WS.CaseWire, WS.OwnResult, WS.Behaved;
    var w := WS.CaseWire(name, b);
    assert [] + w == w + [] == w;
    WS.CaseAttributed(name, b, []);
  }

  /** The next move of a healthy pool for an action of its threads: its worker, if asked, writes the whole case. */
  lemma {:induction false} HealthyMove(p: Pool, t: nat, a: Action, beh: Behaviours) returns (m: Move)
    requires AllBehaved(beh) && Healthy(p) && AnswersOwn(p.sys, [(t, a)], beh)
    ensures m.thread == t && m.action == a && Possible(p, m, beh) && Healthy(Next(p, m, beh))
  {
    hide WS.Collect, WS.CaseWire, WS.OwnResult, TakeNext, WS.Behaved, WS.StrictPrefix;
    if a.Answers? {
      var name := p.sys.threads[t].lease.name;
      m := Move(t, a, WS.CaseWire(name, beh[name]));
      WholeAnswer(name, beh[name], a);
    } else {
      m := Move(t, a, []);
    }
  }

  lemma {:induction false} FirstOnly(s: System, script: Script, beh: Behaviours)
    requires script != [] && AnswersOwn(s, script, beh)
    ensures AnswersOwn(s, [(script[0].0, script[0].1)], beh)
    ensures Enabled(s, script[0].0, script[0].1)
    ensures AnswersOwn(Do(s, script[0].0, script[0].1), script[1..], beh)
  {
    hide Do, WS.OwnResult;
    var one := [(script[0].0, script[0].1)];
    assert one[1..] == [];
  }

  /** Nothing in the workers' streams rules out a scheduling: every run whose answers are own results can happen. */
  lemma {:induction false} EveryScheduleHappens(p: Pool, script: Script, beh: Behaviours) returns (moves: Moves)
    requires AllBehaved(beh) && Healthy(p) && AnswersOwn(p.sys, script, beh)
    ensures RunPool(p, moves, beh).Some? && Actions(moves) == script
    decreases |script|
  {
    hide Next, Possible, Healthy, AllBehaved, Do, Enabled;
    if script == [] {
      moves := [];
    } else {
      var (t, a) := script[0];
      FirstOnly(p.sys, script, beh);
      var m := HealthyMove(p, t, a, beh);
      NextDoes(p, m, beh);
      var rest := EveryScheduleHappens(Next(p, m, beh), script[1..], beh);
      moves := [m] + rest;
      assert moves[1..] == rest;
    }
  }

  lemma {:induction false} StartHealthy(cases: seq<Case>, workers: nat)
    ensures Healthy(Start(cases, workers))
  {
  }

  /** A move of the run in which a worker died or timed out, or did not start, for this reason. */
  predicate FailsWith(moves: Moves, i: nat, reason: Text) {
    i < |moves| && (moves[i].action == Dies(reason) || moves[i].action == SpawnFails(reason))
  }

  /**
  In every run of the pool, whichever workers die wherever in a case, every result reported tells how its case
  ended, or says that the case failed, after no time, without output and with the reason for which some worker
  died or did not start. So no case is reported passed unless it passed.
  */
  lemma {:induction false} EveryResultGenuine(cases: seq<Case>, workers: nat, moves: Moves, beh: Behaviours)
    requires AllBehaved(beh) && RunPool(Start(cases, workers), moves, beh).Some?
    ensures forall r :: r in RunPool(Start(cases, workers), moves, beh).value.sys.results ==>
              || (r.name in beh && WS.Tells(r, r.name, beh[r.name]))
              || (r.status == Protocol.Failed && r.millis == 0 && r.output == []
                  && exists i :: FailsWith(moves, i, r.message))
    ensures forall r :: r in RunPool(Start(cases, workers), moves, beh).value.sys.results ==>
              (r.status == Protocol.Passed ==> r.name in beh && beh[r.name].outcome.Pass?)
  {
    hide RunPool, Start, AllBehaved, Own, WS.OwnResult;
    var reasons := Reasons(moves);
    StartGenuine(cases, workers, beh, reasons);
    RunGenuine(Start(cases, workers), moves, beh, reasons);
    var s := RunPool(Start(cases, workers), moves, beh).value.sys;
    forall r | r in s.results
      ensures (r.name in beh && WS.Tells(r, r.name, beh[r.name])) ||
              (r.status == Protocol.Failed && r.millis == 0 && r.output == []
               && exists i :: FailsWith(moves, i, r.message))
    {
      var i :| 0 <= i < |s.results| && s.results[i] == r;
      if Own(r, beh) {
        OwnTells(r, beh);
      } else {
        var k: nat :| k < |moves| && Failure(moves[k].action) && r.message == moves[k].action.reason;
        assert FailsWith(moves, k, r.message);
      }
    }
  }

  lemma {:induction false} OwnTells(r: CaseResult, beh: Behaviours)
    requires Own(r, beh)
    ensures r.name in beh && WS.Tells(r, r.name, beh[r.name])
  {
    hide WS.Tells, WS.OwnResult;
    WS.OwnResultTells(r.name, beh[r.name]);
  }

  /** Without failures every result is its case's own. */
  lemma {:induction false} NothingFailed(cases: seq<Case>, workers: nat, moves: Moves, beh: Behaviours)
    requires AllBehaved(beh) && RunPool(Start(cases, workers), moves, beh).Some?
    requires forall i :: 0 <= i < |moves| ==> !Failure(moves[i].action)
    ensures forall r :: r in RunPool(Start(cases, workers), moves, beh).value.sys.results ==> Own(r, beh)
  {
    hide RunPool, Start, AllBehaved, Own;
    assert Reasons(moves) == {};
    StartGenuine(cases, workers, beh, {});
    RunGenuine(Start(cases, workers), moves, beh, {});
  }

  // ---------------------------------------------------------------- a run without failures

  /** The result of each case, in the order given. */
  function OwnResults(names: seq<Text>, beh: Behaviours): (r: seq<CaseResult>)
    requires forall i :: 0 <= i < |names| ==> names[i] in beh
    ensures |r| == |names|
  {
    seq(|names|, i requires 0 <= i < |names| => WS.OwnResult(names[i], beh[names[i]]))
  }

  lemma {:induction false} TakenOut<T>(s: seq<T>, i: nat)
    requires i < |s|
    ensures multiset(s) == multiset(s[..i] + s[i + 1..]) + multiset{s[i]}
  {
    assert s == s[..i] + [s[i]] + s[i + 1..];
  }

  lemma {:induction false} Cancel<T>(a: multiset<T>, b: multiset<T>, c: multiset<T>)
    requires a + c == b + c
    ensures a == b
  {
    forall x ensures a[x] == b[x] {
      assert (a + c)[x] == (b + c)[x];
    }
  }

  lemma {:induction false} ResultsWithout(names: seq<Text>, beh: Behaviours, i: nat)
    requires i < |names| && forall k :: 0 <= k < |names| ==> names[k] in beh
    ensures multiset(OwnResults(names, beh))
         == multiset(OwnResults(names[..i] + names[i + 1..], beh)) + multiset{WS.OwnResult(names[i], beh[names[i]])}
  {
    hide WS.OwnResult;
    var (y, z) := (OwnResults(names, beh), OwnResults(names[..i] + names[i + 1..], beh));
    TakenOut(y, i);
    assert z == y[..i] + y[i + 1..];
  }

  lemma {:induction false} SameResults(a: seq<Text>, b: seq<Text>, beh: Behaviours)
    requires multiset(a) == multiset(b)
    requires forall i :: 0 <= i < |a| ==> a[i] in beh
    requires forall i :: 0 <= i < |b| ==> b[i] in beh
    ensures multiset(OwnResults(a, beh)) == multiset(OwnResults(b, beh))
    decreases |a|
  {
    hide WS.OwnResult, OwnResults;
    if a == [] {
      assert |multiset(b)| == 0;
    } else {
      assert a[0] in multiset(b);
      var i :| 0 <= i < |b| && b[i] == a[0];
      TakenOut(a, 0);
      TakenOut(b, i);
      ResultsWithout(a, beh, 0);
      ResultsWithout(b, beh, i);
      Cancel(multiset(a[..0] + a[1..]), multiset(b[..i] + b[i + 1..]), multiset{a[0]});
      SameResults(a[..0] + a[1..], b[..i] + b[i + 1..], beh);
    }
  }

  /** If no worker dies, times out or fails to start, a finished run reports exactly every case's own result. */
  lemma {:induction false} AllOwn(cases: seq<Case>, workers: nat, moves: Moves, beh: Behaviours)
    requires AllBehaved(beh) && RunPool(Start(cases, workers), moves, beh).Some?
    requires forall i :: 0 <= i < |moves| ==> !Failure(moves[i].action)
    requires AllEnded(RunPool(Start(cases, workers), moves, beh).value.sys)
    requires forall i :: 0 <= i < |cases| ==> cases[i].name in beh
    ensures multiset(RunPool(Start(cases, workers), moves, beh).value.sys.results)
         == multiset(OwnResults(Names(cases), beh))
    ensures multiset(ResultNames(RunPool(Start(cases, workers), moves, beh).value.sys.results))
         == multiset(Names(cases))
    ensures forall r :: r in RunPool(Start(cases, workers), moves, beh).value.sys.results ==>
              r.name in beh && WS.Tells(r, r.name, beh[r.name])
  {
    hide RunPool, AllBehaved, Run, Enabled, WS.OwnResult, WS.Tells;
    var p := Start(cases, workers);
    var s := RunPool(p, moves, beh).value.sys;
    RunsAlike(p, moves, beh);
    NobodyActs(s);
    RunnerRuns.ExactlyOneResult(cases, workers, Actions(moves));
    NothingFailed(cases, workers, moves, beh);
    var names := ResultNames(s.results);
    forall i | 0 <= i < |names| ensures names[i] in beh && s.results[i] == WS.OwnResult(names[i], beh[names[i]]) {
      assert s.results[i] in s.results;
    }
    forall r | r in s.results ensures r.name in beh && WS.Tells(r, r.name, beh[r.name]) {
      OwnTells(r, beh);
    }
    assert s.results == OwnResults(names, beh);
    SameResults(names, Names(cases), beh);
  }

  lemma {:induction false} NobodyActs(s: System)
    requires AllEnded(s)
    ensures forall t: nat, a :: !Enabled(s, t, a)
  {
  }
}
