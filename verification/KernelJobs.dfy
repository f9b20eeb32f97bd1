/**
The actor's jobs over whole runs: whole bodies in send order, every caller answered once with its own job's
ending, whatever panics on the way.
*/
module KernelJobs {
  import opened Bytes
  import opened Kernel

  // ---------------------------------------------------------------- the trace of a job

  /** Whether an effect is a milestone of one of this actor's jobs. */
  predicate OfJob(e: Effect, id: nat) {
    match e
    case Started(i, _) => i == id
    case Did(i, _, _) => i == id
    case Answered(i, _, _) => i == id
    case _ => false
  }

  /** The milestones of this actor's jobs, in the order they happened. */
  function Trace(log: seq<Effect>, id: nat): seq<Effect> {
    if log == [] then []
    else
      var e := log[|log| - 1];
      Trace(log[..|log| - 1], id) + if OfJob(e, id) then [e] else []
  }

  /** A job begun and `n` steps into its body. */
  function Partly(id: nat, j: nat, body: seq<Use>, n: nat): seq<Effect>
    requires n <= |body|
  {
    if n == 0 then [Started(id, j)] else Partly(id, j, body, n - 1) + [Did(id, j, body[n - 1])]
  }

  /** A whole job: begun, every step of its body, its ending handed to its own caller. */
  function Wholly(id: nat, j: nat, job: Job): seq<Effect> {
    Partly(id, j, job.body, |job.body|) + [Answered(id, j, job.ending)]
  }

  /** The first `n` jobs, one after the other. */
  function InTurn(id: nat, jobs: seq<Job>, n: nat): seq<Effect>
    requires n <= |jobs|
  {
    if n == 0 then [] else InTurn(id, jobs, n - 1) + Wholly(id, n - 1, jobs[n - 1])
  }

  /** How many jobs have been answered. */
  function Done(h: Holder): nat {
    h.ran + if h.phase == Replied then 1 else 0
  }

  /** What must have happened so far: every job answered in turn, then the part of the one under way. */
  function Expected(id: nat, h: Holder): seq<Effect>
    requires Queued(h)
  {
    InTurn(id, h.jobs, Done(h)) + if h.phase.InJob? then Partly(id, h.ran, h.jobs[h.ran].body, h.phase.pos) else []
  }

  // ---------------------------------------------------------------- what every step keeps

  /** Nobody but an actor whose pump runs has a job left. */
  predicate Queued(h: Holder) {
    && |h.replies| == |h.jobs| && Done(h) <= |h.jobs|
    && (h.phase.InJob? ==> h.ran < |h.jobs| && h.phase.pos <= |h.jobs[h.ran].body|)
    && (!Listening(h.phase) ==> Done(h) == |h.jobs|)
  }

  /** Each caller answered has its own job's ending, and everyone else still waits. */
  predicate OwnReplies(h: Holder)
    requires |h.replies| == |h.jobs|
  {
    forall i :: 0 <= i < |h.jobs| ==> h.replies[i] == if i < Done(h) then Got(h.jobs[i].ending) else Waiting
  }

  predicate JobsRight(log: seq<Effect>, id: nat, h: Holder) {
    Queued(h) && OwnReplies(h) && Trace(log, id) == Expected(id, h)
  }

  ghost predicate AllRight(s: Process) {
    && Invariant(s)
    && (forall i :: i in s.holders ==> JobsRight(s.lib.log, i, s.holders[i]))
    && (forall i :: i !in s.holders ==> Trace(s.lib.log, i) == [])
  }

  lemma {:induction false} TraceNote(lib: Library, e: Effect, id: nat)
    ensures Trace(Note(lib, e).log, id) == Trace(lib.log, id) + if OfJob(e, id) then [e] else []
  {
    assert Note(lib, e).log[..|lib.log|] == lib.log;
  }

  /** Using the database is no milestone of any job. */
  lemma {:induction false} TraceUse(lib: Library, h: Holder, u: Use, id: nat)
    ensures Trace(DoUse(lib, h, u).0.log, id) == Trace(lib.log, id)
    ensures DoUse(lib, h, u).1 == h.(isOpen := DoUse(lib, h, u).1.isOpen, hexrays := DoUse(lib, h, u).1.hexrays)
  {
    hide Trace, Forward;
    TraceForward(lib, h.thread, id);
    var t := Forward(lib, h.thread);
    TraceNote(t.(open := true), Opened, id);
    TraceClose(lib, h, id);
  }

  lemma {:induction false} TraceForward(lib: Library, caller: Thread, id: nat)
    ensures Trace(Forward(lib, caller).log, id) == Trace(lib.log, id)
  {
    var main := EnsureKernelThread(lib.main, caller);
    TraceNote(lib.(main := main), Called(caller, main), id);
  }

  lemma {:induction false} TraceClose(lib: Library, h: Holder, id: nat)
    ensures Trace(CloseDatabase(lib, h).0.log, id) == Trace(lib.log, id)
  {
    hide Trace, Forward;
    TraceForward(lib, h.thread, id);
    var t := ClearCache(lib, h.thread, h.hexrays);
    TraceForward(t, h.thread, id);
    var u := Forward(t, h.thread);
    TraceNote(u.(open := false), Closed(u.open), id);
  }

  /** The milestone an action adds, if any. */
  function Milestone(id: nat, h: Holder, a: Action): seq<Effect>
    requires Enabled(h, a)
  {
    match a
    case StartJob => [Started(id, h.ran)]
    case Advance => [Did(id, h.ran, h.jobs[h.ran].body[h.phase.pos])]
    case Answer => [Answered(id, h.ran, h.jobs[h.ran].ending)]
    case _ => []
  }

  lemma {:induction false} TraceAct(lib: Library, id: nat, h: Holder, a: Action, i: nat)
    requires Enabled(h, a)
    ensures Trace(Act(lib, id, h, a).0.log, i) == Trace(lib.log, i) + if i == id then Milestone(id, h, a) else []
  {
    hide Trace, DoUse, CloseDatabase;
    match a
    case UseOwned(u) => TraceUse(lib, h, u, i);
    case Advance =>
      var u := h.jobs[h.ran].body[h.phase.pos];
      TraceUse(lib, h, u, i);
      TraceNote(DoUse(lib, h, u).0, Did(id, h.ran, u), i);
    case StartJob => TraceNote(lib, Started(id, h.ran), i);
    case Answer => TraceNote(lib, Answered(id, h.ran, h.jobs[h.ran].ending), i);
    case CloseDown => TraceClose(lib, h, i);
    case BringUp(_) => TraceSetUp(lib, id, h, a, i);
    case InitDone(_) => TraceSetUp(lib, id, h, a, i);
    case Release => TraceNote(lib.(live := false), Dropped(h.isOpen), i);
    case _ =>
  }

  lemma {:induction false} TraceSetUp(lib: Library, id: nat, h: Holder, a: Action, i: nat)
    requires Enabled(h, a) && (a.BringUp? || a.InitDone?)
    ensures Trace(Act(lib, id, h, a).0.log, i) == Trace(lib.log, i)
  {
    hide Trace;
    TraceNote(lib.(live := false), Dropped(h.isOpen), i);
    if a.InitDone? {
      var e := Initialized(a.ok, h.thread, lib.main);
      TraceNote(lib, e, i);
      TraceNote(Note(lib, e).(inited := false, live := false), Dropped(h.isOpen), i);
    }
  }

  /** Only the queue, the job under way and its slot move. */
  predicate QueueMoves(h: Holder, g: Holder, a: Action) {
    Queued(g) && OwnReplies(g) && g.jobs == h.jobs + if a.Send? then [a.job] else []
  }

  lemma {:induction false} QueueUse(lib: Library, id: nat, h: Holder, a: Action)
    requires Enabled(h, a) && Queued(h) && OwnReplies(h) && Placed(h) && (a.UseOwned? || a.Advance? || a.CloseDown?)
    ensures QueueMoves(h, Act(lib, id, h, a).1, a)
  {
    hide DoUse, CloseDatabase;
    if a.UseOwned? {
      TraceUse(lib, h, a.use, id);
    } else if a.Advance? {
      TraceUse(lib, h, h.jobs[h.ran].body[h.phase.pos], id);
    } else {
      TraceUse(lib, h, Close, id);
      CloseIsUse(lib, h);
    }
  }

  lemma {:induction false} QueueReply(lib: Library, id: nat, h: Holder, a: Action)
    requires Enabled(h, a) && Queued(h) && OwnReplies(h) && Placed(h)
    requires a.Send? || a.Answer? || a.Return? || a.EndThread?
    ensures QueueMoves(h, Act(lib, id, h, a).1, a)
  {
    if a.EndThread? {
      assert HangUp(h.replies) == h.replies;
    }
  }

  lemma {:induction false} QueueAct(lib: Library, id: nat, h: Holder, a: Action)
    requires Enabled(h, a) && Queued(h) && OwnReplies(h) && Placed(h)
    ensures QueueMoves(h, Act(lib, id, h, a).1, a)
  {
    hide Act, Enabled, Queued, OwnReplies, Placed, QueueMoves;
    if a.UseOwned? || a.Advance? || a.CloseDown? {
      QueueUse(lib, id, h, a);
    } else if a.Send? || a.Answer? || a.Return? || a.EndThread? {
      QueueReply(lib, id, h, a);
    } else if a.BringUp? || a.InitDone? {
      QueueSetUp(lib, id, h, a);
    } else {
      QueueRest(lib, id, h, a);
    }
  }

  lemma {:induction false} QueueSetUp(lib: Library, id: nat, h: Holder, a: Action)
    requires Enabled(h, a) && Queued(h) && OwnReplies(h) && Placed(h) && (a.BringUp? || a.InitDone?)
    ensures QueueMoves(h, Act(lib, id, h, a).1, a)
  {
    hide OwnReplies, Note, Reclaim, Placed;
    SameReplies(h, Act(lib, id, h, a).1);
  }

  lemma {:induction false} QueueRest(lib: Library, id: nat, h: Holder, a: Action)
    requires Enabled(h, a) && Queued(h) && OwnReplies(h) && Placed(h)
    requires !a.UseOwned? && !a.Advance? && !a.CloseDown? && !a.Send? && !a.Answer? && !a.Return? && !a.EndThread?
    requires !a.BringUp? && !a.InitDone?
    ensures QueueMoves(h, Act(lib, id, h, a).1, a)
  {
    hide Trace, InTurn, OwnReplies, DoUse, CloseDatabase, Forward, BringUpKernel, InitLibrary, Note;
    SameReplies(h, Act(lib, id, h, a).1);
  }

  lemma {:induction false} SameReplies(h: Holder, g: Holder)
    requires |h.replies| == |h.jobs| && OwnReplies(h) && g.jobs == h.jobs && g.replies == h.replies
    ensures Done(g) == Done(h) ==> OwnReplies(g)
  {
  }

  lemma {:induction false} CloseIsUse(lib: Library, h: Holder)
    ensures CloseDatabase(lib, h) == DoUse(lib, h, Close)
  {
  }

  lemma {:induction false} InTurnMore(id: nat, jobs: seq<Job>, job: Job, n: nat)
    requires n <= |jobs|
    ensures InTurn(id, jobs + [job], n) == InTurn(id, jobs, n)
    decreases n
  {
    if n > 0 {
      InTurnMore(id, jobs, job, n - 1);
    }
  }

  /** A step adds to what is expected exactly its milestone. */
  lemma {:induction false} ExpectedAct(lib: Library, id: nat, h: Holder, a: Action)
    requires Enabled(h, a) && Queued(h) && OwnReplies(h) && Placed(h)
    requires Queued(Act(lib, id, h, a).1) && Act(lib, id, h, a).1.jobs == h.jobs + if a.Send? then [a.job] else []
    ensures Expected(id, Act(lib, id, h, a).1) == Expected(id, h) + Milestone(id, h, a)
  {
    hide DoUse, CloseDatabase, InTurn, Partly, OwnReplies;
    if a.Send? {
      InTurnMore(id, h.jobs, a.job, Done(h));
    } else if a.Answer? {
      ExpectedAnswer(id, h);
    } else if a.StartJob? || a.Advance? {
      ExpectedBody(lib, id, h, a);
    } else {
      SameExpected(lib, id, h, a);
    }
  }

  lemma {:induction false} ExpectedAnswer(id: nat, h: Holder)
    requires Enabled(h, Answer) && Queued(h)
    ensures InTurn(id, h.jobs, h.ran + 1) == Expected(id, h) + Milestone(id, h, Answer)
  {
    var job := h.jobs[h.ran];
    var (before, body, last) := (InTurn(id, h.jobs, h.ran), Partly(id, h.ran, job.body, |job.body|),
                                 [Answered(id, h.ran, job.ending)]);
    hide InTurn, Partly;
    assert before + (body + last) == before + body + last;
    TurnStep(id, h.jobs, h.ran);
  }

  lemma {:induction false} TurnStep(id: nat, jobs: seq<Job>, n: nat)
    requires n < |jobs|
    ensures InTurn(id, jobs, n + 1) == InTurn(id, jobs, n) + Wholly(id, n, jobs[n])
  {
  }

  lemma {:induction false} ExpectedBody(lib: Library, id: nat, h: Holder, a: Action)
    requires Enabled(h, a) && Queued(h) && Placed(h) && (a.StartJob? || a.Advance?)
    requires Queued(Act(lib, id, h, a).1) && Act(lib, id, h, a).1.jobs == h.jobs
    ensures Expected(id, Act(lib, id, h, a).1) == Expected(id, h) + Milestone(id, h, a)
  {
    hide DoUse, CloseDatabase, InTurn;
    var g := Act(lib, id, h, a).1;
    if a.Advance? {
      TraceUse(lib, h, h.jobs[h.ran].body[h.phase.pos], id);
      var body := h.jobs[h.ran].body;
      var (before, part) := (InTurn(id, h.jobs, h.ran), Partly(id, h.ran, body, h.phase.pos));
      assert before + (part + Milestone(id, h, a)) == before + part + Milestone(id, h, a);
    }
  }

  lemma {:induction false} SameExpected(lib: Library, id: nat, h: Holder, a: Action)
    requires Enabled(h, a) && Queued(h) && Placed(h)
    requires !a.Send? && !a.Answer? && !a.StartJob? && !a.Advance?
    requires Queued(Act(lib, id, h, a).1) && Act(lib, id, h, a).1.jobs == h.jobs
    ensures Expected(id, Act(lib, id, h, a).1) == Expected(id, h)
  {
    hide DoUse, CloseDatabase, InTurn, Partly;
    if a.UseOwned? {
      TraceUse(lib, h, a.use, id);
    } else if a.CloseDown? {
      TraceUse(lib, h, Close, id);
      CloseIsUse(lib, h);
    }
  }

  lemma {:induction false} ActRight(lib: Library, id: nat, h: Holder, a: Action)
    requires Enabled(h, a) && Placed(h) && JobsRight(lib.log, id, h)
    ensures JobsRight(Act(lib, id, h, a).0.log, id, Act(lib, id, h, a).1)
  {
    hide Trace, Act, Expected, OwnReplies, Milestone, Queued, Placed;
    QueueAct(lib, id, h, a);
    ExpectedAct(lib, id, h, a);
    TraceAct(lib, id, h, a, id);
  }

  lemma {:induction false} StepRight(s: Process, id: nat, a: Action)
    requires AllRight(s) && Possible(s, id, a)
    ensures AllRight(Do(s, id, a))
  {
    hide Trace, Act, Held, Free, SafeLog, Expected, OwnReplies, Milestone, Queued, Placed, Exclusive, Enabled;
    StepKeeps(s, id, a);
    var t := Do(s, id, a);
    if a.Acquire? {
      if !s.lib.live {
        NewRight(s.lib.log, id, t.holders[id]);
      }
    } else {
      var h := s.holders[id];
      ActRight(s.lib, id, h, a);
      forall i | i != id ensures Trace(t.lib.log, i) == Trace(s.lib.log, i) {
        TraceAct(s.lib, id, h, a, i);
      }
    }
  }

  lemma {:induction false} NewRight(log: seq<Effect>, id: nat, h: Holder)
    requires Trace(log, id) == [] && h.phase == Starting && h.jobs == [] && h.replies == [] && h.ran == 0
    ensures JobsRight(log, id, h)
  {
  }

  lemma {:induction false} RunRight(s: Process, script: Script)
    requires AllRight(s) && Run(s, script).Some?
    ensures AllRight(Run(s, script).value)
    decreases |script|
  {
    hide Do, Possible, AllRight;
    if script != [] {
      StepRight(s, script[0].0, script[0].1);
      RunRight(Do(s, script[0].0, script[0].1), script[1..]);
    }
  }

  lemma {:induction false} FreshRight()
    ensures AllRight(FRESH)
  {
  }

  /**
  In every run of the process, whatever the jobs do and however they end: what an actor has done is whole jobs
  in the order they were sent, then the part of the one under way, each caller answered once with its own job's
  ending; nobody is ever told that the actor is gone.
  */
  lemma {:induction false} EveryRunInTurn(script: Script, id: nat)
    requires Run(FRESH, script).Some? && id in Run(FRESH, script).value.holders
    ensures var t := Run(FRESH, script).value;
            var h := t.holders[id];
            && Queued(h) && OwnReplies(h) && Trace(t.lib.log, id) == Expected(id, h)
            && (forall i :: 0 <= i < |h.replies| ==> h.replies[i] != Disconnected)
            && (Past(h.phase) ==> h.replies == Endings(h.jobs) && Trace(t.lib.log, id) == InTurn(id, h.jobs, |h.jobs|))
  {
    hide Trace, InTurn, Partly;
    FreshRight();
    RunRight(FRESH, script);
  }

  /** Every job's own ending. */
  function Endings(jobs: seq<Job>): (r: seq<Reply>)
    ensures |r| == |jobs|
  {
    seq(|jobs|, i requires 0 <= i < |jobs| => Got(jobs[i].ending))
  }

  // ---------------------------------------------------------------- across a run

  function JobsOf(s: Process, id: nat): seq<Job> {
    if id in s.holders then s.holders[id].jobs else []
  }

  function RepliesOf(s: Process, id: nat): seq<Reply> {
    if id in s.holders then s.holders[id].replies else []
  }

  /** A caller who has a reply keeps that reply. */
  predicate ForGood(a: seq<Reply>, b: seq<Reply>) {
    |a| <= |b| && forall i :: 0 <= i < |a| && a[i].Got? ==> b[i] == a[i]
  }

  /** The jobs a script sends to `id`, in order. */
  function Sends(script: Script, id: nat): seq<Job> {
    if script == [] then []
    else (if script[0].0 == id && script[0].1.Send? then [script[0].1.job] else []) + Sends(script[1..], id)
  }

  lemma {:induction false} ActReplies(lib: Library, id: nat, h: Holder, a: Action)
    requires Enabled(h, a) && Queued(h) && OwnReplies(h)
    ensures ForGood(h.replies, Act(lib, id, h, a).1.replies)
  {
    hide DoUse, CloseDatabase, BringUpKernel, InitLibrary;
    if a.UseOwned? {
      TraceUse(lib, h, a.use, id);
    } else if a.Advance? {
      TraceUse(lib, h, h.jobs[h.ran].body[h.phase.pos], id);
    } else if a.CloseDown? {
      TraceUse(lib, h, Close, id);
      CloseIsUse(lib, h);
    } else if a.BringUp? || a.InitDone? {
      SetUpReplies(lib, id, h, a);
    }
  }

  lemma {:induction false} SetUpReplies(lib: Library, id: nat, h: Holder, a: Action)
    requires Enabled(h, a) && (a.BringUp? || a.InitDone?)
    ensures Act(lib, id, h, a).1.replies == h.replies
  {
  }

  lemma {:induction false} StepSlots(s: Process, i: nat, a: Action, id: nat)
    requires AllRight(s) && Possible(s, i, a)
    ensures JobsOf(Do(s, i, a), id) == JobsOf(s, id) + if i == id && a.Send? then [a.job] else []
    ensures ForGood(RepliesOf(s, id), RepliesOf(Do(s, i, a), id))
  {
    hide Act, Held, Free, SafeLog, Trace, Expected, Exclusive, OwnReplies, Queued;
    if !a.Acquire? {
      var h := s.holders[i];
      QueueAct(s.lib, i, h, a);
      ActReplies(s.lib, i, h, a);
    }
  }

  /**
  Over any run an actor's queue grows by exactly the jobs sent to it, in the order they were sent, and a caller
  who has been answered keeps that answer.
  */
  lemma {:induction false} QueueIsSends(s: Process, script: Script, id: nat)
    requires AllRight(s) && Run(s, script).Some?
    ensures JobsOf(Run(s, script).value, id) == JobsOf(s, id) + Sends(script, id)
    ensures ForGood(RepliesOf(s, id), RepliesOf(Run(s, script).value, id))
    decreases |script|
  {
    hide Do, Possible, AllRight, JobsOf, RepliesOf;
    if script == [] {
      assert JobsOf(s, id) + [] == JobsOf(s, id);
    } else {
      var (i, a) := (script[0].0, script[0].1);
      StepSlots(s, i, a, id);
      StepRight(s, i, a);
      var t := Do(s, i, a);
      QueueIsSends(t, script[1..], id);
      var now := if i == id && a.Send? then [a.job] else [];
      assert JobsOf(s, id) + now + Sends(script[1..], id) == JobsOf(s, id) + (now + Sends(script[1..], id));
      StaysForGood(RepliesOf(s, id), RepliesOf(t, id), RepliesOf(Run(s, script).value, id));
    }
  }

  lemma {:induction false} StaysForGood(a: seq<Reply>, b: seq<Reply>, c: seq<Reply>)
    requires ForGood(a, b) && ForGood(b, c)
    ensures ForGood(a, c)
  {
  }

  // ---------------------------------------------------------------- the pump goes on

  /** The pump's own next step. */
  function NextStep(h: Holder): Action
    requires Queued(h) && Listening(h.phase)
  {
    match h.phase
    case InJob(pos) => if pos < |h.jobs[h.ran].body| then Advance else Answer
    case Replied => Return
    case _ => StartJob
  }

  function WorkFrom(jobs: seq<Job>, n: nat): nat
    requires n <= |jobs|
    decreases |jobs| - n
  {
    if n == |jobs| then 0 else |jobs[n].body| + 3 + WorkFrom(jobs, n + 1)
  }

  /** The steps left until every job sent so far has been run. */
  function Work(h: Holder): nat
    requires Queued(h) && Listening(h.phase)
  {
    match h.phase
    case InJob(pos) => |h.jobs[h.ran].body| - pos + 2 + WorkFrom(h.jobs, h.ran + 1)
    case Replied => 1 + WorkFrom(h.jobs, h.ran + 1)
    case _ => WorkFrom(h.jobs, h.ran)
  }

  lemma {:induction false} PumpStep(lib: Library, id: nat, h: Holder)
    requires Placed(h) && Queued(h) && OwnReplies(h) && Listening(h.phase) && Work(h) > 0
    ensures Enabled(h, NextStep(h))
    ensures var g := Act(lib, id, h, NextStep(h)).1;
            && Queued(g) && Listening(g.phase) && Work(g) == Work(h) - 1 && g.jobs == h.jobs
            && g.handles == h.handles && g.app == h.app
  {
    hide DoUse, OwnReplies, Placed;
    if h.phase.InJob? && h.phase.pos < |h.jobs[h.ran].body| {
      TraceUse(lib, h, h.jobs[h.ran].body[h.phase.pos], id);
    }
  }

  lemma {:induction false} IdleAtRest(h: Holder)
    requires Queued(h) && OwnReplies(h) && Listening(h.phase) && Work(h) == 0
    ensures h.phase == Idle && h.ran == |h.jobs| && h.replies == Endings(h.jobs)
  {
  }

  predicate Pumping(a: Action) {
    a == StartJob || a == Advance || a == Answer || a == Return
  }

  predicate Pumps(script: Script, id: nat) {
    forall k :: 0 <= k < |script| ==> script[k].0 == id && Pumping(script[k].1)
  }

  /**
  From any reachable state, whatever the queued jobs do and however they end, panics included, the actor's own
  thread can go on and run every one of them, and leaves each caller its own job's ending.
  */
  lemma {:induction false} PumpFinishes(s: Process, id: nat) returns (script: Script)
    requires AllRight(s) && id in s.holders && Listening(s.holders[id].phase)
    ensures Pumps(script, id) && Run(s, script).Some? && |script| == Work(s.holders[id])
    ensures var t := Run(s, script).value;
            && AllRight(t) && id in t.holders && t.holders[id].phase == Idle
            && t.holders[id].jobs == s.holders[id].jobs && t.holders[id].ran == |t.holders[id].jobs|
            && t.holders[id].replies == Endings(s.holders[id].jobs)
            && t.holders[id].handles == s.holders[id].handles && t.holders[id].app == s.holders[id].app
    decreases Work(s.holders[id])
  {
    hide Act, Held, Free, SafeLog, Trace, Expected, Exclusive, OwnReplies, Queued, Placed, Enabled, Work, NextStep;
    var h := s.holders[id];
    if Work(h) == 0 {
      script := [];
      IdleAtRest(h);
    } else {
      PumpStep(s.lib, id, h);
      PumpAction(h);
      var a := NextStep(h);
      StepRight(s, id, a);
      var t := Do(s, id, a);
      script := PumpFinishes(t, id);
      RunStep(s, (id, a), script);
      script := [(id, a)] + script;
    }
  }

  lemma {:induction false} PumpAction(h: Holder)
    requires Queued(h) && Listening(h.phase)
    ensures Pumping(NextStep(h))
  {
  }

  /** The actions that end an actor once its queue is empty and its handles are gone. */
  const CLOSING := [PumpExit, CloseDown, EndThread, Join, Release]

  function ClosingScript(id: nat, n: nat): Script
    requires n <= |CLOSING|
  {
    seq(|CLOSING| - n, k requires 0 <= k < |CLOSING| - n => (id, CLOSING[n + k]))
  }

  lemma {:induction false} ClosingStep(s: Process, id: nat, n: nat)
    requires n < |CLOSING| && Possible(s, id, CLOSING[n])
    ensures Run(s, ClosingScript(id, n)) == Run(Do(s, id, CLOSING[n]), ClosingScript(id, n + 1))
  {
    var step := (id, CLOSING[n]);
    assert ClosingScript(id, n) == [step] + ClosingScript(id, n + 1);
    RunStep(s, step, ClosingScript(id, n + 1));
  }

  /** The end of an idle actor: it closes its database, is joined, and the claim is free. */
  lemma {:induction false} IdleEnds(s: Process, id: nat)
    requires AllRight(s) && id in s.holders
    requires s.holders[id].phase == Idle && s.holders[id].ran == |s.holders[id].jobs|
    requires s.holders[id].handles == 0 && s.holders[id].app != Running
    ensures Run(s, ClosingScript(id, 0)).Some?
    ensures var t := Run(s, ClosingScript(id, 0)).value;
            && AllRight(t) && id in t.holders && !Live(t.holders[id]) && !t.lib.live
            && t.holders[id].jobs == s.holders[id].jobs && t.holders[id].replies == s.holders[id].replies
  {
    hide AllRight, Run, ClosingScript;
    var s1 := IdleStep(s, id, 0);
    var s2 := IdleStep(s1, id, 1);
    var s3 := IdleStep(s2, id, 2);
    var s4 := IdleStep(s3, id, 3);
    var s5 := IdleStep(s4, id, 4);
    ClosingDone(s5, id);
  }

  lemma {:induction false} ClosingDone(s: Process, id: nat)
    ensures Run(s, ClosingScript(id, 5)) == Some(s)
  {
  }

  /** Where an idle actor is after `n` of its last actions. */
  predicate ClosingAt(s: Process, id: nat, n: nat) {
    && id in s.holders && s.holders[id].ran == |s.holders[id].jobs|
    && s.holders[id].handles == 0 && s.holders[id].app != Running
    && s.holders[id].phase == match n
       case 0 => Idle
       case 1 => Exiting
       case 2 => ClosedDown
       case 3 => Ended
       case 4 => Joined
       case _ => Released
  }

  lemma {:induction false} IdleStep(s: Process, id: nat, n: nat) returns (t: Process)
    requires AllRight(s) && ClosingAt(s, id, n) && n < |CLOSING|
    ensures AllRight(t) && ClosingAt(t, id, n + 1) && (n == 4 ==> !t.lib.live)
    ensures t.holders[id].jobs == s.holders[id].jobs && t.holders[id].replies == s.holders[id].replies
    ensures Run(s, ClosingScript(id, n)) == Run(t, ClosingScript(id, n + 1))
  {
    hide Run, ClosingScript, Held, Free, SafeLog, Trace, Expected, Exclusive, Placed;
    t := Do(s, id, CLOSING[n]);
    StepRight(s, id, CLOSING[n]);
    ClosingStep(s, id, n);
    if n == 1 {
      TraceUse(s.lib, s.holders[id], Close, id);
      CloseIsUse(s.lib, s.holders[id]);
    } else if n == 2 {
      assert HangUp(s.holders[id].replies) == s.holders[id].replies;
    }
  }

  /**
  Once the application has returned or panicked and every handle is gone, the actor can always be brought to its
  end: every job is run and answered, and the claim is free with no database open in the kernel, unless one was
  abandoned before.
  */
  lemma {:induction false} ActorEnds(s: Process, id: nat) returns (script: Script)
    requires AllRight(s) && id in s.holders && Listening(s.holders[id].phase)
    requires s.holders[id].handles == 0 && s.holders[id].app != Running
    ensures Run(s, script).Some?
    ensures var t := Run(s, script).value;
            && !t.lib.live && id in t.holders && t.holders[id].replies == Endings(s.holders[id].jobs)
            && (t.lib.open <==> Abandoned(t.lib.log))
  {
    hide AllRight, Abandoned, Run, ClosingScript, Listening;
    script := PumpFinishes(s, id);
    var t := Run(s, script).value;
    IdleEnds(t, id);
    RunThen(s, script, ClosingScript(id, 0));
    FreeOpen(Run(t, ClosingScript(id, 0)).value);
    script := script + ClosingScript(id, 0);
  }

  lemma {:induction false} FreeOpen(s: Process)
    requires AllRight(s) && !s.lib.live
    ensures s.lib.open <==> Abandoned(s.lib.log)
  {
    hide Trace;
  }

  lemma {:induction false} RunThen(s: Process, a: Script, b: Script)
    requires Run(s, a).Some?
    ensures Run(s, a + b) == Run(Run(s, a).value, b)
    decreases |a|
  {
    hide Do, Possible;
    if a == [] {
      assert a + b == b;
    } else {
      assert (a + b)[1..] == a[1..] + b;
      RunThen(Do(s, a[0].0, a[0].1), a[1..], b);
    }
  }

  lemma {:induction false} NoSteps(s: Process)
    ensures Run(s, []) == Some(s)
  {
  }

  /** The process with the library and one holder replaced. */
  function At(s: Process, id: nat, lib: Library, h: Holder): Process {
    Process(lib, s.holders[id := h])
  }

  /** A run continued by one more step of the holder. */
  lemma {:induction false} RunOneMore(start: Process, script: Script, s: Process, id: nat, lib: Library, h: Holder,
                                      a: Action)
    requires Run(start, script) == Some(At(s, id, lib, h)) && Enabled(h, a)
    ensures Run(start, script + [(id, a)]) == Some(At(s, id, Act(lib, id, h, a).0, Act(lib, id, h, a).1))
  {
    hide Act;
    RunThen(start, script, [(id, a)]);
    var g := Act(lib, id, h, a).1;
    assert s.holders[id := h][id := g] == s.holders[id := g];
  }

  lemma {:induction false} RunStart(start: Process, script: Script, s: Process, id: nat, lib: Library, h: Holder)
    requires Run(start, script) == Some(At(s, id, lib, h)) && Enabled(h, StartJob)
    ensures Run(start, script + [(id, StartJob)])
         == Some(At(s, id, Note(lib, Started(id, h.ran)), h.(phase := InJob(0))))
  {
    hide Run, At;
    RunOneMore(start, script, s, id, lib, h, StartJob);
  }

  lemma {:induction false} RunAdvance(start: Process, script: Script, s: Process, id: nat, lib: Library, h: Holder)
    requires Run(start, script) == Some(At(s, id, lib, h)) && Enabled(h, Advance)
    ensures var u := h.jobs[h.ran].body[h.phase.pos];
            var (t, g) := DoUse(lib, h, u);
            var after := At(s, id, Note(t, Did(id, h.ran, u)), g.(phase := InJob(h.phase.pos + 1)));
            Run(start, script + [(id, Advance)]) == Some(after)
  {
    hide Run, At, DoUse;
    RunOneMore(start, script, s, id, lib, h, Advance);
  }

  /** The answer, which ends the inner catch, and the return to the pump, which ends the outer one. */
  lemma {:induction false} RunAnswer(start: Process, script: Script, s: Process, id: nat, lib: Library, h: Holder)
    requires Run(start, script) == Some(At(s, id, lib, h)) && Enabled(h, Answer)
    ensures var ending := h.jobs[h.ran].ending;
            var g := h.(phase := Idle, ran := h.ran + 1, replies := h.replies[h.ran := Got(ending)]);
            var t := Note(lib, Answered(id, h.ran, ending));
            Run(start, script + [(id, Answer), (id, Return)]) == Some(At(s, id, t, g))
  {
    hide Run, At;
    var ending := h.jobs[h.ran].ending;
    RunOneMore(start, script, s, id, lib, h, Answer);
    RunOneMore(start, script + [(id, Answer)], s, id, Note(lib, Answered(id, h.ran, ending)),
               h.(phase := Replied, replies := h.replies[h.ran := Got(ending)]), Return);
    assert script + [(id, Answer)] + [(id, Return)] == script + [(id, Answer), (id, Return)];
  }

  function Waits(n: nat): (r: seq<Reply>)
    ensures |r| == n
  {
    seq(n, _ => Waiting)
  }

  function SendScript(id: nat, batch: seq<Job>): Script {
    seq(|batch|, i requires 0 <= i < |batch| => (id, Send(batch[i])))
  }

  /** Calls that reach a listening actor one after another. */
  lemma {:induction false} RunSends(start: Process, script: Script, s: Process, id: nat, lib: Library, h: Holder,
                                    batch: seq<Job>)
    requires Run(start, script) == Some(At(s, id, lib, h)) && HasHandle(h) && Listening(h.phase)
    ensures Run(start, script + SendScript(id, batch))
         == Some(At(s, id, lib, h.(jobs := h.jobs + batch, replies := h.replies + Waits(|batch|))))
    decreases |batch|
  {
    hide Run, At;
    if batch == [] {
      assert script + SendScript(id, batch) == script;
      assert h.jobs + batch == h.jobs && h.replies + Waits(0) == h.replies;
    } else {
      var n := |batch| - 1;
      var (front, last) := (batch[..n], batch[n]);
      RunSends(start, script, s, id, lib, h, front);
      var g := h.(jobs := h.jobs + front, replies := h.replies + Waits(n));
      RunOneMore(start, script + SendScript(id, front), s, id, lib, g, Send(last));
      assert script + SendScript(id, front) + [(id, Send(last))] == script + SendScript(id, batch);
      assert h.jobs + front + [last] == h.jobs + batch;
      assert h.replies + Waits(n) + [Waiting] == h.replies + Waits(|batch|);
    }
  }

  /** The last handle goes, the pump ends and the database is closed. */
  lemma {:induction false} RunClosing(start: Process, script: Script, s: Process, id: nat, lib: Library, h: Holder)
    requires Run(start, script) == Some(At(s, id, lib, h)) && HasHandle(h) && h.handles == 1
    requires Enabled(h.(handles := 0), PumpExit)
    ensures var (t, g) := CloseDatabase(lib, h);
            var after := At(s, id, t, g.(phase := ClosedDown, handles := 0));
            Run(start, script + [(id, DropHandle), (id, PumpExit), (id, CloseDown)]) == Some(after)
  {
    hide Run, At, Forward;
    RunOneMore(start, script, s, id, lib, h, DropHandle);
    RunOneMore(start, script + [(id, DropHandle)], s, id, lib, h.(handles := 0), PumpExit);
    RunOneMore(start, script + [(id, DropHandle)] + [(id, PumpExit)], s, id, lib, h.(handles := 0, phase := Exiting),
               CloseDown);
    assert script + [(id, DropHandle)] + [(id, PumpExit)] + [(id, CloseDown)]
        == script + [(id, DropHandle), (id, PumpExit), (id, CloseDown)];
  }
}
