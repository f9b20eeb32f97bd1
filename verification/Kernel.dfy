/**
Ownership of the one process-wide kernel: the claim, library initialization, the thread-affinity global, the
database that moves between threads, and the actor that runs jobs on its own thread, as one transition system.
*/
module Kernel {
  import opened Bytes

  type Thread = nat

  /** A step of code that holds the database; whether the kernel plays along is part of the step. */
  datatype Use = Call | Decompile(address: nat, ready: bool, ok: bool) | Open(ok: bool) | Close

  /** How a closure ends: the inner catch turns a panic into a value of its own. */
  datatype Ending = Value(v: int) | Panicked(payload: int)

  /** One call through a handle: its caller, what its closure does with the database, and how that ends. */
  datatype Job = Job(caller: Thread, body: seq<Use>, ending: Ending)

  /** The reply channel of one call. */
  datatype Reply = Waiting | Got(ending: Ending) | Disconnected

  datatype App = NotRun | Running | Returned | Unwound

  /**
  Where a holder of the claim is. An actor's thread goes from its set-up through the pump to its end, and is
  joined by the thread that runs the application; an owned database is used wherever it was moved.
  */
  datatype Phase =
    | Starting
    | Initializing
    | Owned
    | Idle
    | InJob(pos: nat)
    | Replied
    | Exiting
    | ClosedDown
    | Ended
    | Joined
    | Released

  datatype Holder = Holder(actor: bool, thread: Thread, phase: Phase, isOpen: bool, hexrays: bool,
                           jobs: seq<Job>, replies: seq<Reply>, ran: nat, handles: nat, app: App)

  /** What the kernel library sees, and the milestones of every job. */
  datatype Effect =
    | Called(caller: Thread, main: Option<Thread>)
    | Initialized(ok: bool, caller: Thread, main: Option<Thread>)
    | Opened
    | Closed(wasOpen: bool)
    | Dropped(isOpen: bool)
    | Started(id: nat, job: nat)
    | Did(id: nat, job: nat, use: Use)
    | Answered(id: nat, job: nat, ending: Ending)

  /** The process globals, and what the kernel library itself tracks. */
  datatype Library = Library(live: bool, inited: bool, main: Option<Thread>, open: bool, cached: set<nat>,
                             log: seq<Effect>)

  datatype Process = Process(lib: Library, holders: map<nat, Holder>)

  datatype Action =
    | Acquire(thread: Thread, actor: bool)
    | BringUp(located: bool)
    | InitDone(ok: bool)
    | UseOwned(use: Use)
    | Move(to: Thread)
    | Send(job: Job)
    | StartJob
    | Advance
    | Answer
    | Return
    | PumpExit
    | CloseDown
    | EndThread
    | AppEnds(panicked: bool)
    | CloneHandle
    | DropHandle
    | Join
    | Release

  // ---------------------------------------------------------------- the affinity global

  /** The library's own test: a null global claims the caller. */
  function IsMainThread(main: Option<Thread>, caller: Thread): (bool, Option<Thread>) {
    if main.None? then (true, Some(caller)) else (main == Some(caller), main)
  }

  function Reclaim(caller: Thread): (bool, Option<Thread>) {
    IsMainThread(None, caller)
  }

  function EnsureKernelThread(main: Option<Thread>, caller: Thread): Option<Thread> {
    var (mine, after) := IsMainThread(main, caller);
    if mine then after else Reclaim(caller).1
  }

  // ---------------------------------------------------------------- using the database

  function Note(lib: Library, e: Effect): Library {
    lib.(log := lib.log + [e])
  }

  /** Any forwarded call: the global is re-pointed at the calling thread first. */
  function Forward(lib: Library, caller: Thread): Library {
    var main := EnsureKernelThread(lib.main, caller);
    Note(lib.(main := main), Called(caller, main))
  }

  /** The decompiler is made ready at its first use; only an open database has anything to cache. */
  function DecompileAt(lib: Library, h: Holder, address: nat, ready: bool, ok: bool): (Library, Holder) {
    var t := Forward(lib, h.thread);
    if !h.hexrays && !ready then (t, h)
    else (if ok && t.open then t.(cached := t.cached + {address}) else t, h.(hexrays := true))
  }

  function OpenDatabase(lib: Library, h: Holder, ok: bool): (Library, Holder) {
    var t := Forward(lib, h.thread);
    if ok then (Note(t.(open := true), Opened), h.(isOpen := true)) else (t, h)
  }

  /** Evicts every cached decompilation, if the decompiler was ever made ready. */
  function ClearCache(lib: Library, caller: Thread, hexrays: bool): Library {
    if hexrays then Forward(lib, caller).(cached := {}) else lib
  }

  /** Closing does nothing unless this database tracks itself as open; else what is per-database goes with it. */
  function CloseDatabase(lib: Library, h: Holder): (Library, Holder) {
    if !h.isOpen then (lib, h)
    else
      var t := Forward(ClearCache(lib, h.thread, h.hexrays), h.thread);
      (Note(t.(open := false), Closed(t.open)), h.(isOpen := false, hexrays := false))
  }

  function DoUse(lib: Library, h: Holder, u: Use): (Library, Holder) {
    match u
    case Call => (Forward(lib, h.thread), h)
    case Decompile(address, ready, ok) => DecompileAt(lib, h, address, ready, ok)
    case Open(ok) => OpenDatabase(lib, h, ok)
    case Close => CloseDatabase(lib, h)
  }

  // ---------------------------------------------------------------- steps

  predicate HasHandle(h: Holder) {
    h.app != NotRun && h.handles > 0
  }

  predicate Enabled(h: Holder, a: Action) {
    match a
    case Acquire(_, _) => false
    case BringUp(_) => h.phase == Starting
    case InitDone(_) => h.phase == Initializing
    case UseOwned(_) => h.phase == Owned
    case Move(_) => h.phase == Owned
    case Send(_) => HasHandle(h)
    case StartJob => h.phase == Idle && h.ran < |h.jobs|
    case Advance => h.phase.InJob? && h.ran < |h.jobs| && h.phase.pos < |h.jobs[h.ran].body|
    case Answer =>
      && h.phase.InJob? && h.ran < |h.jobs| && |h.replies| == |h.jobs|
      && h.phase.pos == |h.jobs[h.ran].body|
    case Return => h.phase == Replied
    case PumpExit => h.phase == Idle && h.ran == |h.jobs| && h.handles == 0
    case CloseDown => h.phase == Exiting
    case EndThread => h.phase == ClosedDown
    case AppEnds(_) => h.app == Running
    case CloneHandle => HasHandle(h)
    case DropHandle => HasHandle(h)
    case Join => h.phase == Ended && h.app != Running
    case Release => h.phase == Joined || h.phase == Owned
  }

  /** Set-up has succeeded: the actor's pump runs and so does the application, or the database is handed out. */
  function Up(h: Holder): Holder {
    if h.actor then h.(phase := Idle, app := Running, handles := 1) else h.(phase := Owned)
  }

  /** Set-up has failed: the actor's thread returns, to be joined; in place the claim is dropped at once. */
  function SetUpFails(lib: Library, h: Holder): (Library, Holder) {
    if h.actor then (lib, h.(phase := Ended)) else DropClaim(lib, h)
  }

  function DropClaim(lib: Library, h: Holder): (Library, Holder) {
    (Note(lib.(live := false), Dropped(h.isOpen)), h.(phase := Released))
  }

  function BringUpKernel(lib: Library, h: Holder, located: bool): (Library, Holder) {
    if !located then SetUpFails(lib, h)
    else
      var t := lib.(main := Reclaim(h.thread).1);
      if t.inited then (t, Up(h)) else (t.(inited := true), h.(phase := Initializing))
  }

  function InitLibrary(lib: Library, h: Holder, ok: bool): (Library, Holder) {
    var t := Note(lib, Initialized(ok, h.thread, lib.main));
    if ok then (t, Up(h)) else SetUpFails(t.(inited := false), h)
  }

  /** A receiver exists as long as the pump runs. */
  predicate Listening(p: Phase) {
    p == Idle || p.InJob? || p == Replied
  }

  /** Whoever still waits when the thread ends learns that it is gone. */
  function HangUp(replies: seq<Reply>): (r: seq<Reply>)
    ensures |r| == |replies|
  {
    seq(|replies|, i requires 0 <= i < |replies| => if replies[i] == Waiting then Disconnected else replies[i])
  }

  /** One step of the holder `id`, with what it does to the library. */
  function Act(lib: Library, id: nat, h: Holder, a: Action): (Library, Holder)
    requires Enabled(h, a)
  {
    match a
    case BringUp(located) => BringUpKernel(lib, h, located)
    case InitDone(ok) => InitLibrary(lib, h, ok)
    case UseOwned(u) => DoUse(lib, h, u)
    case Move(to) => (lib, h.(thread := to))
    case Send(job) =>
      (lib, h.(jobs := h.jobs + [job],
               replies := h.replies + [if Listening(h.phase) then Waiting else Disconnected]))
    case StartJob => (Note(lib, Started(id, h.ran)), h.(phase := InJob(0)))
    case Advance =>
      var u := h.jobs[h.ran].body[h.phase.pos];
      var (t, g) := DoUse(lib, h, u);
      (Note(t, Did(id, h.ran, u)), g.(phase := InJob(h.phase.pos + 1)))
    case Answer =>
      var ending := h.jobs[h.ran].ending;
      (Note(lib, Answered(id, h.ran, ending)), h.(replies := h.replies[h.ran := Got(ending)], phase := Replied))
    case Return => (lib, h.(phase := Idle, ran := h.ran + 1))
    case PumpExit => (lib, h.(phase := Exiting))
    case CloseDown => var (t, g) := CloseDatabase(lib, h); (t, g.(phase := ClosedDown))
    case EndThread => (lib, h.(phase := Ended, replies := HangUp(h.replies)))
    case AppEnds(panicked) => (lib, h.(app := if panicked then Unwound else Returned))
    case CloneHandle => (lib, h.(handles := h.handles + 1))
    case DropHandle => (lib, h.(handles := h.handles - 1))
    case Join => (lib, h.(phase := Joined))
    case Release => DropClaim(lib, h)
  }

  /** Swapping the flag in grants the claim exactly if nobody had it. */
  function AcquireClaim(s: Process, id: nat, thread: Thread, actor: bool): Process {
    if s.lib.live then s
    else Process(s.lib.(live := true),
                 s.holders[id := Holder(actor, thread, Starting, false, false, [], [], 0, 0, NotRun)])
  }

  predicate Possible(s: Process, id: nat, a: Action) {
    if a.Acquire? then id !in s.holders else id in s.holders && Enabled(s.holders[id], a)
  }

  function Do(s: Process, id: nat, a: Action): Process
    requires Possible(s, id, a)
  {
    if a.Acquire? then AcquireClaim(s, id, a.thread, a.actor)
    else var (lib, h) := Act(s.lib, id, s.holders[id], a); Process(lib, s.holders[id := h])
  }

  const FRESH := Process(Library(false, false, None, false, {}, []), map[])

  type Script = seq<(nat, Action)>

  function Run(s: Process, script: Script): Option<Process>
    decreases |script|
  {
    if script == [] then Some(s)
    else if !Possible(s, script[0].0, script[0].1) then None
    else Run(Do(s, script[0].0, script[0].1), script[1..])
  }

  // ---------------------------------------------------------------- what every run keeps

  predicate Live(h: Holder) {
    h.phase != Released
  }

  function Successes(log: seq<Effect>): nat {
    if log == [] then 0
    else
      var e := log[|log| - 1];
      Successes(log[..|log| - 1]) + if e.Initialized? && e.ok then 1 else 0
  }

  /** A database was given up open, and none has been opened since. */
  predicate Abandoned(log: seq<Effect>) {
    log != [] &&
    var e := log[|log| - 1];
    e == Dropped(true) || (e != Opened && Abandoned(log[..|log| - 1]))
  }

  predicate SafeEffect(e: Effect) {
    && (e.Called? ==> e.main == Some(e.caller))
    && (e.Initialized? ==> e.main == Some(e.caller))
    && (e.Closed? ==> e.wasOpen)
  }

  /** Calls and initialization run with the global naming the caller; no close while nothing is open. */
  predicate SafeLog(log: seq<Effect>) {
    forall k :: 0 <= k < |log| ==> SafeEffect(log[k])
  }

  /** No database was ever given up open. */
  predicate NoneAbandoned(log: seq<Effect>) {
    forall k :: 0 <= k < |log| ==> log[k] != Dropped(true)
  }

  /** Which phases belong to an actor, and when its application runs. */
  predicate Placed(h: Holder) {
    && (h.phase == Owned ==> !h.actor)
    && (h.phase == Starting || h.phase == Initializing || h.phase == Owned ==> h.app == NotRun)
    && (Listening(h.phase) || h.phase == Exiting || h.phase == ClosedDown ==> h.actor && h.app != NotRun)
    && (h.app != NotRun ==> h.actor)
    && (Past(h.phase) ==> !HasHandle(h))
    && (h.phase == Joined || h.phase == Released ==> h.app != Running)
  }

  /** The pump has ended. */
  predicate Past(p: Phase) {
    p == Exiting || p == ClosedDown || p == Ended || p == Joined || p == Released
  }

  /** Before its database exists, and past the close at the end of an actor's thread. */
  predicate MustBeClosed(p: Phase) {
    p == Starting || p == Initializing || p == ClosedDown || p == Ended || p == Joined
  }

  predicate InitOnce(lib: Library, attempting: bool) {
    && Successes(lib.log) <= 1
    && (lib.inited <==> Successes(lib.log) == 1 || attempting)
    && (attempting ==> Successes(lib.log) == 0)
  }

  /**
  The library with one live holder. It was initialized at most once, and before it is used; the kernel has a
  database open exactly if the holder's flag says so or one was abandoned; a cached decompilation belongs to
  the open database unless one was ever abandoned.
  */
  predicate Held(lib: Library, h: Holder) {
    && Placed(h)
    && InitOnce(lib, h.phase == Initializing)
    && (h.phase == Owned || h.app != NotRun ==> Successes(lib.log) == 1)
    && (h.phase == Initializing ==> lib.main == Some(h.thread))
    && (lib.open <==> h.isOpen || Abandoned(lib.log))
    && (h.isOpen ==> !Abandoned(lib.log) && !MustBeClosed(h.phase))
    && (NoneAbandoned(lib.log) && lib.cached != {} ==> h.isOpen && h.hexrays)
  }

  /** The library with nobody holding the claim. */
  predicate Free(lib: Library) {
    && InitOnce(lib, false)
    && (lib.open <==> Abandoned(lib.log))
    && (NoneAbandoned(lib.log) ==> lib.cached == {})
  }

  predicate After(lib: Library, h: Holder) {
    Placed(h) && if Live(h) then lib.live && Held(lib, h) else !lib.live && Free(lib)
  }

  /** At most one live holder, exactly while the claim is taken. */
  predicate Exclusive(s: Process) {
    && (forall i, j :: i in s.holders && Live(s.holders[i]) && j in s.holders && Live(s.holders[j]) ==> i == j)
    && (s.lib.live <==> exists i :: i in s.holders && Live(s.holders[i]))
  }

  predicate Invariant(s: Process) {
    && Exclusive(s) && SafeLog(s.lib.log)
    && (forall i :: i in s.holders ==> Placed(s.holders[i]) && (Live(s.holders[i]) ==> Held(s.lib, s.holders[i])))
    && (!s.lib.live ==> Free(s.lib))
  }

  // ---------------------------------------------------------------- one more effect

  lemma {:induction false} NoteMeans(lib: Library, e: Effect)
    ensures var log := Note(lib, e).log;
            && Successes(log) == Successes(lib.log) + (if e.Initialized? && e.ok then 1 else 0)
            && (Abandoned(log) <==> e == Dropped(true) || (e != Opened && Abandoned(lib.log)))
            && (NoneAbandoned(log) <==> NoneAbandoned(lib.log) && e != Dropped(true))
            && (SafeLog(log) <==> SafeLog(lib.log) && SafeEffect(e))
  {
    var log := Note(lib, e).log;
    assert log[..|log| - 1] == lib.log && log[|log| - 1] == e;
    assert forall k :: 0 <= k < |lib.log| ==> log[k] == lib.log[k];
  }

  /** What steps that touch neither the flags nor the library's initialization leave as it was. */
  predicate SameCounts(a: Library, b: Library) {
    && Successes(b.log) == Successes(a.log) && (Abandoned(b.log) <==> Abandoned(a.log))
    && (NoneAbandoned(b.log) <==> NoneAbandoned(a.log))
  }

  lemma {:induction false} ForwardKeeps(lib: Library, caller: Thread)
    ensures var t := Forward(lib, caller);
            && t == lib.(main := t.main, log := t.log) && t.main == Some(caller)
            && SameCounts(lib, t) && (SafeLog(lib.log) ==> SafeLog(t.log))
  {
    hide Successes, Abandoned, NoneAbandoned, SafeLog;
    var main := EnsureKernelThread(lib.main, caller);
    NoteMeans(lib.(main := main), Called(caller, main));
  }

  predicate Uses(h: Holder) {
    Live(h) && !MustBeClosed(h.phase)
  }

  /** What using the database keeps, whatever the use. */
  predicate UseKeeps(lib: Library, h: Holder, t: Library, g: Holder) {
    && g == h.(isOpen := g.isOpen, hexrays := g.hexrays) && t.live == lib.live
    && Held(t, g) && (SafeLog(lib.log) ==> SafeLog(t.log))
  }

  lemma {:induction false} CallKeeps(lib: Library, h: Holder, u: Use)
    requires Held(lib, h) && Uses(h) && (u.Call? || u.Decompile?)
    ensures UseKeeps(lib, h, DoUse(lib, h, u).0, DoUse(lib, h, u).1)
  {
    hide Successes, Abandoned, NoneAbandoned, SafeLog, Forward;
    ForwardKeeps(lib, h.thread);
    AbandonedOnce(lib.log);
  }

  lemma {:induction false} AbandonedOnce(log: seq<Effect>)
    ensures Abandoned(log) ==> !NoneAbandoned(log)
    decreases |log|
  {
    if log != [] && log[|log| - 1] != Dropped(true) && Abandoned(log) {
      AbandonedOnce(log[..|log| - 1]);
      var k :| 0 <= k < |log| - 1 && log[k] == Dropped(true);
    }
  }

  lemma {:induction false} OpenKeeps(lib: Library, h: Holder, ok: bool)
    requires Held(lib, h) && Uses(h)
    ensures UseKeeps(lib, h, OpenDatabase(lib, h, ok).0, OpenDatabase(lib, h, ok).1)
  {
    hide Successes, Abandoned, NoneAbandoned, SafeLog, Forward;
    var t := Forward(lib, h.thread);
    ForwardKeeps(lib, h.thread);
    NoteMeans(t.(open := true), Opened);
    AbandonedOnce(lib.log);
  }

  /** A close reaches the kernel only with this database open, and takes what is per-database with it. */
  lemma {:induction false} CloseKeeps(lib: Library, h: Holder)
    requires Held(lib, h) && Uses(h)
    ensures var (t, g) := CloseDatabase(lib, h);
            && UseKeeps(lib, h, t, g) && !g.isOpen && (t.open <==> Abandoned(t.log))
            && (NoneAbandoned(t.log) ==> t.cached == {})
  {
    hide Successes, Abandoned, NoneAbandoned, SafeLog, Forward;
    if h.isOpen {
      var t := ClearCache(lib, h.thread, h.hexrays);
      ForwardKeeps(lib, h.thread);
      ForwardKeeps(t, h.thread);
      var u := Forward(t, h.thread);
      NoteMeans(u.(open := false), Closed(u.open));
    }
  }

  lemma {:induction false} DoUseKeeps(lib: Library, h: Holder, u: Use)
    requires Held(lib, h) && Uses(h)
    ensures UseKeeps(lib, h, DoUse(lib, h, u).0, DoUse(lib, h, u).1)
  {
    hide Held, UseKeeps, OpenDatabase, CloseDatabase;
    match u
    case Open(ok) => OpenKeeps(lib, h, ok);
    case Close => CloseKeeps(lib, h);
    case _ => CallKeeps(lib, h, u);
  }

  // ---------------------------------------------------------------- every action

  /** What a step of the live holder keeps. */
  predicate ActKeeps(lib: Library, id: nat, h: Holder, a: Action)
    requires Enabled(h, a)
  {
    var (t, g) := Act(lib, id, h, a);
    After(t, g) && (SafeLog(lib.log) ==> SafeLog(t.log))
  }

  lemma {:induction false} DropKeeps(lib: Library, h: Holder)
    requires Held(lib, h) && (h.phase == Starting || h.phase == Owned || h.phase == Joined)
    ensures var (t, g) := DropClaim(lib, h);
            After(t, g) && !Live(g) && (SafeLog(lib.log) ==> SafeLog(t.log))
  {
    hide Successes, Abandoned, NoneAbandoned, SafeLog;
    NoteMeans(lib.(live := false), Dropped(h.isOpen));
    AbandonedOnce(lib.log);
  }

  /** A failed set-up leaves the kernel to be claimed again, now or once its thread is joined. */
  lemma {:induction false} SetUpFailsKeeps(lib: Library, h: Holder)
    requires Held(lib, h.(phase := Starting)) && lib.live && h.app == NotRun
    ensures var (t, g) := SetUpFails(lib, h);
            After(t, g) && (SafeLog(lib.log) ==> SafeLog(t.log))
  {
    hide Successes, Abandoned, NoneAbandoned, SafeLog, DropClaim;
    if !h.actor {
      DropKeeps(lib, h.(phase := Starting));
      SameDrop(lib, h);
    }
  }

  lemma {:induction false} SameDrop(lib: Library, h: Holder)
    ensures DropClaim(lib, h) == DropClaim(lib, h.(phase := Starting))
  {
  }

  /** A failed initialization clears the flag for a retry; a second success is never possible. */
  lemma {:induction false} SetUpKeeps(lib: Library, id: nat, h: Holder, a: Action)
    requires Held(lib, h) && lib.live && Enabled(h, a) && (a.BringUp? || a.InitDone?)
    ensures ActKeeps(lib, id, h, a)
  {
    hide Successes, Abandoned, NoneAbandoned, SafeLog, SetUpFails;
    if a.InitDone? {
      NoteMeans(lib, Initialized(a.ok, h.thread, lib.main));
      var t := Note(lib, Initialized(a.ok, h.thread, lib.main));
      if !a.ok {
        SetUpFailsKeeps(t.(inited := false), h);
      }
    } else if !a.located {
      SetUpFailsKeeps(lib, h);
    }
  }

  lemma {:induction false} UsingKeeps(lib: Library, id: nat, h: Holder, a: Action)
    requires Held(lib, h) && lib.live && Enabled(h, a) && (a.UseOwned? || a.Advance?)
    ensures ActKeeps(lib, id, h, a)
  {
    hide Successes, Abandoned, NoneAbandoned, SafeLog, DoUse;
    var u := if a.UseOwned? then a.use else h.jobs[h.ran].body[h.phase.pos];
    DoUseKeeps(lib, h, u);
    if a.Advance? {
      NoteMeans(DoUse(lib, h, u).0, Did(id, h.ran, u));
    }
  }

  lemma {:induction false} CloseDownKeeps(lib: Library, id: nat, h: Holder)
    requires Held(lib, h) && lib.live && Enabled(h, CloseDown)
    ensures ActKeeps(lib, id, h, CloseDown)
  {
    hide Successes, Abandoned, NoneAbandoned, SafeLog, CloseDatabase;
    CloseKeeps(lib, h);
  }

  lemma {:induction false} OtherKeeps(lib: Library, id: nat, h: Holder, a: Action)
    requires Held(lib, h) && lib.live && Live(h) && Enabled(h, a)
    requires !a.BringUp? && !a.InitDone? && !a.UseOwned? && !a.Advance? && !a.CloseDown? && !a.Release?
    ensures ActKeeps(lib, id, h, a)
  {
    hide Successes, Abandoned, NoneAbandoned, SafeLog;
    if a.StartJob? {
      NoteMeans(lib, Started(id, h.ran));
    } else if a.Answer? {
      NoteMeans(lib, Answered(id, h.ran, h.jobs[h.ran].ending));
    }
  }

  lemma {:induction false} EachActKeeps(lib: Library, id: nat, h: Holder, a: Action)
    requires Held(lib, h) && lib.live && Live(h) && Enabled(h, a)
    ensures ActKeeps(lib, id, h, a)
  {
    hide Held, Enabled;
    if a.BringUp? || a.InitDone? {
      SetUpKeeps(lib, id, h, a);
    } else if a.UseOwned? || a.Advance? {
      UsingKeeps(lib, id, h, a);
    } else if a.CloseDown? {
      CloseDownKeeps(lib, id, h);
    } else if a.Release? {
      DropsWhen(h);
      DropKeeps(lib, h);
    } else {
      OtherKeeps(lib, id, h, a);
    }
  }

  lemma {:induction false} DropsWhen(h: Holder)
    ensures Enabled(h, Release) ==> h.phase == Owned || h.phase == Joined
  {
  }

  lemma {:induction false} AcquireKeeps(s: Process, id: nat, thread: Thread, actor: bool)
    requires Invariant(s) && id !in s.holders
    ensures Invariant(AcquireClaim(s, id, thread, actor))
  {
    hide Successes, Abandoned, NoneAbandoned, SafeLog;
    AbandonedOnce(s.lib.log);
    var t := AcquireClaim(s, id, thread, actor);
    if !s.lib.live {
      assert Live(t.holders[id]);
    }
  }

  lemma {:induction false} StepKeeps(s: Process, id: nat, a: Action)
    requires Invariant(s) && Possible(s, id, a)
    ensures Invariant(Do(s, id, a))
  {
    if a.Acquire? {
      AcquireKeeps(s, id, a.thread, a.actor);
    } else {
      OnlyLiveAct(s.holders[id], a);
      EachActKeeps(s.lib, id, s.holders[id], a);
      ReplaceKeeps(s, id, Act(s.lib, id, s.holders[id], a).0, Act(s.lib, id, s.holders[id], a).1);
    }
  }

  /** A released holder takes no further step. */
  lemma {:induction false} OnlyLiveAct(h: Holder, a: Action)
    requires Placed(h) && Enabled(h, a)
    ensures Live(h)
  {
  }

  lemma {:induction false} ReplaceKeeps(s: Process, id: nat, t: Library, g: Holder)
    requires Invariant(s) && id in s.holders && Live(s.holders[id]) && After(t, g) && SafeLog(t.log)
    ensures Invariant(Process(t, s.holders[id := g]))
  {
    hide SafeLog, Held, Free, Placed;
    if Live(g) {
      assert Live(s.holders[id := g][id]);
    }
  }

  lemma {:induction false} RunKeeps(s: Process, script: Script)
    requires Invariant(s) && Run(s, script).Some?
    ensures Invariant(Run(s, script).value)
    decreases |script|
  {
    hide Do, Possible, Invariant;
    if script != [] {
      StepKeeps(s, script[0].0, script[0].1);
      RunKeeps(Do(s, script[0].0, script[0].1), script[1..]);
    }
  }

  lemma {:induction false} FreshHolds()
    ensures Invariant(FRESH)
  {
  }

  /**
  In every run of the process: at most one holder of the claim; at most one successful initialization, before
  anything uses the library; every call made on the thread the global names; no close while nothing is open.
  */
  lemma {:induction false} EveryRunSafe(script: Script)
    requires Run(FRESH, script).Some?
    ensures Invariant(Run(FRESH, script).value)
  {
    FreshHolds();
    RunKeeps(FRESH, script);
  }

  // ---------------------------------------------------------------- which thread a holder is on

  /** Step `p` of the script is the last that put `id` on a thread: the claim it took, or the last move. */
  predicate PutLast(script: Script, id: nat, p: nat) {
    && p < |script| && Puts(script[p], id)
    && forall q :: p < q < |script| ==> !Puts(script[q], id)
  }

  predicate Puts(step: (nat, Action), id: nat) {
    step.0 == id && (step.1.Acquire? || step.1.Move?)
  }

  /** Where such a step puts its holder. */
  function Target(a: Action): Thread
    requires a.Acquire? || a.Move?
  {
    match a case Acquire(thread, _) => thread case Move(to) => to
  }

  lemma {:induction false} UseStays(lib: Library, h: Holder, u: Use)
    ensures DoUse(lib, h, u).1.thread == h.thread
  {
  }

  lemma {:induction false} ActThread(lib: Library, id: nat, h: Holder, a: Action)
    requires Enabled(h, a)
    ensures Act(lib, id, h, a).1.thread == if a.Move? then a.to else h.thread
  {
    hide DoUse;
    if a.UseOwned? {
      UseStays(lib, h, a.use);
    } else if a.Advance? {
      UseStays(lib, h, h.jobs[h.ran].body[h.phase.pos]);
    }
  }

  lemma {:induction false} PutLater(script: Script, id: nat, p: nat)
    requires p > 0 && PutLast(script, id, p)
    ensures PutLast(script[1..], id, p - 1) && script[1..][p - 1] == script[p]
  {
  }

  /** A holder is where the script last put it, or where it was. */
  lemma {:induction false} RunThread(s: Process, script: Script, id: nat)
    requires Run(s, script).Some? && id in Run(s, script).value.holders
    ensures var thread := Run(s, script).value.holders[id].thread;
            && (forall p: nat :: PutLast(script, id, p) ==> thread == Target(script[p].1))
            && ((forall p :: 0 <= p < |script| ==> !Puts(script[p], id)) ==>
                  id in s.holders && thread == s.holders[id].thread)
    decreases |script|
  {
    hide Act, Enabled;
    if script != [] {
      var ((i, a), rest) := (script[0], script[1..]);
      var t := Do(s, i, a);
      RunThread(t, rest, id);
      if !a.Acquire? {
        ActThread(s.lib, i, s.holders[i], a);
      }
      var thread := Run(s, script).value.holders[id].thread;
      assert forall q :: 0 <= q < |rest| ==> rest[q] == script[q + 1];
      forall p: nat | PutLast(script, id, p) ensures thread == Target(script[p].1) {
        if p > 0 {
          PutLater(script, id, p);
        }
      }
    }
  }

  /** An effect that is no call or initialization, or one made on `thread` with the global naming it. */
  predicate OnThread(e: Effect, thread: Thread) {
    && (e.Called? ==> e.caller == thread && e.main == Some(thread))
    && (e.Initialized? ==> e.caller == thread && e.main == Some(thread))
  }

  /** The log only grows, by effects on `thread`. */
  predicate Adds(a: Library, b: Library, thread: Thread) {
    a.log <= b.log && forall k :: |a.log| <= k < |b.log| ==> OnThread(b.log[k], thread)
  }

  lemma {:induction false} AddsNote(a: Library, b: Library, e: Effect, thread: Thread)
    requires Adds(a, b, thread) && OnThread(e, thread)
    ensures Adds(a, Note(b, e), thread)
  {
  }

  lemma {:induction false} ForwardAdds(a: Library, b: Library, thread: Thread)
    requires Adds(a, b, thread)
    ensures Adds(a, Forward(b, thread), thread)
  {
    var main := EnsureKernelThread(b.main, thread);
    AddsNote(a, b.(main := main), Called(thread, main), thread);
  }

  lemma {:induction false} UseAdds(lib: Library, h: Holder, u: Use)
    ensures Adds(lib, DoUse(lib, h, u).0, h.thread)
  {
    hide Forward, Adds;
    assert Adds(lib, lib, h.thread) by { AddsNothing(lib, h.thread); }
    match u
    case Close => CloseAdds(lib, h);
    case Open(_) =>
      ForwardAdds(lib, lib, h.thread);
      AddsSame(lib, Forward(lib, h.thread), h.thread);
      AddsNote(lib, Forward(lib, h.thread).(open := true), Opened, h.thread);
    case _ =>
      ForwardAdds(lib, lib, h.thread);
      AddsSame(lib, Forward(lib, h.thread), h.thread);
  }

  lemma {:induction false} AddsNothing(lib: Library, thread: Thread)
    ensures Adds(lib, lib, thread)
  {
  }

  lemma {:induction false} AddsSame(a: Library, b: Library, thread: Thread)
    requires Adds(a, b, thread)
    ensures forall c: Library :: c.log == b.log ==> Adds(a, c, thread)
  {
  }

  lemma {:induction false} CloseAdds(lib: Library, h: Holder)
    ensures Adds(lib, CloseDatabase(lib, h).0, h.thread)
  {
    hide Forward, Adds;
    AddsNothing(lib, h.thread);
    ForwardAdds(lib, lib, h.thread);
    AddsSame(lib, Forward(lib, h.thread), h.thread);
    var t := ClearCache(lib, h.thread, h.hexrays);
    ForwardAdds(lib, t, h.thread);
    var u := Forward(t, h.thread);
    AddsSame(lib, u, h.thread);
    AddsNote(lib, u.(open := false), Closed(u.open), h.thread);
  }

  lemma {:induction false} ActAdds(lib: Library, id: nat, h: Holder, a: Action)
    requires Enabled(h, a) && (h.phase == Initializing ==> lib.main == Some(h.thread))
    ensures Adds(lib, Act(lib, id, h, a).0, h.thread)
  {
    hide DoUse, CloseDatabase;
    match a
    case UseOwned(u) => UseAdds(lib, h, u);
    case Advance => UseAdds(lib, h, h.jobs[h.ran].body[h.phase.pos]);
    case CloseDown => CloseAdds(lib, h);
    case _ =>
  }

  lemma {:induction false} WasPut(s: Process, script: Script, id: nat)
    requires Run(s, script).Some? && id in Run(s, script).value.holders && id !in s.holders
    ensures exists p: nat :: PutLast(script, id, p)
    decreases |script|
  {
    RunThread(s, script, id);
    var p: nat :| p < |script| && Puts(script[p], id);
    LastPut(script, id, p);
  }

  lemma {:induction false} LastPut(script: Script, id: nat, p: nat)
    requires p < |script| && Puts(script[p], id)
    ensures exists q: nat :: PutLast(script, id, q)
    decreases |script| - p
  {
    if exists q :: p < q < |script| && Puts(script[q], id) {
      var q :| p < q < |script| && Puts(script[q], id);
      LastPut(script, id, q);
    } else {
      assert PutLast(script, id, p);
    }
  }

  /**
  In every run, from the script alone: a holder is on the thread of its last move, or on the one that claimed the
  kernel if it never moved, and every call and initialization its next step makes is made on that thread, with
  the global naming it.
  */
  lemma {:induction false} CallsWhereMoved(script: Script, id: nat, a: Action)
    requires Run(FRESH, script).Some? && !a.Acquire? && Possible(Run(FRESH, script).value, id, a)
    ensures exists p: nat :: PutLast(script, id, p)
    ensures forall p: nat :: PutLast(script, id, p) ==>
              var (s, thread) := (Run(FRESH, script).value, Target(script[p].1));
              && s.holders[id].thread == thread
              && (var log := Do(s, id, a).lib.log;
                  && s.lib.log <= log
                  && forall k :: |s.lib.log| <= k < |log| ==>
                       (log[k].Called? ==> log[k].caller == thread && log[k].main == Some(thread))
                       && (log[k].Initialized? ==> log[k].caller == thread && log[k].main == Some(thread)))
  {
    hide Act, Run, Successes, Abandoned, NoneAbandoned, SafeLog, PutLast;
    EveryRunSafe(script);
    var s := Run(FRESH, script).value;
    OnlyLiveAct(s.holders[id], a);
    WasPut(FRESH, script, id);
    RunThread(FRESH, script, id);
    ActAdds(s.lib, id, s.holders[id], a);
  }

  /**
  In every reachable state, so also after a job that panicked half way, the kernel has a database open exactly
  if the flag of whoever holds the claim says so, unless one was abandoned before.
  */
  lemma {:induction false} FlagIsRight(script: Script, id: nat)
    requires Run(FRESH, script).Some? && id in Run(FRESH, script).value.holders
    requires Live(Run(FRESH, script).value.holders[id])
    ensures var t := Run(FRESH, script).value;
            && (t.holders[id].isOpen ==> t.lib.open && !Abandoned(t.lib.log))
            && (!Abandoned(t.lib.log) ==> (t.lib.open <==> t.holders[id].isOpen))
            && (NoneAbandoned(t.lib.log) && !t.holders[id].isOpen ==> t.lib.cached == {})
  {
    hide Abandoned, NoneAbandoned, SafeLog, Successes;
    EveryRunSafe(script);
  }

  /** An unclaimed kernel has a database open exactly if one was given up open and none opened since. */
  lemma {:induction false} FreeKernelIsClosed(script: Script)
    requires Run(FRESH, script).Some?
    ensures var lib := Run(FRESH, script).value.lib;
            && (!lib.live ==> (lib.open <==> Abandoned(lib.log)))
            && (!lib.live && NoneAbandoned(lib.log) ==> !lib.open && lib.cached == {})
  {
    EveryRunSafe(script);
    AbandonedOnce(Run(FRESH, script).value.lib.log);
  }

  /** Giving up the claim gives up an open database only from an owned database that was not closed. */
  lemma {:induction false} ReleaseLeavesClosed(s: Process, id: nat)
    requires Invariant(s) && Possible(s, id, Release)
    ensures var t := Do(s, id, Release);
            && !t.lib.live && t.lib.log == s.lib.log + [Dropped(s.holders[id].isOpen)]
            && (s.holders[id].isOpen ==> !s.holders[id].actor && t.lib.open)
            && (!s.holders[id].isOpen ==> (t.lib.open <==> Abandoned(s.lib.log)))
  {
    hide Abandoned, NoneAbandoned, Successes;
  }

  /** Dropping an owned database while it is open frees the kernel with the database still open in it. */
  lemma {:induction false} DroppedWhileOpen(id: nat, thread: Thread)
    ensures var script := [(id, Acquire(thread, false)), (id, BringUp(true)), (id, InitDone(true)),
                           (id, UseOwned(Open(true))), (id, Release)];
            && Run(FRESH, script).Some? && !Run(FRESH, script).value.lib.live && Run(FRESH, script).value.lib.open
  {
    var s1 := Do(FRESH, id, Acquire(thread, false));
    var s2 := Do(s1, id, BringUp(true));
    var s3 := Do(s2, id, InitDone(true));
    var s4 := Do(s3, id, UseOwned(Open(true)));
    RunStep(s4, (id, Release), []);
    RunStep(s3, (id, UseOwned(Open(true))), [(id, Release)]);
    RunStep(s2, (id, InitDone(true)), [(id, UseOwned(Open(true))), (id, Release)]);
    RunStep(s1, (id, BringUp(true)), [(id, InitDone(true)), (id, UseOwned(Open(true))), (id, Release)]);
    RunStep(FRESH, (id, Acquire(thread, false)),
            [(id, BringUp(true)), (id, InitDone(true)), (id, UseOwned(Open(true))), (id, Release)]);
  }

  lemma {:induction false} RunStep(s: Process, step: (nat, Action), rest: Script)
    requires Possible(s, step.0, step.1)
    ensures Run(s, [step] + rest) == Run(Do(s, step.0, step.1), rest)
  {
    assert ([step] + rest)[1..] == rest;
  }
}
