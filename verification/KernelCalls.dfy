/**
The code behind the ownership protocol: the claim, bring-up, forwarded calls, opening and closing a database,
and the actor's pump, each method doing exactly the steps of `Kernel`.
*/
module KernelCalls {
  import opened Bytes
  import K = Kernel
  import KJ = KernelJobs

  datatype BringUp = Ready | ClaimFailed | InitFailed

  /** The process globals, and what the kernel library itself tracks. */
  class Library {
    var live: bool
    var inited: bool
    var main: Option<K.Thread>
    var open: bool
    var cached: set<nat>
    var log: seq<K.Effect>

    constructor ()
      ensures State() == K.FRESH.lib
    {
      live, inited, main, open, cached, log := false, false, None, false, {}, [];
    }

    ghost function State(): K.Library
      reads this
    {
      K.Library(live, inited, main, open, cached, log)
    }

    /** Swaps the flag in: the claim is ours exactly if nobody had it. */
    method Acquire() returns (acquired: bool)
      modifies this`live
      ensures acquired == !old(live) && live
    {
      acquired := !live;
      live := true;
    }

    method IsMainThread(caller: K.Thread) returns (mine: bool)
      modifies this`main
      ensures (mine, main) == K.IsMainThread(old(main), caller)
    {
      if main.None? {
        main := Some(caller);
      }
      mine := main == Some(caller);
    }

    /** Clears the global so that the library's own test claims the caller. */
    method Reclaim(caller: K.Thread) returns (took: bool)
      modifies this`main
      ensures took && main == Some(caller)
    {
      main := None;
      took := IsMainThread(caller);
    }

    method EnsureKernelThread(caller: K.Thread)
      modifies this`main
      ensures main == K.EnsureKernelThread(old(main), caller) == Some(caller)
    {
      var mine := IsMainThread(caller);
      if !mine {
        var took := Reclaim(caller);
      }
    }

    /** Any forwarded call. */
    method Forward(caller: K.Thread)
      modifies this`main, this`log
      ensures State() == K.Forward(old(State()), caller)
    {
      EnsureKernelThread(caller);
      log := log + [K.Called(caller, main)];
    }

    /** Takes the main thread, initializes once, and lets a failed attempt be retried. */
    method BringUpKernel(caller: K.Thread, located: bool, initOk: bool) returns (r: BringUp)
      modifies this
      ensures live == old(live) && open == old(open) && cached == old(cached)
      ensures r == if !located then ClaimFailed else if old(inited) || initOk then Ready else InitFailed
      ensures !located ==> unchanged(this)
      ensures located ==> main == Some(caller) && inited == (old(inited) || initOk)
      ensures located ==> log == if old(inited) then old(log) else old(log) + [K.Initialized(initOk, caller, main)]
    {
      if !located {
        return ClaimFailed;
      }
      var took := Reclaim(caller);
      var before := inited;
      inited := true;
      if !before {
        log := log + [K.Initialized(initOk, caller, main)];
        if !initOk {
          inited := false;
          return InitFailed;
        }
      }
      r := Ready;
    }
  }

  class Database {
    const lib: Library
    const thread: K.Thread
    var isOpen: bool
    var hexraysReady: bool

    constructor (lib: Library, thread: K.Thread)
      ensures this.lib == lib && this.thread == thread && !isOpen && !hexraysReady
    {
      this.lib := lib;
      this.thread := thread;
      isOpen, hexraysReady := false, false;
    }

    /** This database as the holder `h` of the claim. */
    ghost function As(h: K.Holder): K.Holder
      reads this
    {
      h.(thread := thread, isOpen := isOpen, hexrays := hexraysReady)
    }

    method Decompile(address: nat, ready: bool, ok: bool)
      modifies this`hexraysReady, lib`main, lib`cached, lib`log
      ensures forall h :: (lib.State(), As(h)) == K.DecompileAt(old(lib.State()), old(As(h)), address, ready, ok)
    {
      lib.Forward(thread);
      if !hexraysReady {
        if !ready {
          return;
        }
        hexraysReady := true;
      }
      if ok && lib.open {
        lib.cached := lib.cached + {address};
      }
    }

    method Open(ok: bool)
      modifies this`isOpen, lib`main, lib`open, lib`log
      ensures isOpen == (old(isOpen) || ok)
      ensures forall h :: (lib.State(), As(h)) == K.OpenDatabase(old(lib.State()), old(As(h)), ok)
    {
      lib.Forward(thread);
      if ok {
        lib.open := true;
        lib.log := lib.log + [K.Opened];
        isOpen := true;
      }
    }

    method ClearDecompilationCache()
      modifies lib`main, lib`cached, lib`log
      ensures lib.State() == K.ClearCache(old(lib.State()), thread, hexraysReady)
    {
      if hexraysReady {
        lib.Forward(thread);
        lib.cached := {};
      }
    }

    /** Nothing without an open database; else what is per-database goes with it. */
    method Close()
      modifies this, lib`main, lib`open, lib`cached, lib`log
      ensures !isOpen && (old(isOpen) ==> !lib.open && !hexraysReady && (old(hexraysReady) ==> lib.cached == {}))
      ensures forall h :: (lib.State(), As(h)) == K.CloseDatabase(old(lib.State()), old(As(h)))
    {
      if !isOpen {
        return;
      }
      ClearDecompilationCache();
      lib.Forward(thread);
      lib.log := lib.log + [K.Closed(lib.open)];
      lib.open := false;
      hexraysReady := false;
      isOpen := false;
    }

    method UseIt(u: K.Use)
      modifies this, lib`main, lib`open, lib`cached, lib`log
      ensures forall h :: (lib.State(), As(h)) == K.DoUse(old(lib.State()), old(As(h)), u)
    {
      match u {
        case Call => lib.Forward(thread);
        case Decompile(address, ready, ok) => Decompile(address, ready, ok);
        case Open(ok) => Open(ok);
        case Close => Close();
      }
    }

    /**
    Opens, runs the closure and closes. If the open succeeds the database is closed afterwards whatever the
    closure did and however it ended, and the kernel saw no close it had nothing open for.
    */
    method WithOpen(ok: bool, body: seq<K.Use>, ghost h: K.Holder) returns (ran: bool)
      requires K.Held(lib.State(), As(h)) && K.Uses(h)
      modifies this, lib`main, lib`open, lib`cached, lib`log
      ensures K.Held(lib.State(), As(h)) && ran == ok
      ensures K.SafeLog(old(lib.log)) ==> K.SafeLog(lib.log)
      ensures ran ==> !isOpen && (lib.open <==> K.Abandoned(lib.log))
      ensures !ran ==> isOpen == old(isOpen) && lib.open == old(lib.open)
    {
      hide K.Held, K.SafeLog, K.Abandoned, K.NoneAbandoned;
      K.DoUseKeeps(lib.State(), As(h), K.Open(ok));
      Open(ok);
      if !ok {
        return false;
      }
      for i := 0 to |body|
        invariant K.Held(lib.State(), As(h)) && (K.SafeLog(old(lib.log)) ==> K.SafeLog(lib.log))
      {
        K.DoUseKeeps(lib.State(), As(h), body[i]);
        UseIt(body[i]);
      }
      K.CloseKeeps(lib.State(), As(h));
      Close();
      ran := true;
    }

    /** The process `s` with the holder `id` replaced by this database and the library as it is. */
    ghost function In(s: K.Process, id: nat, h: K.Holder): K.Process
      reads lib
    {
      KJ.At(s, id, lib.State(), h)
    }

    /** A job's body, up to its end or its panic. */
    method RunBody(id: nat, slot: nat, job: K.Job, ghost s: K.Process, ghost h: K.Holder, ghost start: K.Process,
                   ghost begun: K.Script)
      returns (ghost script: K.Script)
      requires h.ran == slot < |h.jobs| && h.jobs[slot] == job
      requires K.Run(start, begun) == Some(In(s, id, As(h).(phase := K.InJob(0))))
      modifies this, lib`main, lib`open, lib`cached, lib`log
      ensures K.Run(start, script) == Some(In(s, id, As(h).(phase := K.InJob(|job.body|))))
    {
      hide K.Run, K.DoUse, K.Act, KJ.At;
      script := begun;
      for pos := 0 to |job.body|
        invariant K.Run(start, script) == Some(In(s, id, As(h).(phase := K.InJob(pos))))
      {
        ghost var (before, g) := (lib.State(), As(h).(phase := K.InJob(pos)));
        KJ.RunAdvance(start, script, s, id, before, g);
        assert As(g) == g;
        UseIt(job.body[pos]);
        assert (lib.State(), As(g)) == K.DoUse(before, g, job.body[pos]);
        lib.log := lib.log + [K.Did(id, slot, job.body[pos])];
        script := script + [(id, K.Advance)];
      }
    }

    /**
    One job as the pump runs it: its body up to its end or its panic, which the inner catch turns into the reply
    for its own caller; the outer one lets the pump go on whatever happened.
    */
    method RunJob(id: nat, slot: nat, job: K.Job, ghost s: K.Process, ghost h: K.Holder)
      returns (reply: K.Reply, ghost script: K.Script)
      requires h.phase == K.Idle && h.ran == slot < |h.jobs| == |h.replies| && h.jobs[slot] == job
      modifies this, lib`main, lib`open, lib`cached, lib`log
      ensures reply == K.Got(job.ending)
      ensures K.Run(old(In(s, id, As(h))), script)
           == Some(In(s, id, As(h).(ran := slot + 1, replies := h.replies[slot := reply])))
    {
      hide K.Run, K.DoUse, K.Act, KJ.At;
      ghost var start := In(s, id, As(h));
      KJ.NoSteps(start);
      KJ.RunStart(start, [], s, id, lib.State(), As(h));
      lib.log := lib.log + [K.Started(id, slot)];
      script := RunBody(id, slot, job, s, h, start, [] + [(id, K.StartJob)]);
      ghost var g := As(h).(phase := K.InJob(|job.body|));
      KJ.RunAnswer(start, script, s, id, lib.State(), g);
      lib.log := lib.log + [K.Answered(id, slot, job.ending)];
      reply := K.Got(job.ending);
      script := script + [(id, K.Answer), (id, K.Return)];
    }

    /** This database's holder part way through its queue. */
    ghost function At(h: K.Holder, queue: seq<K.Job>, slot: nat, replies: seq<K.Reply>): K.Holder
      reads this
    {
      As(h.(jobs := queue, ran := slot, replies := replies))
    }

    /** Takes the next job off the queue and runs it. */
    method RunNext(id: nat, queue: seq<K.Job>, slot: nat, replies: seq<K.Reply>, ghost s: K.Process,
                   ghost h: K.Holder, ghost start: K.Process, ghost before: K.Script)
      returns (after: seq<K.Reply>, ghost script: K.Script)
      requires h.phase == K.Idle && slot < |queue| == |replies|
      requires K.Run(start, before) == Some(In(s, id, At(h, queue, slot, replies)))
      modifies this, lib`main, lib`open, lib`cached, lib`log
      ensures after == replies[slot := K.Got(queue[slot].ending)]
      ensures K.Run(start, script) == Some(In(s, id, At(h, queue, slot + 1, after)))
    {
      hide K.Run, KJ.At;
      var reply, steps := RunJob(id, slot, queue[slot], s, h.(jobs := queue, ran := slot, replies := replies));
      KJ.RunThen(start, before, steps);
      after, script := replies[slot := reply], before + steps;
    }

    /** What other threads send meanwhile. */
    ghost method Arrive(id: nat, queue: seq<K.Job>, slot: nat, replies: seq<K.Reply>, batch: seq<K.Job>,
                        s: K.Process, h: K.Holder, start: K.Process, before: K.Script)
      returns (script: K.Script)
      requires h.phase == K.Idle && h.app != K.NotRun && h.handles == 1
      requires K.Run(start, before) == Some(In(s, id, At(h, queue, slot, replies)))
      ensures K.Run(start, script) == Some(In(s, id, At(h, queue + batch, slot, replies + KJ.Waits(|batch|))))
    {
      hide K.Run, KJ.At, KJ.Waits, KJ.SendScript;
      KJ.RunSends(start, before, s, id, lib.State(), At(h, queue, slot, replies), batch);
      script := before + KJ.SendScript(id, batch);
    }

    /** The receive that finds no handle left, and the close after it. */
    method EndPump(id: nat, queue: seq<K.Job>, replies: seq<K.Reply>, ghost s: K.Process, ghost h: K.Holder,
                   ghost start: K.Process, ghost before: K.Script)
      returns (ghost script: K.Script)
      requires h.phase == K.Idle && h.app != K.NotRun && h.handles == 1
      requires K.Run(start, before) == Some(In(s, id, At(h, queue, |queue|, replies)))
      modifies this, lib`main, lib`open, lib`cached, lib`log
      ensures !isOpen
      ensures K.Run(start, script)
           == Some(In(s, id, At(h, queue, |queue|, replies).(phase := K.ClosedDown, handles := 0)))
    {
      hide K.Run, K.CloseDatabase, KJ.At;
      ghost var (l, g) := (lib.State(), At(h, queue, |queue|, replies));
      KJ.RunClosing(start, before, s, id, l, g);
      assert As(g) == g;
      Close();
      assert (lib.State(), As(g)) == K.CloseDatabase(l, g);
      script := before + [(id, K.DropHandle), (id, K.PumpExit), (id, K.CloseDown)];
    }

    /**
    The actor's pump until its last handle is gone: `sends` is what has been sent to it between one receive and
    the next. Every job runs, in the order it was sent, each caller gets its own job's ending, and the database
    is closed at the end.
    */
    method Pump(id: nat, sends: seq<seq<K.Job>>, ghost s: K.Process, ghost h: K.Holder)
      returns (replies: seq<K.Reply>, ghost script: K.Script)
      requires h.phase == K.Idle && h.app != K.NotRun && h.handles == 1
      modifies this, lib`main, lib`open, lib`cached, lib`log
      ensures replies == KJ.Endings(Sent(sends, |sends|)) && !isOpen
      ensures K.Run(old(In(s, id, At(h, [], 0, []))), script)
           == Some(In(s, id, At(h, Sent(sends, |sends|), |replies|, replies).(phase := K.ClosedDown, handles := 0)))
    {
      hide K.Run, KJ.At, At, In, KJ.Endings;
      ghost var start := In(s, id, At(h, [], 0, []));
      var queue: seq<K.Job>, arrived, slot := [], 0, 0;
      replies, script := [], [];
      KJ.NoSteps(start);
      while arrived < |sends| || slot < |queue|
        invariant arrived <= |sends| && slot <= |queue| == |replies| && queue == Sent(sends, arrived)
        invariant forall i :: 0 <= i < slot ==> replies[i] == K.Got(queue[i].ending)
        invariant K.Run(start, script) == Some(In(s, id, At(h, queue, slot, replies)))
        decreases |sends| - arrived, |queue| - slot
      {
        if arrived < |sends| {
          script := Arrive(id, queue, slot, replies, sends[arrived], s, h, start, script);
          queue, replies := queue + sends[arrived], replies + KJ.Waits(|sends[arrived]|);
          arrived := arrived + 1;
        }
        if slot < |queue| {
          replies, script := RunNext(id, queue, slot, replies, s, h, start, script);
          slot := slot + 1;
        }
      }
      AllAnswered(queue, replies);
      script := EndPump(id, queue, replies, s, h, start, script);
    }
  }

  lemma {:induction false} AllAnswered(queue: seq<K.Job>, replies: seq<K.Reply>)
    requires |replies| == |queue| && forall i :: 0 <= i < |queue| ==> replies[i] == K.Got(queue[i].ending)
    ensures replies == KJ.Endings(queue)
  {
  }

  /** Everything in the first `n` batches, in order. */
  function Sent(sends: seq<seq<K.Job>>, n: nat): seq<K.Job>
    requires n <= |sends|
  {
    if n == 0 then [] else Sent(sends, n - 1) + sends[n - 1]
  }
}
