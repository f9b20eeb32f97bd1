/** What a run's script alone tells about a holder: its handles, its application, and what a failed set-up leaves. */
module KernelScripts {
  import opened Bytes
  import opened Kernel

  // ---------------------------------------------------------------- handles

  function Cloned(script: Script, id: nat): nat {
    if script == [] then 0 else (if script[0] == (id, CloneHandle) then 1 else 0) + Cloned(script[1..], id)
  }

  function Dropped(script: Script, id: nat): nat {
    if script == [] then 0 else (if script[0] == (id, DropHandle) then 1 else 0) + Dropped(script[1..], id)
  }

  /** The handles in use, counting the one the application is yet to be given. */
  function Credit(h: Holder): nat {
    if h.app == NotRun then 1 else h.handles
  }

  function CreditOf(s: Process, id: nat): nat {
    if id in s.holders then Credit(s.holders[id]) else 1
  }

  lemma {:induction false} UseCredit(lib: Library, h: Holder, u: Use)
    ensures DoUse(lib, h, u).1.app == h.app && DoUse(lib, h, u).1.handles == h.handles
  {
  }

  lemma {:induction false} ActCredit(lib: Library, id: nat, h: Holder, a: Action)
    requires Enabled(h, a) && Placed(h)
    ensures Credit(Act(lib, id, h, a).1) + (if a == DropHandle then 1 else 0)
         == Credit(h) + if a == CloneHandle then 1 else 0
  {
    hide DoUse;
    if a.UseOwned? {
      UseCredit(lib, h, a.use);
    } else if a.Advance? {
      UseCredit(lib, h, h.jobs[h.ran].body[h.phase.pos]);
    }
  }

  lemma {:induction false} StepCredit(s: Process, i: nat, a: Action, id: nat)
    requires Invariant(s) && Possible(s, i, a)
    ensures CreditOf(Do(s, i, a), id) + (if (i, a) == (id, DropHandle) then 1 else 0)
         == CreditOf(s, id) + if (i, a) == (id, CloneHandle) then 1 else 0
  {
    hide Act, Enabled, Held, Free, SafeLog, Exclusive, Placed;
    if !a.Acquire? {
      ActCredit(s.lib, i, s.holders[i], a);
    }
  }

  lemma {:induction false} RunCredit(s: Process, script: Script, id: nat)
    requires Invariant(s) && Run(s, script).Some?
    ensures CreditOf(Run(s, script).value, id) + Dropped(script, id) == CreditOf(s, id) + Cloned(script, id)
    decreases |script|
  {
    hide Do, Possible, CreditOf, Invariant;
    if script != [] {
      StepKeeps(s, script[0].0, script[0].1);
      StepCredit(s, script[0].0, script[0].1, id);
      RunCredit(Do(s, script[0].0, script[0].1), script[1..], id);
    }
  }

  /**
  An actor's application is given one handle; after that each clone adds one and each drop takes one away. Jobs can
  be sent as long as one is left.
  */
  lemma {:induction false} HandlesCounted(script: Script, id: nat)
    requires Run(FRESH, script).Some? && id in Run(FRESH, script).value.holders
    requires Run(FRESH, script).value.holders[id].app != NotRun
    ensures Run(FRESH, script).value.holders[id].handles + Dropped(script, id) == 1 + Cloned(script, id)
    ensures forall job :: Possible(Run(FRESH, script).value, id, Send(job)) <==>
              Dropped(script, id) <= Cloned(script, id)
  {
    hide Invariant;
    FreshHolds();
    RunCredit(FRESH, script, id);
  }

  // ---------------------------------------------------------------- the application

  lemma {:induction false} ActApp(lib: Library, id: nat, h: Holder, a: Action)
    requires Enabled(h, a) && Placed(h)
    ensures var g := Act(lib, id, h, a).1;
            && (a.AppEnds? ==> h.app == Running && g.app == if a.panicked then Unwound else Returned)
            && (!a.AppEnds? ==> g.app == h.app || (h.app == NotRun && g.app == Running))
  {
    hide DoUse;
    if a.UseOwned? {
      UseCredit(lib, h, a.use);
    } else if a.Advance? {
      UseCredit(lib, h, h.jobs[h.ran].body[h.phase.pos]);
    }
  }

  /** Step `p` of the script ends the application of `id`. */
  predicate EndsApp(script: Script, id: nat, p: nat) {
    p < |script| && script[p].0 == id && script[p].1.AppEnds?
  }

  lemma {:induction false} StepApp(s: Process, i: nat, a: Action, id: nat)
    requires Invariant(s) && Possible(s, i, a) && id in Do(s, i, a).holders
    ensures var app := Do(s, i, a).holders[id].app;
            && (i == id && a.AppEnds? ==>
                  id in s.holders && s.holders[id].app == Running && app == if a.panicked then Unwound else Returned)
            && (!(i == id && a.AppEnds?) ==>
                  if id !in s.holders then app == NotRun
                  else app == s.holders[id].app || (s.holders[id].app == NotRun && app == Running))
  {
    hide Act, Enabled, Held, Free, SafeLog, Exclusive, Placed;
    if !a.Acquire? {
      ActApp(s.lib, i, s.holders[i], a);
    }
  }

  /** An application that has ended stays ended, and one not begun has not ended. */
  lemma {:induction false} RunApp(s: Process, script: Script, id: nat)
    requires Invariant(s) && Run(s, script).Some? && id in Run(s, script).value.holders
    ensures var app := Run(s, script).value.holders[id].app;
            && (forall p: nat :: EndsApp(script, id, p) ==>
                  app == if script[p].1.panicked then Unwound else Returned)
            && ((forall p: nat :: !EndsApp(script, id, p)) ==>
                  if id !in s.holders then app == NotRun || app == Running
                  else app == s.holders[id].app || (s.holders[id].app == NotRun && app == Running))
            && (id in s.holders && s.holders[id].app != NotRun && s.holders[id].app != Running ==>
                  app == s.holders[id].app && forall p: nat :: !EndsApp(script, id, p))
    decreases |script|
  {
    hide Do, Possible, Invariant;
    if script != [] {
      var ((i, a), rest) := (script[0], script[1..]);
      StepKeeps(s, i, a);
      var t := Do(s, i, a);
      RunApp(t, rest, id);
      StaysHolder(s, i, a, id);
      if id in t.holders {
        StepApp(s, i, a, id);
      }
      assert forall p: nat :: EndsApp(rest, id, p) ==> EndsApp(script, id, p + 1);
      assert forall p: nat :: p > 0 && EndsApp(script, id, p) ==> EndsApp(rest, id, p - 1);
      assert i == id && a.AppEnds? ==> EndsApp(script, id, 0);
      if i == id && a.AppEnds? {
        AppEndsHolder(s, i, a);
      }
    }
  }

  lemma {:induction false} StaysHolder(s: Process, i: nat, a: Action, id: nat)
    requires Possible(s, i, a)
    ensures id in s.holders ==> id in Do(s, i, a).holders
  {
  }

  lemma {:induction false} AppEndsHolder(s: Process, id: nat, a: Action)
    requires Possible(s, id, a) && a.AppEnds?
    ensures id in s.holders && id in Do(s, id, a).holders
  {
  }

  /** An actor's application is running until the script ends it, by returning or by a panic, and then stays so. */
  lemma {:induction false} AppFollows(script: Script, id: nat)
    requires Run(FRESH, script).Some? && id in Run(FRESH, script).value.holders
    requires Run(FRESH, script).value.holders[id].app != NotRun
    ensures var app := Run(FRESH, script).value.holders[id].app;
            && (app == Running <==> forall p: nat :: !EndsApp(script, id, p))
            && (app == Unwound <==> exists p: nat :: EndsApp(script, id, p) && script[p].1.panicked)
            && (app == Returned <==> exists p: nat :: EndsApp(script, id, p) && !script[p].1.panicked)
  {
    hide Invariant;
    FreshHolds();
    RunApp(FRESH, script, id);
  }

  /** A claim that is granted starts with nothing open, no decompiler, no handle and no job. */
  lemma {:induction false} ClaimStartsClean(s: Process, id: nat, thread: Thread, actor: bool)
    requires Possible(s, id, Acquire(thread, actor)) && !s.lib.live
    ensures var t := Do(s, id, Acquire(thread, actor));
            && t.lib == s.lib.(live := true) && id in t.holders
            && (var h := t.holders[id];
                && h.thread == thread && h.actor == actor && h.phase == Starting && h.app == NotRun
                && !h.isOpen && !h.hexrays && h.jobs == [] && h.replies == [] && h.ran == 0 && h.handles == 0)
  {
  }

  // ---------------------------------------------------------------- using the database

  /** The global's own test: a null global is claimed by the caller, any other stays and says who may call. */
  lemma {:induction false} AffinityMeans(main: Option<Thread>, caller: Thread)
    ensures var (mine, after) := IsMainThread(main, caller);
            && (mine <==> main == None || main == Some(caller))
            && after == Some(if main.Some? then main.value else caller)
  {
  }

  /**
  A decompilation is cached exactly if it succeeds on an open database, with the decompiler ready or made so. A close
  takes the cache and the decompiler with it, and nothing else changes either.
  */
  lemma {:induction false} UsesMean(lib: Library, h: Holder, u: Use, a: nat)
    ensures var (t, g) := DoUse(lib, h, u);
            && (a in t.cached <==>
                  || (u.Decompile? && u.address == a && u.ok && lib.open && (h.hexrays || u.ready))
                  || (a in lib.cached && !(u == Close && h.isOpen && h.hexrays)))
            && (g.hexrays <==> (u.Decompile? && u.ready) || (h.hexrays && !(u == Close && h.isOpen)))
            && (g.isOpen <==> u == Open(true) || (h.isOpen && u != Close))
            && (t.open <==> u == Open(true) || (lib.open && !(u == Close && h.isOpen)))
            && (t.live, t.inited) == (lib.live, lib.inited) && g == h.(isOpen := g.isOpen, hexrays := g.hexrays)
  {
  }

  // ---------------------------------------------------------------- who moves, and who is left behind

  /** Only a database that was handed out moves, so never an actor's, and never before the library is ready. */
  lemma {:induction false} OnlyOwnedMoves(script: Script, id: nat, to: Thread)
    requires Run(FRESH, script).Some? && Possible(Run(FRESH, script).value, id, Move(to))
    ensures var s := Run(FRESH, script).value;
            && id in s.holders && s.holders[id].phase == Owned && !s.holders[id].actor
            && Successes(s.lib.log) == 1 && s.lib.live
  {
    hide SafeLog, Abandoned, NoneAbandoned;
    EveryRunSafe(script);
  }

  /** A call when nobody listens is told so, and so is whoever waits when the actor's thread ends. */
  lemma {:induction false} NobodyWaitsForever(lib: Library, id: nat, h: Holder, job: Job)
    ensures Enabled(h, Send(job)) && !Listening(h.phase) ==>
              Act(lib, id, h, Send(job)).1.replies == h.replies + [Disconnected]
    ensures Enabled(h, EndThread) ==>
              var replies := Act(lib, id, h, EndThread).1.replies;
              |replies| == |h.replies| && forall i :: 0 <= i < |replies| ==>
                replies[i] != Waiting && (h.replies[i] != Waiting ==> replies[i] == h.replies[i])
                && (h.replies[i] == Waiting ==> replies[i] == Disconnected)
  {
  }

  lemma {:induction false} FailedSetUp(lib: Library, id: nat, h: Holder, a: Action)
    requires Enabled(h, a) && Placed(h) && (a == BringUp(false) || a == InitDone(false))
    ensures var (t, g) := Act(lib, id, h, a);
            && (a == InitDone(false) ==> !t.inited)
            && (!h.actor ==> !t.live && !Live(g))
            && (h.actor ==> g == h.(phase := Ended) && h.app == NotRun)
  {
  }

  lemma {:induction false} JoinedFrees(lib: Library, id: nat, h: Holder)
    requires h.phase == Ended && h.app == NotRun
    ensures Enabled(h, Join) && Act(lib, id, h, Join) == (lib, h.(phase := Joined))
    ensures var g := h.(phase := Joined); Enabled(g, Release) && !Act(lib, id, g, Release).0.live
  {
  }

  /** A set-up that failed leaves nothing behind: its thread can be joined and the kernel claimed again. */
  lemma {:induction false} FailedSetUpFrees(s: Process, id: nat, a: Action)
    requires Invariant(s) && Possible(s, id, a) && (a == BringUp(false) || a == InitDone(false))
    ensures var t := Do(s, id, a);
            && (a == InitDone(false) ==> !t.lib.inited)
            && (!s.holders[id].actor ==> !t.lib.live)
            && (s.holders[id].actor ==>
                  && Possible(t, id, Join) && Possible(Do(t, id, Join), id, Release)
                  && !Do(Do(t, id, Join), id, Release).lib.live)
  {
    hide Act, Enabled, Held, Free, SafeLog, Exclusive, Placed;
    var h := s.holders[id];
    FailedSetUp(s.lib, id, h, a);
    if h.actor {
      JoinedFrees(Act(s.lib, id, h, a).0, id, h.(phase := Ended));
    }
  }
}
