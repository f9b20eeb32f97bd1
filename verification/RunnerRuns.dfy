/** What every run of the runner's threads keeps, and how every run ends. */
module RunnerRuns {
  import opened Bytes
  import opened Scheduling
  import opened RunnerSystem

  // ---------------------------------------------------------------- visits to groups

  predicate NonePending(q: Queue, g: Text) {
    forall i :: 0 <= i < |q.pending| ==> q.pending[i].group != Some(g)
  }

  function Latest(leases: seq<Lease>, t: nat): (r: Option<nat>)
    ensures match r
            case None => forall k :: 0 <= k < |leases| ==> leases[k].thread != t
            case Some(l) =>
              && l < |leases| && leases[l].thread == t
              && forall k :: l < k < |leases| ==> leases[k].thread != t
  {
    if leases == [] then None
    else
      var n := |leases| - 1;
      if leases[n].thread == t then Some(n) else Latest(leases[..n], t)
  }

  /** A thread's cases of one group come one after another: it enters each group at most once. */
  predicate OneVisit(leases: seq<Lease>) {
    forall a, b, c | 0 <= a < b < c < |leases| ::
      && leases[a].thread == leases[b].thread == leases[c].thread
      && leases[a].leased.group == leases[c].leased.group
      && leases[a].leased.group.Some?
      ==> leases[b].leased.group == leases[a].leased.group
  }

  /** A group some thread has left has nothing pending. */
  predicate LeftAreEmpty(s: System) {
    forall k | 0 <= k < |s.leases| ::
      var l := s.leases[k];
      && l.thread < |s.threads|
      && (l.leased.group.Some? && Claim(s.threads[l.thread]) != l.leased.group
          ==> NonePending(s.queue, l.leased.group.value))
  }

  /** A thread that may still take holds the group of its latest case. */
  predicate ClaimsLatest(s: System) {
    forall t | 0 <= t < |s.threads| ::
      var l := Latest(s.leases, t);
      l.Some? && !s.threads[t].Finished? ==> Claim(s.threads[t]) == s.leases[l.value].leased.group
  }

  predicate Visits(s: System) {
    OneVisit(s.leases) && LeftAreEmpty(s) && ClaimsLatest(s)
  }

  lemma {:induction false} QuietStep(s: System, t: nat, a: Action)
    requires Enabled(s, t, a) && !s.threads[t].Ready?
    ensures var s' := Do(s, t, a);
            && s'.leases == s.leases
            && |s'.threads| == |s.threads|
            && (s'.queue.pending == s.queue.pending || s'.queue.pending == [])
            && forall u :: 0 <= u < |s.threads| ==>
                 && Claim(s'.threads[u]) == Claim(s.threads[u])
                 && s'.threads[u].Finished? == s.threads[u].Finished?
  {
  }

  lemma {:induction false} QuietVisits(s: System, t: nat, a: Action)
    requires Enabled(s, t, a) && !s.threads[t].Ready? && Visits(s)
    ensures Visits(Do(s, t, a))
  {
    hide Claim, OneVisit;
    QuietStep(s, t, a);
    hide Do;
  }

  /** What a take that hands out `c` changes. */
  ghost predicate TookCase(s: System, t: nat, s': System, c: Case) {
    && t < |s.threads| && s.threads[t].Ready?
    && s'.threads == s.threads[t := Running(c)]
    && s'.leases == s.leases + [Lease(t, c)]
    && c in s.queue.pending
    && (forall i :: 0 <= i < |s'.queue.pending| ==> s'.queue.pending[i] in s.queue.pending)
    && (forall g :: s.threads[t].last == Some(g) && c.group != Some(g) ==> NonePending(s.queue, g))
  }

  predicate TookNone(s: System, t: nat, s': System) {
    && t < |s.threads| && s.threads[t].Ready?
    && s'.threads == s.threads[t := Finished] && s'.leases == s.leases
    && s.queue.pending == [] && s'.queue.pending == []
  }

  lemma {:induction false} TakeStep(s: System, t: nat, a: Action)
    requires Enabled(s, t, a) && s.threads[t].Ready?
    ensures TookNone(s, t, Do(s, t, a)) || exists c :: TookCase(s, t, Do(s, t, a), c)
  {
    hide TakeNext;
    var last := s.threads[t].last;
    TakeMeans(s.queue, last);
    var r := TakeNext(s.queue, last);
    if r.1.Some? {
      var i: nat :| TakenAt(s.queue, r, i);
      if last.Some? {
        PendingInZero(s.queue.pending, last.value);
      }
      assert TookCase(s, t, Do(s, t, a), r.1.value);
    }
  }

  /** The thread's visit to the new case's group, if it had one, is still on. */
  lemma {:induction false} VisitGoesOn(s: System, t: nat, c: Case, a: nat, b: nat)
    requires Visits(s) && t < |s.threads| && s.threads[t].Ready? && c in s.queue.pending
    requires a < b < |s.leases| && s.leases[a].thread == s.leases[b].thread == t
    requires s.leases[a].leased.group == c.group && c.group.Some?
    ensures s.leases[b].leased.group == c.group
  {
    assert Claim(s.threads[t]) == c.group;
    var l := Latest(s.leases, t).value;
    assert s.leases[l].leased.group == c.group;
    if b < l {
      assert OneVisit(s.leases);
    }
  }

  lemma {:induction false} TakeOneVisit(s: System, t: nat, s': System, c: Case)
    requires Visits(s) && TookCase(s, t, s', c)
    ensures OneVisit(s'.leases)
  {
    var n := |s.leases|;
    forall x, y, z | 0 <= x < y < z <= n
      && s'.leases[x].thread == s'.leases[y].thread == s'.leases[z].thread
      && s'.leases[x].leased.group == s'.leases[z].leased.group
      && s'.leases[x].leased.group.Some?
      ensures s'.leases[y].leased.group == s'.leases[x].leased.group
    {
      if z == n {
        VisitGoesOn(s, t, c, x, y);
      } else {
        assert s'.leases[z] == s.leases[z];
      }
    }
  }

  lemma {:induction false} TakeLeftAreEmpty(s: System, t: nat, s': System, c: Case)
    requires Visits(s) && TookCase(s, t, s', c)
    ensures LeftAreEmpty(s')
  {
    hide OneVisit, ClaimsLatest;
    forall k | 0 <= k < |s'.leases|
      ensures s'.leases[k].thread < |s'.threads|
      ensures s'.leases[k].leased.group.Some? && Claim(s'.threads[s'.leases[k].thread]) != s'.leases[k].leased.group
              ==> NonePending(s'.queue, s'.leases[k].leased.group.value)
    {
      if k < |s.leases| {
        assert s'.leases[k] == s.leases[k];
      }
    }
  }

  lemma {:induction false} TakeClaimsLatest(s: System, t: nat, s': System, c: Case)
    requires Visits(s) && TookCase(s, t, s', c)
    ensures ClaimsLatest(s')
  {
    hide OneVisit, LeftAreEmpty;
    assert s'.leases[..|s.leases|] == s.leases;
  }

  lemma {:induction false} StepVisits(s: System, t: nat, a: Action)
    requires Enabled(s, t, a) && Visits(s)
    ensures Visits(Do(s, t, a))
  {
    var s' := Do(s, t, a);
    if s.threads[t].Ready? {
      TakeStep(s, t, a);
      hide Do;
      if TookNone(s, t, s') {
        hide OneVisit;
      } else {
        var c :| TookCase(s, t, s', c);
        TakeOneVisit(s, t, s', c);
        TakeLeftAreEmpty(s, t, s', c);
        TakeClaimsLatest(s, t, s', c);
      }
    } else {
      QuietVisits(s, t, a);
    }
  }

  // ---------------------------------------------------------------- every reachable state

  ghost predicate Invariant(s: System, cases: seq<Case>) {
    Conserved(s, cases) && Counted(s) && Exhausted(s) && Ordered(s, cases) && Visits(s)
  }

  lemma {:induction false} NothingInHand(n: nat)
    ensures AllInHand(seq(n, _ => Spawning(None))) == multiset{}
  {
    if n > 0 {
      NothingInHand(n - 1);
      var ts := seq(n, _ => Spawning(None));
      assert ts[..n - 1] == seq(n - 1, _ => Spawning(None));
    }
  }

  lemma {:induction false} NoHolders(n: nat, g: Text)
    ensures Holders(seq(n, _ => Spawning(None)), g) == 0
  {
    if n > 0 {
      NoHolders(n - 1, g);
      var ts := seq(n, _ => Spawning(None));
      assert ts[..n - 1] == seq(n - 1, _ => Spawning(None));
    }
  }

  lemma {:induction false} InitInvariant(cases: seq<Case>, workers: nat)
    ensures Invariant(Init(cases, workers), cases)
  {
    hide Names, ResultNames, AllInHand, Holders, OfGroup, Leased;
    var s := Init(cases, workers);
    NothingInHand(|s.threads|);
    assert ResultNames([]) == [];
    forall g ensures Count(s.queue.workers, g) == Holders(s.threads, g) {
      NoHolders(|s.threads|, g);
    }
    forall k ensures InOrderOf(s, cases, k) {
      assert Leased([]) == [];
      OfGroupNone([], k);
    }
  }

  lemma {:induction false} StepInvariant(s: System, t: nat, a: Action, cases: seq<Case>)
    requires Enabled(s, t, a) && Invariant(s, cases)
    ensures Invariant(Do(s, t, a), cases)
  {
    hide Do, Enabled, Conserved, Counted, Exhausted, Ordered, Visits;
    StepConserves(s, t, a, cases);
    StepCounts(s, t, a);
    StepExhausts(s, t, a);
    StepOrders(s, t, a, cases);
    StepVisits(s, t, a);
  }

  lemma {:induction false} RunInvariant(s: System, script: Script, cases: seq<Case>)
    requires Invariant(s, cases) && Run(s, script).Some?
    ensures Invariant(Run(s, script).value, cases)
    decreases |script|
  {
    hide Do, Enabled, Invariant;
    if script != [] {
      StepInvariant(s, script[0].0, script[0].1, cases);
      RunInvariant(Do(s, script[0].0, script[0].1), script[1..], cases);
    }
  }

  /** Whatever the interleaving and whatever dies, the queue, the threads and the report hold the input exactly. */
  lemma {:induction false} NoCaseLost(cases: seq<Case>, workers: nat, script: Script)
    requires Run(Init(cases, workers), script).Some?
    ensures Conserved(Run(Init(cases, workers), script).value, cases)
  {
    hide Conserved, Run;
    InitInvariant(cases, workers);
    RunInvariant(Init(cases, workers), script, cases);
  }

  /** The scores' denominators are right in every reachable state, failed respawns included. */
  lemma {:induction false} GroupCountsExact(cases: seq<Case>, workers: nat, script: Script)
    requires Run(Init(cases, workers), script).Some?
    ensures Counted(Run(Init(cases, workers), script).value)
  {
    hide Counted, Run;
    InitInvariant(cases, workers);
    RunInvariant(Init(cases, workers), script, cases);
  }

  /** Each thread enters each group at most once in a whole run. */
  lemma {:induction false} EachGroupOpenedOncePerThread(cases: seq<Case>, workers: nat, script: Script)
    requires Run(Init(cases, workers), script).Some?
    ensures OneVisit(Run(Init(cases, workers), script).value.leases)
  {
    hide OneVisit, Run;
    InitInvariant(cases, workers);
    RunInvariant(Init(cases, workers), script, cases);
  }

  /** The cases of any one group, and the ungrouped ones, are leased in input order. */
  lemma {:induction false} LeasedInInputOrder(cases: seq<Case>, workers: nat, script: Script, k: Option<Text>)
    requires Run(Init(cases, workers), script).Some?
    ensures OfGroup(Leased(Run(Init(cases, workers), script).value.leases), k) <= OfGroup(cases, k)
  {
    hide OfGroup, Run, Leased;
    InitInvariant(cases, workers);
    RunInvariant(Init(cases, workers), script, cases);
    var s := Run(Init(cases, workers), script).value;
    assert InOrderOf(s, cases, k);
    var done := OfGroup(Leased(s.leases), k);
    assert OfGroup(cases, k)[..|done|] == done;
  }

  // ---------------------------------------------------------------- leaving a group

  lemma {:induction false} NonePendingStays(s: System, t: nat, a: Action, g: Text)
    requires Enabled(s, t, a) && NonePending(s.queue, g)
    ensures var s' := Do(s, t, a);
            && NonePending(s'.queue, g)
            && |s'.leases| >= |s.leases| && s'.leases[..|s.leases|] == s.leases
            && forall k :: |s.leases| <= k < |s'.leases| ==> s'.leases[k].leased.group != Some(g)
  {
    var s' := Do(s, t, a);
    if s.threads[t].Ready? {
      TakeStep(s, t, a);
      hide Do;
      if !TookNone(s, t, s') {
        var c :| TookCase(s, t, s', c);
      }
    } else {
      QuietStep(s, t, a);
    }
  }

  lemma {:induction false} RunNonePending(s: System, script: Script, g: Text)
    requires Run(s, script).Some? && NonePending(s.queue, g)
    ensures var s' := Run(s, script).value;
            && |s'.leases| >= |s.leases|
            && forall k :: |s.leases| <= k < |s'.leases| ==> s'.leases[k].leased.group != Some(g)
    ensures Run(s, script).value.leases[..|s.leases|] == s.leases
    decreases |script|
  {
    hide Do, Enabled, NonePending;
    if script == [] {
    } else {
      var next := Do(s, script[0].0, script[0].1);
      NonePendingStays(s, script[0].0, script[0].1, g);
      RunNonePending(next, script[1..], g);
      var s' := Run(s, script).value;
      assert s'.leases[..|s.leases|] == s'.leases[..|next.leases|][..|s.leases|];
      forall k | |s.leases| <= k < |s'.leases| ensures s'.leases[k].leased.group != Some(g) {
        if k < |next.leases| {
          assert s'.leases[k] == s'.leases[..|next.leases|][k];
        }
      }
    }
  }

  /** Once any thread leaves a group, no thread is ever handed a case of it again. */
  lemma {:induction false} LeftForGood(s: System, t: nat, a: Action, g: Text, script: Script)
    requires Enabled(s, t, a) && Claim(s.threads[t]) == Some(g) && Claim(Do(s, t, a).threads[t]) != Some(g)
    requires Run(Do(s, t, a), script).Some?
    ensures var s' := Run(Do(s, t, a), script).value;
            forall k :: |s.leases| <= k < |s'.leases| ==> s'.leases[k].leased.group != Some(g)
  {
    if !s.threads[t].Ready? {
      QuietStep(s, t, a);
    } else {
      TakeStep(s, t, a);
      hide Do, Run;
      var s' := Do(s, t, a);
      assert NonePending(s.queue, g) by {
        if !TookNone(s, t, s') {
          var c :| TookCase(s, t, s', c);
        }
      }
      var one := [(t, a)];
      RunOneMore(s, t, a, script);
      RunNonePending(s, one + script, g);
    }
  }

  lemma {:induction false} RunOneMore(s: System, t: nat, a: Action, script: Script)
    requires Enabled(s, t, a)
    ensures Run(s, [(t, a)] + script) == Run(Do(s, t, a), script)
  {
    assert ([(t, a)] + script)[1..] == script;
  }

  // ---------------------------------------------------------------- ending

  /** Actions a thread can still take before it ends or takes another case. */
  function Weight(p: Phase): nat {
    match p
    case Running(_) => 5
    case Reporting(_, _, _) => 4
    case Spawning(_) => 3
    case Doomed(_, _) => 2
    case Ready(_) => 1
    case Stranded(_, _, _) => 1
    case Finished => 0
    case Failed(_) => 0
  }

  function Weights(ts: seq<Phase>): nat {
    if ts == [] then 0 else Weights(ts[..|ts| - 1]) + Weight(ts[|ts| - 1])
  }

  function Measure(s: System): nat {
    5 * |s.queue.pending| + Weights(s.threads)
  }

  lemma {:induction false} WeightsUpdate(ts: seq<Phase>, t: nat, p: Phase)
    requires t < |ts|
    ensures Weights(ts[t := p]) + Weight(ts[t]) == Weights(ts) + Weight(p)
  {
    hide Weight;
    var n := |ts| - 1;
    if t == n {
      assert ts[t := p][..n] == ts[..n];
    } else {
      WeightsUpdate(ts[..n], t, p);
      assert ts[t := p][..n] == ts[..n][t := p];
    }
  }

  lemma {:induction false} StepDecreases(s: System, t: nat, a: Action)
    requires Enabled(s, t, a)
    ensures Measure(Do(s, t, a)) < Measure(s)
  {
    hide TakeNext, Weights;
    ThreadsAfter(s, t, a);
    WeightsUpdate(s.threads, t, Do(s, t, a).threads[t]);
    if s.threads[t].Ready? {
      TakeShrinks(s.queue, s.threads[t].last);
    }
  }

  lemma {:induction false} TakeShrinks(q: Queue, current: Option<Text>)
    ensures var r := TakeNext(q, current);
            if r.1 == None then r.0.pending == [] == q.pending else |r.0.pending| == |q.pending| - 1
  {
    hide TakeNext, IsBest;
    TakeMeans(q, current);
    var r := TakeNext(q, current);
    if r.1.Some? {
      var i: nat :| TakenAt(q, r, i);
    }
  }

  lemma {:induction false} RunDecreases(s: System, script: Script)
    requires Run(s, script).Some?
    ensures |script| + Measure(Run(s, script).value) <= Measure(s)
    decreases |script|
  {
    hide Do, Enabled, Measure;
    if script != [] {
      StepDecreases(s, script[0].0, script[0].1);
      RunDecreases(Do(s, script[0].0, script[0].1), script[1..]);
    }
  }

  lemma {:induction false} SpawningWeights(n: nat)
    ensures Weights(seq(n, _ => Spawning(None))) == 3 * n
  {
    if n > 0 {
      SpawningWeights(n - 1);
      var ts := seq(n, _ => Spawning(None));
      assert ts[..n - 1] == seq(n - 1, _ => Spawning(None));
    }
  }

  /** A thread that has not ended can act whatever the others do, so only ended systems are stuck. */
  lemma {:induction false} StuckOnlyAtTheEnd(s: System)
    ensures AllEnded(s) <==> forall t: nat, a :: !Enabled(s, t, a)
  {
    if !AllEnded(s) {
      var t :| 0 <= t < |s.threads| && !Ended(s.threads[t]);
      var a := match s.threads[t]
        case Spawning(_) => SpawnOk
        case Ready(_) => Take
        case Running(_) => Dies([])
        case Reporting(_, _, _) => Push
        case Doomed(_, _) => Drain
        case _ => Append;
      assert Enabled(s, t, a);
    }
  }

  lemma {:induction false} EndedInHand(ts: seq<Phase>)
    requires forall t :: 0 <= t < |ts| ==> Ended(ts[t])
    ensures AllInHand(ts) == multiset{}
  {
    if ts != [] {
      EndedInHand(ts[..|ts| - 1]);
    }
  }

  lemma {:induction false} InitThreads(cases: seq<Case>, workers: nat, script: Script)
    requires Run(Init(cases, workers), script).Some?
    ensures |Run(Init(cases, workers), script).value.threads| == Threads(workers, |cases|)
  {
    hide Init;
    assert |Init(cases, workers).threads| == Threads(workers, |cases|) by { InitSize(cases, workers); }
    RunKeepsThreads(Init(cases, workers), script);
  }

  lemma {:induction false} InitSize(cases: seq<Case>, workers: nat)
    ensures |Init(cases, workers).threads| == Threads(workers, |cases|)
  {
  }

  lemma {:induction false} RunKeepsThreads(s: System, script: Script)
    requires Run(s, script).Some?
    ensures |Run(s, script).value.threads| == |s.threads|
    decreases |script|
  {
    hide Do, Enabled;
    if script != [] {
      ThreadsAfter(s, script[0].0, script[0].1);
      RunKeepsThreads(Do(s, script[0].0, script[0].1), script[1..]);
    }
  }

  /**
  Every run is finite, and once no thread can act there is exactly one result per input case: each name is
  reported as often as it was given, whoever died and whatever failed to start.
  */
  lemma {:induction false} ExactlyOneResult(cases: seq<Case>, workers: nat, script: Script)
    requires Run(Init(cases, workers), script).Some?
    ensures |script| <= 5 * |cases| + 3 * Threads(workers, |cases|)
    ensures var s := Run(Init(cases, workers), script).value;
            (forall t: nat, a :: !Enabled(s, t, a)) ==> multiset(ResultNames(s.results)) == multiset(Names(cases))
  {
    hide Run, Conserved, Counted, Ordered, Visits;
    var init := Init(cases, workers);
    var s := Run(init, script).value;
    RunDecreases(init, script);
    SpawningWeights(Threads(workers, |cases|));
    StuckOnlyAtTheEnd(s);
    if AllEnded(s) {
      InitInvariant(cases, workers);
      RunInvariant(init, script, cases);
      InitThreads(cases, workers, script);
      EndedReport(s, cases);
    }
  }

  lemma {:induction false} EndedReport(s: System, cases: seq<Case>)
    requires AllEnded(s) && Exhausted(s) && Conserved(s, cases) && (|cases| > 0 ==> |s.threads| > 0)
    ensures multiset(ResultNames(s.results)) == multiset(Names(cases))
  {
    hide ResultNames;
    EndedInHand(s.threads);
    if |s.threads| > 0 {
      assert Ended(s.threads[0]);
      assert Names(s.queue.pending) == [];
    } else {
      assert Names(cases) == [];
    }
  }

  // ---------------------------------------------------------------- runs in which every spawn succeeds

  predicate NeverFailed(s: System) {
    && s.drained == []
    && forall t :: 0 <= t < |s.threads| ==>
         !s.threads[t].Doomed? && !s.threads[t].Stranded? && !s.threads[t].Failed?
  }

  lemma {:induction false} RunNeverFailed(s: System, script: Script)
    requires Run(s, script).Some? && NeverFailed(s)
    requires forall i :: 0 <= i < |script| ==> !script[i].1.SpawnFails?
    ensures NeverFailed(Run(s, script).value)
    decreases |script|
  {
    hide TakeNext;
    if script != [] {
      RunNeverFailed(Do(s, script[0].0, script[0].1), script[1..]);
    }
  }

  /** If every spawn succeeds, a finished run has leased every case, group by group in input order. */
  lemma {:induction false} EveryCaseLeased(cases: seq<Case>, workers: nat, script: Script, k: Option<Text>)
    requires Run(Init(cases, workers), script).Some?
    requires AllEnded(Run(Init(cases, workers), script).value)
    requires forall i :: 0 <= i < |script| ==> !script[i].1.SpawnFails?
    ensures OfGroup(Leased(Run(Init(cases, workers), script).value.leases), k) == OfGroup(cases, k)
  {
    hide Run, Conserved, Counted, Visits, OfGroup, Leased;
    var init := Init(cases, workers);
    var s := Run(init, script).value;
    InitInvariant(cases, workers);
    RunInvariant(init, script, cases);
    InitThreads(cases, workers, script);
    RunNeverFailed(init, script);
    assert InOrderOf(s, cases, k);
    OfGroupNone([], k);
    if |s.threads| > 0 {
      assert Ended(s.threads[0]);
    } else {
      assert cases == [] && init.queue.pending == [];
      EmptyStaysEmpty(init, script);
    }
  }

  lemma {:induction false} EmptyStaysEmpty(s: System, script: Script)
    requires Run(s, script).Some? && s.threads == []
    ensures Run(s, script).value == s
  {
  }
}
