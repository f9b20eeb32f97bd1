/** Which pending case a free worker is handed next. */
module Scheduling {
  import opened Bytes

  /** The group is the fixture cases share; an ungrouped case shares nothing. */
  datatype Case = Case(name: Text, group: Option<Text>)

  /** How many workers are on each group. */
  type Counts = map<Text, nat>

  datatype Queue = Queue(pending: seq<Case>, workers: Counts)

  function Count(m: Counts, g: Text): nat {
    if g in m then m[g] else 0
  }

  predicate NoZero(m: Counts) {
    forall g :: g in m ==> m[g] > 0
  }

  function PendingIn(cases: seq<Case>, g: Text): nat {
    if cases == [] then 0
    else PendingIn(cases[..|cases| - 1], g) + (if cases[|cases| - 1].group == Some(g) then 1 else 0)
  }

  // ---------------------------------------------------------------- the choice

  /** Pending cases of the case's group per worker it would then have. */
  function Score(q: Queue, i: nat): real
    requires i < |q.pending|
  {
    match q.pending[i].group
    case None => 1.0
    case Some(g) => PendingIn(q.pending, g) as real / (Count(q.workers, g) + 1) as real
  }

  /** The positions in `cases` of the cases of group `g`. */
  function Members(cases: seq<Case>, g: Text): set<nat> {
    set k: nat | k < |cases| && cases[k].group == Some(g)
  }

  lemma {:induction false} PendingInCounts(cases: seq<Case>, g: Text)
    ensures PendingIn(cases, g) == |Members(cases, g)|
  {
    if cases != [] {
      var n := |cases| - 1;
      PendingInCounts(cases[..n], g);
      assert Members(cases, g) == Members(cases[..n], g) + if cases[n].group == Some(g) then {n} else {};
    }
  }

  /** A case alone counts for one; a case of a group for its pending cases over the workers it would then have. */
  lemma {:induction false} ScoreMeans(q: Queue, i: nat)
    requires i < |q.pending|
    ensures q.pending[i].group.None? ==> Score(q, i) == 1.0
    ensures q.pending[i].group.Some? ==>
      var g := q.pending[i].group.value;
      && (g in q.workers ==> Score(q, i) * (q.workers[g] + 1) as real == |Members(q.pending, g)| as real)
      && (g !in q.workers ==> Score(q, i) == |Members(q.pending, g)| as real)
  {
    if q.pending[i].group.Some? {
      PendingInCounts(q.pending, q.pending[i].group.value);
    }
  }

  /** No pending case scores higher, and none before it scores as high. */
  predicate IsBest(q: Queue, i: nat) {
    && i < |q.pending|
    && (forall j :: 0 <= j < |q.pending| ==> Score(q, j) <= Score(q, i))
    && (forall j :: 0 <= j < i ==> Score(q, j) < Score(q, i))
  }

  /** The best of the first `n`. */
  function Best(q: Queue, n: nat): (i: nat)
    requires 0 < n <= |q.pending|
    ensures i < n
    ensures forall j :: 0 <= j < n ==> Score(q, j) <= Score(q, i)
    ensures forall j :: 0 <= j < i ==> Score(q, j) < Score(q, i)
  {
    if n == 1 then 0
    else
      var best := Best(q, n - 1);
      if Score(q, n - 1) > Score(q, best) then n - 1 else best
  }

  lemma {:induction false} BestUnique(q: Queue, i: nat)
    requires IsBest(q, i)
    ensures forall j :: IsBest(q, j) <==> j == i
  {
    hide Score;
    forall j | IsBest(q, j) ensures j == i {
      assert Score(q, i) == Score(q, j);
    }
  }

  /** Fractions are compared by cross-multiplying, which is exact. */
  lemma {:induction false} CrossMultiply(a: nat, b: nat, c: nat, d: nat)
    requires b > 0 && d > 0
    ensures a * d > c * b <==> a as real / b as real > c as real / d as real
  {
    var x, y := a as real / b as real, c as real / d as real;
    assert x * b as real == a as real && y * d as real == c as real;
    var bd := b as real * d as real;
    assert (a * d) as real == x * bd;
    assert (c * b) as real == y * bd;
    if x > y {
      assert (x - y) * bd > 0.0;
    } else {
      assert (y - x) * bd >= 0.0;
    }
  }

  /** The first pending case of group `g`. */
  function Position(cases: seq<Case>, g: Text): (r: Option<nat>)
    ensures match r
            case None => forall k :: 0 <= k < |cases| ==> cases[k].group != Some(g)
            case Some(i) =>
              && i < |cases| && cases[i].group == Some(g)
              && forall k :: 0 <= k < i ==> cases[k].group != Some(g)
  {
    if cases == [] then None
    else if cases[0].group == Some(g) then Some(0)
    else match Position(cases[1..], g)
      case None => None
      case Some(i) => Some(i + 1)
  }

  function Without<T>(s: seq<T>, i: nat): (r: seq<T>)
    requires i < |s|
    ensures |r| == |s| - 1
  {
    s[..i] + s[i + 1..]
  }

  function Left(m: Counts, g: Text): Counts {
    if g !in m then m
    else if m[g] <= 1 then m - {g}
    else m[g := m[g] - 1]
  }

  function Joined(m: Counts, k: Option<Text>): Counts {
    match k
    case None => m
    case Some(g) => m[g := Count(m, g) + 1]
  }

  /** Moves on to the best case anywhere, joining its group. */
  function MoveOn(q: Queue): (Queue, Option<Case>) {
    if q.pending == [] then (q, None)
    else
      var i := Best(q, |q.pending|);
      (Queue(Without(q.pending, i), Joined(q.workers, q.pending[i].group)), Some(q.pending[i]))
  }

  function TakeNext(q: Queue, current: Option<Text>): (Queue, Option<Case>) {
    match current
    case None => MoveOn(q)
    case Some(g) =>
      match Position(q.pending, g)
      case Some(i) => (q.(pending := Without(q.pending, i)), Some(q.pending[i]))
      case None => MoveOn(q.(workers := Left(q.workers, g)))
  }

  // ---------------------------------------------------------------- what a take means

  lemma {:induction false} SameGroupSameScore(q: Queue, i: nat, j: nat)
    requires i < |q.pending| && j < |q.pending|
    ensures q.pending[i].group == q.pending[j].group ==> Score(q, i) == Score(q, j)
  {
  }

  /** The best case is the earliest of its own group, and the earliest ungrouped one if it has none. */
  lemma {:induction false} BestIsEarliest(q: Queue, i: nat)
    requires IsBest(q, i)
    ensures forall j :: 0 <= j < i ==> q.pending[j].group != q.pending[i].group
  {
    forall j | 0 <= j < i ensures q.pending[j].group != q.pending[i].group {
      SameGroupSameScore(q, i, j);
    }
  }

  /** Index `i` is where the case handed out stood. */
  predicate TakenAt(q: Queue, r: (Queue, Option<Case>), i: nat) {
    && i < |q.pending|
    && r.1 == Some(q.pending[i])
    && r.0.pending == Without(q.pending, i)
    && (forall j :: 0 <= j < i ==> q.pending[j].group != q.pending[i].group)
  }

  /**
  A worker never leaves a group that still has work; when it does leave, the case it gets is the best of
  all with its own departure counted. Every case handed out is the earliest of its group.
  */
  lemma {:induction false} TakeMeans(q: Queue, current: Option<Text>)
    ensures var r := TakeNext(q, current);
            && (r.1 == None <==> q.pending == [])
            && (r.1 == None ==> r.0.pending == [])
            && (r.1.Some? ==> exists i: nat :: TakenAt(q, r, i))
    ensures var r := TakeNext(q, current);
            current.Some? && PendingIn(q.pending, current.value) > 0
            ==> r.1.Some? && r.1.value.group == current && r.0.workers == q.workers
    ensures var r := TakeNext(q, current);
            current.Some? && PendingIn(q.pending, current.value) == 0
            ==> var away := q.(workers := Left(q.workers, current.value));
                r.1.Some? ==> (r.1.value.group != current && exists i: nat :: IsBest(away, i) && TakenAt(q, r, i))
    ensures var r := TakeNext(q, current);
            current == None && r.1.Some? ==> exists i: nat :: IsBest(q, i) && TakenAt(q, r, i)
  {
    var r := TakeNext(q, current);
    match current {
      case None => MoveOnMeans(q);
      case Some(g) =>
        PendingInZero(q.pending, g);
        match Position(q.pending, g) {
          case Some(i) => assert TakenAt(q, r, i);
          case None =>
            var away := q.(workers := Left(q.workers, g));
            MoveOnMeans(away);
            if q.pending != [] {
              var i := Best(away, |q.pending|);
              assert IsBest(away, i) && TakenAt(q, r, i);
            }
        }
    }
  }

  lemma {:induction false} MoveOnMeans(q: Queue)
    ensures var r := MoveOn(q);
            q.pending != [] ==> var i := Best(q, |q.pending|); IsBest(q, i) && TakenAt(q, r, i)
  {
    if q.pending != [] {
      BestIsEarliest(q, Best(q, |q.pending|));
    }
  }

  lemma {:induction false} PendingInZero(cases: seq<Case>, g: Text)
    ensures PendingIn(cases, g) == 0 <==> forall k :: 0 <= k < |cases| ==> cases[k].group != Some(g)
  {
    if cases != [] {
      PendingInZero(cases[..|cases| - 1], g);
    }
  }

  /** Leaving and joining keep every count positive, and move exactly the named groups by one. */
  lemma {:induction false} LeftCounts(m: Counts, g: Text)
    requires NoZero(m)
    ensures NoZero(Left(m, g))
    ensures forall h :: Count(Left(m, g), h) == if h == g && g in m then Count(m, h) - 1 else Count(m, h)
  {
  }

  lemma {:induction false} JoinedCounts(m: Counts, k: Option<Text>)
    requires NoZero(m)
    ensures NoZero(Joined(m, k))
    ensures forall h :: Count(Joined(m, k), h) == Count(m, h) + if k == Some(h) then 1 else 0
  {
  }

  // ---------------------------------------------------------------- the scheduler itself

  class Scheduler {
    var pending: seq<Case>
    var workers: Counts

    ghost predicate Valid()
      reads this
    {
      NoZero(workers)
    }

    ghost function State(): Queue
      reads this
    {
      Queue(pending, workers)
    }

    constructor (cases: seq<Case>)
      ensures Valid() && State() == Queue(cases, map[])
    {
      pending := cases;
      workers := map[];
    }

    method Take(current: Option<Text>) returns (r: Option<Case>)
      requires Valid()
      modifies this
      ensures Valid() && (State(), r) == TakeNext(old(State()), current)
    {
      hide Best, IsBest;
      if current.Some? {
        var g := current.value;
        var i := 0;
        while i < |pending|
          invariant 0 <= i <= |pending|
          invariant forall k :: 0 <= k < i ==> pending[k].group != current
        {
          if pending[i].group == current {
            r := Some(pending[i]);
            pending := pending[..i] + pending[i + 1..];
            return;
          }
          i := i + 1;
        }
        Leave(g);
      }
      var best := BestIndex();
      match best {
        case None => return None;
        case Some(i) =>
          var chosen := pending[i];
          pending := pending[..i] + pending[i + 1..];
          if chosen.group.Some? {
            var g := chosen.group.value;
            JoinedCounts(workers, chosen.group);
            workers := workers[g := (if g in workers then workers[g] else 0) + 1];
          }
          r := Some(chosen);
      }
    }

    /** The earliest pending case of maximal score and no other, found with integers only. */
    method BestIndex() returns (r: Option<nat>)
      ensures r == None <==> pending == []
      ensures r.Some? ==> r.value == Best(State(), |pending|)
      ensures r.Some? ==> forall i :: IsBest(State(), i) <==> i == r.value
    {
      var perGroup := PendingPerGroup();
      var best: Option<(nat, nat, nat)> := None;
      var q := Queue(pending, workers);
      for index := 0 to |pending|
        invariant best.None? <==> index == 0
        invariant index > 0 ==> best.value.2 > 0 && best.value.0 == Best(q, index)
        invariant index > 0 ==> Score(q, best.value.0) == best.value.1 as real / best.value.2 as real
      {
        var cases, share := 1, 1;
        if pending[index].group.Some? {
          var g := pending[index].group.value;
          PendingInZero(pending, g);
          cases := perGroup[g];
          share := (if g in workers then workers[g] else 0) + 1;
        }
        assert Score(q, index) == cases as real / share as real;
        if best.Some? {
          CrossMultiply(cases, share, best.value.1, best.value.2);
        }
        if best.None? || cases * best.value.2 > best.value.1 * share {
          best := Some((index, cases, share));
        }
      }
      r := if best.None? then None else Some(best.value.0);
      if r.Some? {
        BestUnique(q, r.value);
      }
    }

    method PendingPerGroup() returns (m: map<Text, nat>)
      ensures forall g :: Count(m, g) == PendingIn(pending, g)
      ensures NoZero(m)
    {
      m := map[];
      for i := 0 to |pending|
        invariant forall g :: Count(m, g) == PendingIn(pending[..i], g)
        invariant NoZero(m)
      {
        assert pending[..i + 1][..i] == pending[..i];
        if pending[i].group.Some? {
          var g := pending[i].group.value;
          m := m[g := (if g in m then m[g] else 0) + 1];
        }
      }
      assert pending[..|pending|] == pending;
    }

    method Leave(g: Text)
      requires Valid()
      modifies this`workers
      ensures Valid() && workers == Left(old(workers), g)
    {
      if g in workers {
        var count := workers[g] - 1;
        workers := workers[g := count];
        if count == 0 {
          workers := workers - {g};
        }
      }
    }

    method Drain() returns (r: seq<Case>)
      modifies this`pending
      ensures r == old(pending) && pending == []
    {
      r := pending;
      pending := [];
    }
  }
}
