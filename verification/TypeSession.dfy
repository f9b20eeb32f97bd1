/**
Sequences of walks on one walker.
*/
module TypeSession {
  import opened TypeStore
  import opened TypeTable
  import opened TypeWalk
  import opened TypeOrder
  import opened TypeWalker
  import opened TypeUnfold

  /** Every name some type in the list reaches. */
  ghost predicate ReachedBy(store: Store, ts: seq<Ty>, n: Name) {
    exists i :: 0 <= i < |ts| && Reached(store, ts[i], n)
  }

  /** A finished table, with the orders in which its names were filled and entered. */
  ghost predicate Walked(b: Builder, store: Store, fills: seq<Name>, order: seq<Name>) {
    Finished(b, store) && FilledAre(b, fills) && Ordered(b, store, fills) && Ascending(b.names, order)
  }

  /**
  Any sequence of types walked on one walker. Each returned handle stands for its type, the table holds
  exactly the names the types reach, entered in depth-first order, and each of their bodies was filled
  exactly once.
  */
  method WalkEach(store: Store, ts: seq<Ty>) returns (b: Builder, hs: seq<Handle>, ghost fills: seq<Name>)
    ensures Walked(b, store, fills, VisitEach(store, ts, |ts|))
    ensures |hs| == |ts| && forall i :: 0 <= i < |ts| ==> Rep(b, store, hs[i], ts[i])
    ensures forall n :: n in b.names <==> ReachedBy(store, ts, n)
    ensures forall n :: multiset(fills)[n] == if n in b.names then 1 else 0
    ensures forall n :: n in b.names && n in store && store[n].Enumeration? ==>
              EnumRecorded(b, b.names[n], store[n].consts)
  {
    hide WF, Done, FilledAre, Ordered, Ascending, Ext, After, Rep, Direct, Reached, Stacked, Visit;
    var w := new Walker(store);
    hs := [];
    for i := 0 to |ts|
      invariant w.Valid() && w.store == store && w.vis.pending == map[]
      invariant Reps(w.vis, store, hs, ts[..i]) && w.entered == VisitEach(store, ts, i)
      invariant forall n :: n in w.vis.names ==> ReachedBy(store, ts[..i], n)
      invariant forall j :: 0 <= j < i ==> Direct(store, ts[j]) <= w.vis.names.Keys
    {
      ghost var before := w.vis;
      StackedNone(w.vis, store, Direct(store, ts[i]));
      var h := w.Ty(ts[i]);
      AfterGrows(store, Direct(store, ts[i]), before, w.vis);
      RepsMore(before, w.vis, store, hs, ts[..i], h, ts[i]);
      ReachedMore(store, ts, i, before, w.vis);
      hs := hs + [h];
      assert ts[..i] + [ts[i]] == ts[..i + 1];
    }
    assert ts[..|ts|] == ts;
    b, fills := w.vis, w.fills;
    AllReached(b, store, ts);
    FilledOnce(b, store, fills);
    EnumsRecorded(b, store);
  }

  /** Every named enum; an unnamed one is recorded the same wherever a handle stands for it. */
  lemma {:induction false} EnumsRecorded(b: Builder, store: Store)
    requires Finished(b, store)
    ensures forall n :: n in b.names && n in store && store[n].Enumeration? ==>
              EnumRecorded(b, b.names[n], store[n].consts)
    ensures forall h, c :: Rep(b, store, h, Of(Enum(c))) ==> EnumRecorded(b, h, c)
  {
    hide EnumRecorded;
    forall n | n in b.names && n in store && store[n].Enumeration?
      ensures EnumRecorded(b, b.names[n], store[n].consts)
    {
      SettledAt(b, store, n);
    }
  }

  lemma {:induction false} StackedNone(b: Builder, store: Store, to: set<Name>)
    requires b.pending == map[]
    ensures Stacked(b, store, to)
  {
  }

  lemma {:induction false} AfterGrows(store: Store, from: set<Name>, a: Builder, b: Builder)
    requires After(store, from, a, b)
    ensures Ext(a, b) && b.pending == a.pending && from <= b.names.Keys && a.names.Keys <= b.names.Keys
  {
  }

  lemma {:induction false} ReachedMore(store: Store, ts: seq<Ty>, i: nat, a: Builder, b: Builder)
    requires i < |ts| && After(store, Direct(store, ts[i]), a, b)
    requires forall n :: n in a.names ==> ReachedBy(store, ts[..i], n)
    ensures forall n :: n in b.names ==> ReachedBy(store, ts[..i + 1], n)
  {
    forall n | n in b.names ensures ReachedBy(store, ts[..i + 1], n) {
      if n in a.names {
        var j :| 0 <= j < i && Reached(store, ts[..i][j], n);
        assert ts[..i + 1][j] == ts[..i][j];
      } else {
        assert LedFrom(store, Direct(store, ts[i]), n);
        assert Reached(store, ts[..i + 1][i], n);
      }
    }
  }

  lemma {:induction false} AllReached(b: Builder, store: Store, ts: seq<Ty>)
    requires Finished(b, store)
    requires forall j :: 0 <= j < |ts| ==> Direct(store, ts[j]) <= b.names.Keys
    ensures forall n :: ReachedBy(store, ts, n) ==> n in b.names
  {
    forall n | ReachedBy(store, ts, n) ensures n in b.names {
      var i :| 0 <= i < |ts| && Reached(store, ts[i], n);
      var m :| m in Direct(store, ts[i]) && Leads(store, m, n);
      var steps: nat :| LeadsIn(store, m, n, steps);
      forall p | p in b.names ensures p in store && Next(store, p) <= b.names.Keys {
        SettledAt(b, store, p);
      }
      ClosedHolds(store, b.names.Keys, m, n, steps);
    }
  }

  lemma {:induction false} FilledOnce(b: Builder, store: Store, fills: seq<Name>)
    requires Finished(b, store) && FilledAre(b, fills)
    ensures forall n :: multiset(fills)[n] == if n in b.names then 1 else 0
  {
    forall n ensures multiset(fills)[n] == if n in b.names then 1 else 0 {
      if n in b.names {
        SettledAt(b, store, n);
      }
      CountDistinct(fills, n);
    }
  }

  lemma {:induction false} CountDistinct(s: seq<Name>, n: Name)
    requires forall i, j :: 0 <= i < j < |s| ==> s[i] != s[j]
    ensures multiset(s)[n] == if n in s then 1 else 0
  {
    if s != [] {
      var last := |s| - 1;
      CountDistinct(s[..last], n);
      assert s == s[..last] + [s[last]];
      assert s[last] !in s[..last];
    }
  }
}
