/**
The order in which names are entered and filled. A name's handle tells when it was entered, its place in the
list of fills when its body arrived; together they determine which names were walked inside which, and with
that the size every typedef recorded.
*/
module TypeOrder {
  import opened Bytes
  import opened TypeStore
  import opened TypeTable
  import opened TypeWalk

  /** `fills` lists, without repetition, exactly the names whose bodies are in the table. */
  ghost predicate FilledAre(b: Builder, fills: seq<Name>) {
    && (forall i, j :: 0 <= i < j < |fills| ==> fills[i] != fills[j])
    && (forall n :: n in fills ==> n in b.names && Ready(b, b.names[n]))
    && (forall n :: n in b.names && Ready(b, b.names[n]) ==> n in fills)
  }

  lemma {:induction false} FilledSame(a: Builder, b: Builder, fills: seq<Name>)
    requires WF(a) && FilledAre(a, fills) && Ext(a, b) && b.names == a.names
    requires forall n :: n in a.names && Ready(b, b.names[n]) ==> Ready(a, a.names[n])
    ensures FilledAre(b, fills)
  {
  }

  lemma {:induction false} FilledMore(b: Builder, fills: seq<Name>, n: Name, h: Handle, e: Entry)
    requires WF(b) && FilledAre(b, fills) && n in b.names && b.names[n] == h && h in b.pending && h < |b.table|
    ensures FilledAre(Fill(b, h, e), fills + [n])
  {
    var d := Fill(b, h, e);
    forall m | m in d.names && Ready(d, d.names[m]) ensures m in fills + [n] {
      if m != n {
        assert d.names[m] != h;
      }
    }
  }

  /** When `n` was filled: its place in `fills`, or after all of them. */
  ghost function Rank(fills: seq<Name>, n: Name): (r: nat)
    ensures r <= |fills|
    ensures n in fills <==> r < |fills|
  {
    if fills == [] then 0
    else
      assert fills == [fills[0]] + fills[1..];
      if fills[0] == n then 0 else 1 + Rank(fills[1..], n)
  }

  lemma {:induction false} RankMore(fills: seq<Name>, n: Name, m: Name)
    ensures Rank(fills + [n], m) == if m in fills then Rank(fills, m)
                                    else if m == n then |fills| else |fills| + 1
    decreases |fills|
  {
    if fills == [] {
      assert [n][1..] == [];
    } else {
      assert (fills + [n])[1..] == fills[1..] + [n];
      assert fills == [fills[0]] + fills[1..];
      RankMore(fills[1..], n, m);
    }
  }

  type Names = map<Name, Handle>

  /** No name is filled while one entered after it is not: entries and fills nest like brackets. */
  ghost predicate Nested(names: Names, fills: seq<Name>) {
    forall p, m, q :: p in names && m in names && q in names ==> Uncrossed(names, fills, p, m, q)
  }

  ghost predicate Uncrossed(names: Names, fills: seq<Name>, p: Name, m: Name, q: Name)
    requires p in names && m in names && q in names
  {
    Rank(fills, p) <= Rank(fills, m) < Rank(fills, q) && names[m] < names[q] ==> names[p] < names[q]
  }

  /** What a filled name mentions was filled no later, or entered earlier. */
  ghost predicate Followed(names: Names, store: Store, fills: seq<Name>) {
    forall p :: p in fills ==> p in names && FollowedBy(names, store, fills, p)
  }

  ghost predicate FollowedBy(names: Names, store: Store, fills: seq<Name>, p: Name)
    requires p in names
  {
    p in store && forall q :: q in Next(store, p) ==>
      q in names && (Rank(fills, q) <= Rank(fills, p) || names[q] < names[p])
  }

  /** `n` was entered after `m` and while `m` had no body. */
  ghost predicate During(names: Names, fills: seq<Name>, m: Name, n: Name) {
    m in names && n in names && names[m] < names[n] && Rank(fills, n) <= Rank(fills, m)
  }

  /** A name entered while `m` was in progress is mentioned by one entered before it but not before `m`. */
  ghost predicate Led(names: Names, store: Store, fills: seq<Name>) {
    forall m, n :: During(names, fills, m, n) ==> exists p :: LedBy(names, store, m, p, n)
  }

  ghost predicate LedBy(names: Names, store: Store, m: Name, p: Name, n: Name) {
    && m in names && n in names && p in names && p in store
    && names[m] <= names[p] < names[n] && n in Next(store, p)
  }

  predicate Typedef(d: Def) {
    d.Alias? || d.AliasOf?
  }

  /** A typedef of a name that had no body yet when the typedef was filled. */
  ghost predicate TooEarly(store: Store, fills: seq<Name>, n: Name)
    requires n in store
  {
    store[n].Alias? && store[n].next in store && Rank(fills, n) < Rank(fills, store[n].next)
  }

  /** A filled typedef has its target's size, or none if the target, itself included, had no body yet. */
  ghost predicate SizeRead(b: Builder, store: Store, fills: seq<Name>, n: Name)
    requires n in store && n in b.names && Ready(b, b.names[n])
  {
    Typedef(store[n]) ==>
      var e := b.table[b.names[n]];
      && e.shape.EAlias?
      && if TooEarly(store, fills, n) || e.shape.target == b.names[n] then e.size == None
         else Ready(b, e.shape.target) && e.size == b.table[e.shape.target].size
  }

  ghost predicate SizesRead(b: Builder, store: Store, fills: seq<Name>) {
    forall n :: n in fills ==> n in store && n in b.names && Ready(b, b.names[n]) && SizeRead(b, store, fills, n)
  }

  ghost predicate Ordered(b: Builder, store: Store, fills: seq<Name>) {
    && Nested(b.names, fills) && Followed(b.names, store, fills) && Led(b.names, store, fills)
    && SizesRead(b, store, fills)
  }

  // ---------------------------------------------------------------- what keeps the order

  lemma {:induction false} OrderedEmpty(store: Store)
    ensures Ordered(EMPTY, store, [])
  {
  }

  lemma {:induction false} SizesSame(a: Builder, b: Builder, store: Store, fills: seq<Name>)
    requires SizesRead(a, store, fills) && Ext(a, b)
    ensures SizesRead(b, store, fills)
  {
    hide Rank, TooEarly;
    forall n | n in fills
      ensures n in store && n in b.names && Ready(b, b.names[n]) && SizeRead(b, store, fills, n)
    {
      assert Ready(a, a.names[n]) && SizeRead(a, store, fills, n);
    }
  }

  lemma {:induction false} OrderedSame(a: Builder, b: Builder, store: Store, fills: seq<Name>)
    requires Ordered(a, store, fills) && Ext(a, b) && b.names == a.names
    ensures Ordered(b, store, fills)
  {
    SizesSame(a, b, store, fills);
  }

  /** Entering a name. */
  lemma {:induction false} OrderedEnter(a: Builder, b: Builder, store: Store, fills: seq<Name>, n: Name)
    requires WF(a) && FilledAre(a, fills) && Ordered(a, store, fills)
    requires n !in a.names && b == NamedRef(a, n).0 && Stacked(a, store, {n})
    ensures Ordered(b, store, fills)
  {
    hide Rank, Next, Nested, Followed, Led, SizesRead, Stacked, FilledAre, WF, Ext, Mentions;
    EnterNested(a, fills, n);
    EnterFollowed(a, store, fills, n);
    EnterLed(a, store, fills, n);
    NamedRefWF(a, n);
    SizesSame(a, b, store, fills);
  }

  lemma {:induction false} EnterNested(a: Builder, fills: seq<Name>, n: Name)
    requires WF(a) && FilledAre(a, fills) && n !in a.names && Nested(a.names, fills)
    ensures Nested(a.names[n := |a.table|], fills)
  {
    hide Rank;
    var names := a.names[n := |a.table|];
    assert n !in fills;
    forall p, m, q | p in names && m in names && q in names ensures Uncrossed(names, fills, p, m, q) {
      if p != n && m != n && q != n {
        assert Uncrossed(a.names, fills, p, m, q);
      }
    }
  }

  lemma {:induction false} EnterFollowed(a: Builder, store: Store, fills: seq<Name>, n: Name)
    requires FilledAre(a, fills) && n !in a.names && Followed(a.names, store, fills)
    ensures Followed(a.names[n := |a.table|], store, fills)
  {
    hide Rank, Next;
    var names := a.names[n := |a.table|];
    forall p | p in fills ensures p in names && FollowedBy(names, store, fills, p) {
      assert FollowedBy(a.names, store, fills, p);
    }
  }

  lemma {:induction false} InProgress(b: Builder, fills: seq<Name>, m: Name)
    requires WF(b) && FilledAre(b, fills) && m in b.names && m !in fills
    ensures b.names[m] in b.pending && b.pending[b.names[m]] == Some(m)
  {
  }

  lemma {:induction false} PendingName(b: Builder, h: Handle)
    requires WF(b) && h in b.pending && b.pending[h].Some?
    ensures b.pending[h].value in b.names && b.names[b.pending[h].value] == h < |b.table|
  {
  }

  lemma {:induction false} Mentioning(b: Builder, store: Store, h: Handle, n: Name) returns (k: Handle)
    requires h in b.pending && b.pending[h].Some? && Stacked(b, store, {n})
    ensures h <= k && k in b.pending && b.pending[k].Some?
    ensures b.pending[k].value in store && n in Next(store, b.pending[k].value)
  {
    hide Next;
    k :| h <= k && Mentions(b, store, k, {n});
    assert n in {n};
  }

  lemma {:induction false} LedAt(b: Builder, store: Store, names: Names, n: Name, m: Name, k: Handle)
    requires n !in b.names && m in b.names && names == b.names[n := |b.table|]
    requires k in b.pending && b.pending[k].Some? && b.pending[k].value in store
    requires n in Next(store, b.pending[k].value)
    requires b.pending[k].value in b.names && b.names[b.pending[k].value] == k < |b.table| && b.names[m] <= k
    ensures LedBy(names, store, m, b.pending[k].value, n)
  {
    hide Next;
  }

  /** What is in progress when `n` is entered: the innermost of it mentions `n`. */
  lemma {:induction false} LedByInnermost(a: Builder, store: Store, names: Names, fills: seq<Name>, n: Name, m: Name)
    requires WF(a) && FilledAre(a, fills) && n !in a.names && Stacked(a, store, {n})
    requires m in a.names && m !in fills && names == a.names[n := |a.table|]
    ensures exists p :: LedBy(names, store, m, p, n)
  {
    hide Rank, Next, WF, Stacked, FilledAre, Mentions, LedBy;
    InProgress(a, fills, m);
    var k := Mentioning(a, store, a.names[m], n);
    PendingName(a, k);
    LedAt(a, store, names, n, m, k);
  }

  lemma {:induction false} EnterLed(a: Builder, store: Store, fills: seq<Name>, n: Name)
    requires WF(a) && FilledAre(a, fills) && n !in a.names && Led(a.names, store, fills)
    requires Stacked(a, store, {n})
    ensures Led(a.names[n := |a.table|], store, fills)
  {
    hide Rank, Next, Stacked;
    var names := a.names[n := |a.table|];
    assert n !in fills;
    forall m, x | During(names, fills, m, x) ensures exists p :: LedBy(names, store, m, p, x) {
      if x == n {
        LedByInnermost(a, store, names, fills, n, m);
      } else {
        assert During(a.names, fills, m, x);
        var p :| LedBy(a.names, store, m, p, x);
        assert LedBy(names, store, m, p, x);
      }
    }
  }

  /** Filling the innermost name `n`, everything it mentions being in the table. */
  lemma {:induction false} OrderedFill(b: Builder, store: Store, fills: seq<Name>, n: Name, h: Handle, e: Entry)
    requires WF(b) && FilledAre(b, fills) && Ordered(b, store, fills)
    requires Innermost(b, n, h) && h < |b.table|
    requires WF(Fill(b, h, e)) && Ext(b, Fill(b, h, e))
    requires n in store && RepDef(Fill(b, h, e), store, n) && Next(store, n) <= b.names.Keys
    requires ReadsSize(b, store, n, e)
    ensures Ordered(Fill(b, h, e), store, fills + [n])
  {
    hide Rank, Next, Nested, Followed, Led, SizesRead, FilledAre, WF, Ext, RepDef, ReadsSize;
    FillNested(b, fills, n, h);
    FillFollowed(b, store, fills, n, h);
    FillLed(b, store, fills, n, h);
    FillSizes(b, store, fills, n, h, e);
  }

  ghost predicate Innermost(b: Builder, n: Name, h: Handle) {
    && n in b.names && b.names[n] == h && h in b.pending
    && forall k :: k in b.pending && b.pending[k].Some? ==> k <= h
  }

  ghost predicate ReadsSize(b: Builder, store: Store, n: Name, e: Entry)
    requires n in store
  {
    Typedef(store[n]) && e.shape.EAlias? ==>
      e.shape.target < |b.table| && e.size == b.table[e.shape.target].size
  }

  lemma {:induction false} RanksMore(fills: seq<Name>, n: Name)
    requires n !in fills
    ensures Rank(fills + [n], n) == |fills|
    ensures forall m :: m in fills ==> Rank(fills + [n], m) == Rank(fills, m) < |fills|
    ensures forall m :: m !in fills && m != n ==> Rank(fills + [n], m) == |fills| + 1
    ensures forall m :: m !in fills ==> Rank(fills, m) == |fills|
  {
    hide Rank;
    RankMore(fills, n, n);
    forall m ensures Rank(fills + [n], m) == if m in fills then Rank(fills, m)
                                             else if m == n then |fills| else |fills| + 1
    {
      RankMore(fills, n, m);
    }
  }

  lemma {:induction false} FillNested(b: Builder, fills: seq<Name>, n: Name, h: Handle)
    requires WF(b) && FilledAre(b, fills) && Nested(b.names, fills) && Innermost(b, n, h)
    ensures Nested(b.names, fills + [n])
  {
    hide Rank;
    RanksMore(fills, n);
    var (names, after) := (b.names, fills + [n]);
    forall p, m, q | p in names && m in names && q in names ensures Uncrossed(names, after, p, m, q) {
      assert Uncrossed(names, fills, p, m, q);
      assert q !in fills ==> names[q] in b.pending && b.pending[names[q]] == Some(q);
    }
  }

  lemma {:induction false} FillFollowed(b: Builder, store: Store, fills: seq<Name>, n: Name, h: Handle)
    requires WF(b) && FilledAre(b, fills) && Followed(b.names, store, fills) && Innermost(b, n, h)
    requires n in store && Next(store, n) <= b.names.Keys
    ensures Followed(b.names, store, fills + [n])
  {
    hide Rank, Next;
    RanksMore(fills, n);
    forall p | p in fills + [n] ensures p in b.names && FollowedBy(b.names, store, fills + [n], p) {
      if p == n {
        forall q | q in Next(store, n)
          ensures q in b.names && (Rank(fills + [n], q) <= Rank(fills + [n], n) || b.names[q] < b.names[n])
        {
          if q !in fills && q != n {
            assert b.names[q] in b.pending && b.pending[b.names[q]] == Some(q);
            assert b.names[q] != h;
          }
        }
      } else {
        assert FollowedBy(b.names, store, fills, p);
      }
    }
  }

  lemma {:induction false} FillLed(b: Builder, store: Store, fills: seq<Name>, n: Name, h: Handle)
    requires FilledAre(b, fills) && Led(b.names, store, fills) && Innermost(b, n, h)
    ensures Led(b.names, store, fills + [n])
  {
    hide Rank, Next;
    RanksMore(fills, n);
    forall m, x | During(b.names, fills + [n], m, x) ensures exists p :: LedBy(b.names, store, m, p, x) {
      assert During(b.names, fills, m, x);
    }
  }

  lemma {:induction false} FillSizes(b: Builder, store: Store, fills: seq<Name>, n: Name, h: Handle, e: Entry)
    requires WF(b) && FilledAre(b, fills) && SizesRead(b, store, fills) && Innermost(b, n, h) && h < |b.table|
    requires WF(Fill(b, h, e)) && Ext(b, Fill(b, h, e))
    requires n in store && RepDef(Fill(b, h, e), store, n) && ReadsSize(b, store, n, e)
    ensures SizesRead(Fill(b, h, e), store, fills + [n])
  {
    hide Rank, Next;
    RanksMore(fills, n);
    var d := Fill(b, h, e);
    SizesSame(b, d, store, fills);
    forall x | x in fills + [n]
      ensures x in store && x in d.names && Ready(d, d.names[x]) && SizeRead(d, store, fills + [n], x)
    {
      if x == n {
        NewSize(b, store, fills, n, h, e);
      } else {
        assert SizeRead(d, store, fills, x);
        assert TooEarly(store, fills, x) <==> TooEarly(store, fills + [n], x);
      }
    }
  }

  lemma {:induction false} NewSize(b: Builder, store: Store, fills: seq<Name>, n: Name, h: Handle, e: Entry)
    requires WF(b) && FilledAre(b, fills) && Innermost(b, n, h) && h < |b.table|
    requires WF(Fill(b, h, e)) && n in store && RepDef(Fill(b, h, e), store, n) && ReadsSize(b, store, n, e)
    ensures var d := Fill(b, h, e);
            n in d.names && Ready(d, d.names[n]) && SizeRead(d, store, fills + [n], n)
  {
    hide Rank, Next;
    RanksMore(fills, n);
    var d := Fill(b, h, e);
    match store[n]
    case Alias(m) =>
      if m in store {
        assert m in b.names && b.names[m] == e.shape.target;
        assert m !in fills ==> b.names[m] in b.pending;
      }
    case _ =>
  }

  // ---------------------------------------------------------------- the order of entry

  function Unseen(store: Store, seen: seq<Name>): set<Name> {
    set n | n in store && n !in seen
  }

  /** The names entered once `t` is walked too: depth first, each name's definition at its first sight. */
  function Visit(store: Store, t: Ty, seen: seq<Name>): (r: seq<Name>)
    ensures seen <= r
    decreases Unseen(store, seen), t, 2, 0
  {
    match t
    case Of(s) => VisitShape(store, s, seen)
    case Named(n) =>
      if n !in store || n in seen then seen
      else
        SeesMore(store, seen, n);
        match store[n]
        case Record(body) => VisitMembers(store, body, |body.members|, seen + [n])
        case Enumeration(_) => seen + [n]
        case Alias(m) => Visit(store, Named(m), seen + [n])
        case AliasOf(s) => if Degenerate(store[n]) then seen + [n] else VisitShape(store, s, seen + [n])
  }

  function VisitShape(store: Store, s: Shape, seen: seq<Name>): (r: seq<Name>)
    ensures seen <= r
    decreases Unseen(store, seen), Of(s), 1, 0
  {
    match s
    case Ptr(to, _) => Visit(store, to, seen)
    case Array(elem, _, _) => Visit(store, elem, seen)
    case Func(_, params, _) => VisitParams(store, s, |params|, seen)
    case Udt(body) => VisitMembers(store, body, |body.members|, seen)
    case _ => seen
  }

  /** A signature's return type, then its first `i` parameters. */
  function VisitParams(store: Store, s: Shape, i: nat, seen: seq<Name>): (r: seq<Name>)
    requires s.Func? && i <= |s.params|
    ensures seen <= r
    decreases Unseen(store, seen), Of(s), 0, i
  {
    if i == 0 then Visit(store, s.ret, seen)
    else
      var before := VisitParams(store, s, i - 1, seen);
      assert Unseen(store, before) <= Unseen(store, seen);
      Visit(store, s.params[i - 1], before)
  }

  /** A body's first `i` members. */
  function VisitMembers(store: Store, body: UdtBody, i: nat, seen: seq<Name>): (r: seq<Name>)
    requires i <= |body.members|
    ensures seen <= r
    decreases Unseen(store, seen), Of(Udt(body)), 0, i
  {
    if i == 0 then seen
    else
      var before := VisitMembers(store, body, i - 1, seen);
      assert Unseen(store, before) <= Unseen(store, seen);
      Visit(store, body.members[i - 1].ty, before)
  }

  lemma {:induction false} VisitFunc(store: Store, s: Shape, seen: seq<Name>)
    requires s.Func?
    ensures VisitParams(store, s, 0, seen) == Visit(store, s.ret, seen)
    ensures VisitShape(store, s, seen) == VisitParams(store, s, |s.params|, seen)
  {
    hide Visit;
  }

  lemma {:induction false} NextParam(store: Store, s: Shape, i: nat, seen: seq<Name>)
    requires s.Func? && i < |s.params|
    ensures VisitParams(store, s, i + 1, seen) == Visit(store, s.params[i], VisitParams(store, s, i, seen))
  {
    hide Visit;
  }

  lemma {:induction false} NoMembers(store: Store, body: UdtBody, seen: seq<Name>)
    ensures VisitMembers(store, body, 0, seen) == seen
  {
  }

  lemma {:induction false} NextMember(store: Store, body: UdtBody, i: nat, seen: seq<Name>)
    requires i < |body.members|
    ensures VisitMembers(store, body, i + 1, seen)
         == Visit(store, body.members[i].ty, VisitMembers(store, body, i, seen))
  {
    hide Visit;
  }

  /** The names entered once the first `i` types are walked on one walker, in order of entry. */
  function VisitEach(store: Store, ts: seq<Ty>, i: nat): (r: seq<Name>)
    requires i <= |ts|
  {
    if i == 0 then [] else Visit(store, ts[i - 1], VisitEach(store, ts, i - 1))
  }

  lemma {:induction false} SeesMore(store: Store, seen: seq<Name>, n: Name)
    requires n in store && n !in seen
    ensures Unseen(store, seen + [n]) < Unseen(store, seen)
  {
    assert n in Unseen(store, seen);
  }

  /** `entered` lists the names in the order of their handles. */
  ghost predicate Ascending(names: Names, entered: seq<Name>) {
    && (forall n :: n in names <==> n in entered)
    && (forall i, j :: 0 <= i < j < |entered| ==> names[entered[i]] < names[entered[j]])
  }

  lemma {:induction false} AscendingMore(a: Builder, entered: seq<Name>, n: Name)
    requires WF(a) && Ascending(a.names, entered) && n !in a.names
    ensures Ascending(a.names[n := |a.table|], entered + [n])
  {
    var names, after := a.names[n := |a.table|], entered + [n];
    forall i, j | 0 <= i < j < |after| ensures names[after[i]] < names[after[j]] {
      assert after[i] in a.names;
      assert j < |entered| ==> after[j] in a.names;
    }
  }

  // ---------------------------------------------------------------- walked inside, and led to

  /** Definitions lead from `a` to `n` through names entered no earlier than `m`. */
  ghost predicate LaterIn(names: Names, store: Store, m: Name, a: Name, n: Name, steps: nat)
    decreases steps
  {
    && m in names && a in names && a in store && names[m] <= names[a]
    && if steps == 0 then a == n
       else exists q :: q in Next(store, a) && LaterIn(names, store, m, q, n, steps - 1)
  }

  lemma {:induction false} LaterThen(names: Names, store: Store, m: Name, a: Name, p: Name, n: Name, steps: nat)
    requires LaterIn(names, store, m, a, p, steps) && p in store && n in Next(store, p)
    requires n in names && n in store && names[m] <= names[n]
    ensures LaterIn(names, store, m, a, n, steps + 1)
    decreases steps
  {
    hide Next;
    if steps == 0 {
      assert LaterIn(names, store, m, n, n, 0);
    } else {
      var q :| q in Next(store, a) && LaterIn(names, store, m, q, p, steps - 1);
      LaterThen(names, store, m, q, p, n, steps - 1);
    }
  }

  /** A finished walk: every name is filled, and no two share a handle. */
  ghost predicate AllFilled(names: Names, store: Store, fills: seq<Name>) {
    && names.Keys <= store.Keys && (forall n :: n in names ==> n in fills)
    && (forall m, n :: m in names && n in names && names[m] == names[n] ==> m == n)
  }

  /** Whatever such a path from `m` reaches is filled no later than `m`. */
  lemma {:induction false} PathInside(names: Names, store: Store, fills: seq<Name>, m: Name, a: Name, n: Name,
                                      steps: nat)
    requires AllFilled(names, store, fills) && Nested(names, fills) && Followed(names, store, fills)
    requires LaterIn(names, store, m, a, n, steps) && Rank(fills, a) <= Rank(fills, m)
    ensures n in names && names[m] <= names[n] && Rank(fills, n) <= Rank(fills, m)
    decreases steps
  {
    hide Next, Rank;
    if steps > 0 {
      var q :| q in Next(store, a) && LaterIn(names, store, m, q, n, steps - 1);
      assert FollowedBy(names, store, fills, a);
      assert Uncrossed(names, fills, a, m, q);
      PathInside(names, store, fills, m, q, n, steps - 1);
    }
  }

  /** Whatever was entered while `m` was in progress is at the end of such a path from `m`. */
  lemma {:induction false} InsidePath(names: Names, store: Store, fills: seq<Name>, m: Name, n: Name)
    requires AllFilled(names, store, fills) && Nested(names, fills) && Led(names, store, fills)
    requires During(names, fills, m, n)
    ensures exists steps: nat :: LaterIn(names, store, m, m, n, steps)
    decreases names[n]
  {
    hide Next, Rank;
    var p :| LedBy(names, store, m, p, n);
    if p == m {
      assert LaterIn(names, store, m, m, m, 0);
      LaterThen(names, store, m, m, m, n, 0);
    } else {
      assert Uncrossed(names, fills, n, m, p);
      InsidePath(names, store, fills, m, p);
      var steps: nat :| LaterIn(names, store, m, m, p, steps);
      LaterThen(names, store, m, m, p, n, steps);
    }
  }

  /** `n` was entered between `m`'s entry and `m`'s fill. */
  ghost predicate EnteredWithin(names: Names, fills: seq<Name>, m: Name, n: Name) {
    m in names && n in names && names[m] < names[n] && Rank(fills, n) < Rank(fills, m)
  }

  /** Two names were filled at different times. */
  lemma {:induction false} RankDistinct(fills: seq<Name>, m: Name, n: Name)
    requires m in fills && Rank(fills, m) == Rank(fills, n)
    ensures m == n
    decreases |fills|
  {
    assert fills == [fills[0]] + fills[1..];
    if fills[0] != m && fills[0] != n {
      RankDistinct(fills[1..], m, n);
    }
  }

  /** One name is walked inside another exactly if a path leads to it through names not entered before. */
  lemma {:induction false} WithinIsPath(names: Names, store: Store, fills: seq<Name>, m: Name, n: Name)
    requires AllFilled(names, store, fills)
    requires Nested(names, fills) && Followed(names, store, fills) && Led(names, store, fills)
    requires m in names && n in names && m != n
    ensures EnteredWithin(names, fills, m, n) <==> exists steps: nat :: LaterIn(names, store, m, m, n, steps)
  {
    hide Next, Rank, AllFilled, Nested, Followed, Led;
    if EnteredWithin(names, fills, m, n) {
      InsidePath(names, store, fills, m, n);
    }
    if exists steps: nat :: LaterIn(names, store, m, m, n, steps) {
      var steps: nat :| LaterIn(names, store, m, m, n, steps);
      PathInside(names, store, fills, m, m, n, steps);
      Apart(names, store, fills, m, n);
    }
  }

  lemma {:induction false} Apart(names: Names, store: Store, fills: seq<Name>, m: Name, n: Name)
    requires AllFilled(names, store, fills) && m in names && n in names && m != n
    ensures names[m] != names[n] && Rank(fills, m) != Rank(fills, n)
  {
    hide Rank;
    if Rank(fills, m) == Rank(fills, n) {
      RankDistinct(fills, m, n);
    }
  }

  /** A target that is filled after its typedef was in progress around it. */
  lemma {:induction false} EarlyIsWithin(names: Names, store: Store, fills: seq<Name>, n: Name, m: Name)
    requires AllFilled(names, store, fills) && Followed(names, store, fills)
    requires n in names && n in store && m in Next(store, n) && m != n
    ensures m in names && (Rank(fills, n) < Rank(fills, m) <==> EnteredWithin(names, fills, m, n))
  {
    hide Next, Rank;
    assert FollowedBy(names, store, fills, n);
  }
}
