/**
The extraction as a whole, and the independent traversal that predicts how many expressions it emits.
*/
module CtreeGap {
  import opened Bytes
  import opened Ctree
  import opened CtreeDecode
  import opened CtreeWalk
  import opened CtreeWalker
  import opened CtreeFinish

  // ---------------------------------------------------------------- the extraction

  /** What the type table recorded and cannot name itself: the width of a scalar, placeholders never filled. */
  datatype TypeSide = TypeSide(tooWide: Option<nat>, unfilled: nat)

  datatype ExtractError = InTree(fault: Fault) | ScalarTooWide(bytes: nat) | UnfilledType(count: nat)

  datatype Extracted =
    | Tree(arenas: Arenas, root: nat, parents: map<Ref, Ref>)
    | Rejected(error: ExtractError)

  /**
  A tree is rejected exactly when it or its types have a fault, and then for the first one: a fault of the walk comes
  before one of the type table, a scalar's width before an unfilled name. Otherwise the result reads back as the tree
  with its empty slots absent, no node stands at the absent address, and every node but the root has its one parent.
  */
  method Extract(body: Item, types: TypeSide) returns (r: Extracted)
    requires Shaped(body) && !IsExpr(body.head) && !body.head.Absent? && Fits(Pos(0, 0), Elide(body))
    ensures r.Tree? <==> Faultless(Heads(Elide(body))) && types.tooWide == None && types.unfilled == 0
    ensures r.Rejected? ==>
              match r.error
              case InTree(fault) => IsFirstFault(Heads(Elide(body)), fault)
              case ScalarTooWide(bytes) => Faultless(Heads(Elide(body))) && types.tooWide == Some(bytes)
              case UnfilledType(count) =>
                Faultless(Heads(Elide(body))) && types.tooWide == None && types.unfilled == count
    ensures r.Tree? ==> Decode(r.arenas, false, r.root) == Some(Elide(body))
    ensures r.Tree? ==> Mirrors(r.arenas, Ref(false, r.root), Elide(body))
    ensures r.Tree? ==> forall q :: InArena(r.arenas, q) ==> NodeAt(r.arenas, q).at != Some(0xFFFF_FFFF_FFFF_FFFF)
    ensures r.Tree? ==> ChildFirst(r.arenas.exprs) && StmtsChildFirst(r.arenas.stmts)
    ensures r.Tree? ==> |r.arenas.exprs| == ExprCount(Elide(body)) && |r.arenas.stmts| == StmtCount(Elide(body))
    ensures r.Tree? ==> forall c :: c in r.parents <==> InArena(r.arenas, c) && c != Ref(false, r.root)
    ensures r.Tree? ==> forall c, q ::
      c in r.parents && r.parents[c] == q <==> InArena(r.arenas, q) && c in Children(r.arenas, q)
  {
    hide Elide, ElideAll, Fits, Shaped, Holds, Children, ExprCount, StmtCount, Decode, FirstFault, HandleOf,
      Heads, Faultless, IsFirstFault, ChildFirst, StmtsChildFirst, Mirrors, InArena, NodeAt;
    var nodes := new CallbackBuilder();
    var root := WalkStmt(nodes, body);
    ghost var t := Elide(body);
    ElideShaped(body);
    FirstFaultMeans(t);
    if nodes.error.Some? {
      return Rejected(InTree(nodes.error.value));
    }
    if types.tooWide.Some? {
      return Rejected(ScalarTooWide(types.tooWide.value));
    }
    if types.unfilled != 0 {
      return Rejected(UnfilledType(types.unfilled));
    }
    var arenas := Arenas(nodes.exprs, nodes.stmts);
    SameHead(body);
    DecodeHolds(arenas, t, Pos(0, 0));
    var parents, visited := WireParents(arenas, root, t);
    ParentsInArena(arenas, t, parents);
    WholeChildFirst(arenas, t);
    WholeMirrors(arenas, t);
    r := Tree(arenas, root, parents);
  }

  lemma {:induction false} WholeChildFirst(a: Arenas, t: Item)
    requires Good(a, t, Pos(0, 0)) && |a.exprs| == ExprCount(t) && |a.stmts| == StmtCount(t)
    ensures ChildFirst(a.exprs) && StmtsChildFirst(a.stmts)
  {
    hide Good, In, KidIsExpr;
    AllWithin(a, t);
    forall h, i | 0 <= h < |a.exprs| && 0 <= i < |a.exprs[h].kids| ensures a.exprs[h].kids[i] < h {
      assert InArena(a, Ref(true, h));
      ChildrenBefore(a, t, Pos(0, 0), Ref(true, h), i);
    }
    forall h, i | 0 <= h < |a.stmts| && 0 <= i < |a.stmts[h].kids|
      ensures a.stmts[h].kids[i] != NONE && !KidIsExpr(a.stmts[h].head, i) ==> a.stmts[h].kids[i] < h
    {
      assert InArena(a, Ref(false, h));
      ChildrenBefore(a, t, Pos(0, 0), Ref(false, h), i);
    }
  }

  lemma {:induction false} WholeMirrors(a: Arenas, t: Item)
    requires Good(a, t, Pos(0, 0)) && |a.exprs| == ExprCount(t) && |a.stmts| == StmtCount(t)
    ensures Mirrors(a, Ref(IsExpr(t.head), HandleOf(t, Pos(0, 0))), t)
    ensures forall q :: InArena(a, q) ==> NodeAt(a, q).at != Some(0xFFFF_FFFF_FFFF_FFFF)
  {
    hide Good, In, Mirrors;
    GoodMirrors(a, t, Pos(0, 0));
    AllWithin(a, t);
    forall q | InArena(a, q) ensures NodeAt(a, q).at != Some(0xFFFF_FFFF_FFFF_FFFF) {
      AddressReal(a, t, Pos(0, 0), q);
    }
  }

  lemma {:induction false} SameHead(t: Item)
    ensures Elide(t).head == t.head
  {
  }

  lemma {:induction false} ParentsInArena(a: Arenas, t: Item, parents: map<Ref, Ref>)
    requires Good(a, t, Pos(0, 0)) && |a.exprs| == ExprCount(t) && |a.stmts| == StmtCount(t)
    requires forall c, q :: c in parents && parents[c] == q <==> InArena(a, q) && c in Children(a, q)
    ensures forall c :: c in parents ==> InArena(a, c)
  {
    hide Good, Children;
    AllWithin(a, t);
    forall c | c in parents ensures InArena(a, c) {
      ChildrenWithin(a, t, Pos(0, 0), parents[c], c);
      InRange(a, t, Pos(0, 0), c);
    }
  }

  // ---------------------------------------------------------------- the independent count

  /** The number of a node's expression kind. */
  function Ctype(h: Head): (c: nat)
    requires IsExpr(h) && (h.Op? ==> h.ctype < CTYPE_SLOTS)
    ensures c < CTYPE_SLOTS
  {
    match h
    case Op(c) => c
    case Deref(_) => 51
    case Call => 57
    case MemberRef(_) => 59
    case MemberPtr(_) => 60
    case Num(_) => 61
    case Fnum(_) => 62
    case Str(_) => 63
    case Obj(_, _) => 64
    case Var(_) => 65
    case Helper(_) => 68
  }

  /** The expressions that are no operators have numbers of their own. */
  lemma {:induction false} CtypeMeans(h: Head)
    requires IsExpr(h) && (h.Op? ==> h.ctype < CTYPE_SLOTS)
    ensures h.Op? ==> Ctype(h) == h.ctype
    ensures !h.Op? ==>
              && (Ctype(h) == 51 <==> h.Deref?) && (Ctype(h) == 57 <==> h.Call?)
              && (Ctype(h) == 59 <==> h.MemberRef?) && (Ctype(h) == 60 <==> h.MemberPtr?)
              && (Ctype(h) == 61 <==> h.Num?) && (Ctype(h) == 62 <==> h.Fnum?) && (Ctype(h) == 63 <==> h.Str?)
              && (Ctype(h) == 64 <==> h.Obj?) && (Ctype(h) == 65 <==> h.Var?) && (Ctype(h) == 68 <==> h.Helper?)
  {
  }

  /** Every expression of the tree, empty ones in optional slots included. */
  function ExprTotal(t: Item): nat {
    ExprTotals(t.kids) + if IsExpr(t.head) then 1 else 0
  }

  function ExprTotals(ts: seq<Item>): nat {
    if ts == [] then 0 else ExprTotals(ts[..|ts| - 1]) + ExprTotal(ts[|ts| - 1])
  }

  predicate EmptySlot(parent: Head, i: nat, k: Item) {
    IsSlot(parent, i) && k.head == Op(EMPTY)
  }

  /** How many `for`, `return` and `throw` slots hold an empty expression. */
  function EmptySlots(t: Item): nat {
    EmptySlotsAll(t.head, t.kids)
  }

  function EmptySlotsAll(h: Head, kids: seq<Item>): nat
    decreases kids
  {
    if kids == [] then 0
    else
      var n := |kids| - 1;
      EmptySlotsAll(h, kids[..n]) + EmptySlots(kids[n]) + if EmptySlot(h, n, kids[n]) then 1 else 0
  }

  /** What the walk leaves out is exactly the empty slots. */
  lemma {:induction false} GapIsEmptySlots(t: Item)
    requires Shaped(t)
    ensures ExprTotal(t) == ExprCount(Elide(t)) + EmptySlots(t)
    decreases t
  {
    hide Shaped;
    if t.head.Absent? {
      AbsentKids(t);
    } else {
      ShapedPlaced(t);
      SameHead(t);
      GapOfKids(t.head, t.kids);
    }
  }

  lemma {:induction false} AbsentKids(t: Item)
    requires Shaped(t) && t.head.Absent?
    ensures t.kids == []
  {
  }

  lemma {:induction false} GapOfKids(h: Head, kids: seq<Item>)
    requires CtreeDecode.Placed(h, kids)
    ensures ExprTotals(kids) == ExprCounts(ElideAll(h, kids)) + EmptySlotsAll(h, kids)
    decreases kids
  {
    hide Shaped, Elide, ElideAll, Elided, ExprCount, ExprCounts, EmptySlots, ExprTotal, IsSlot, IsExpr, KidIsExpr;
    if kids == [] {
      NoKids(h);
    } else {
      var n := |kids| - 1;
      var (init, k) := (kids[..n], kids[n]);
      assert CtreeDecode.Placed(h, init);
      GapOfKids(h, init);
      ElideNext(h, kids);
      GapIsEmptySlots(k);
      ElidedGap(h, n, k);
    }
  }

  lemma {:induction false} NoKids(h: Head)
    ensures ExprCounts(ElideAll(h, [])) == 0
  {
  }

  lemma {:induction false} ElideNext(h: Head, kids: seq<Item>)
    requires kids != []
    ensures var n := |kids| - 1;
            ExprCounts(ElideAll(h, kids)) == ExprCounts(ElideAll(h, kids[..n]))
              + ExprCount(if Elided(h, n, kids[n]) then ABSENT else Elide(kids[n]))
  {
    hide ExprCount, Elide, Elided;
    var n := |kids| - 1;
    assert ElideAll(h, kids)[..n] == ElideAll(h, kids[..n]);
  }

  /** An elided child contributes nothing to the walk, and to the gap only if it is an empty slot. */
  lemma {:induction false} ElidedGap(h: Head, n: nat, k: Item)
    requires Shaped(k)
    ensures Elided(h, n, k) ==> ExprCount(ABSENT) == 0 && EmptySlots(k) == 0
    ensures Elided(h, n, k) ==> ExprTotal(k) == if EmptySlot(h, n, k) then 1 else 0
    ensures !Elided(h, n, k) ==> !EmptySlot(h, n, k)
  {
    if Elided(h, n, k) {
      assert k.kids == [];
    }
  }

  class ExprGapVisitor {
    const visited: array<nat>
    const materialized: array<nat>

    constructor ()
      ensures fresh(visited) && fresh(materialized) && visited != materialized
      ensures visited.Length == materialized.Length == 256 == CTYPE_SLOTS
      ensures Sum(visited[..]) == 0 && Sum(materialized[..]) == 0
    {
      visited := new nat[CTYPE_SLOTS](_ => 0);
      materialized := new nat[CTYPE_SLOTS](_ => 0);
      new;
      Zeros(visited[..]);
      Zeros(materialized[..]);
    }

    predicate Valid() {
      visited.Length == materialized.Length == CTYPE_SLOTS && visited != materialized
    }

    method VisitExpr(e: Item, parent: Head, i: nat)
      requires Valid() && Shaped(e) && IsExpr(e.head)
      modifies visited, materialized
      ensures Sum(visited[..]) == old(Sum(visited[..])) + 1
      ensures Sum(materialized[..]) == old(Sum(materialized[..])) + if EmptySlot(parent, i, e) then 0 else 1
    {
      var c := Ctype(e.head);
      Bump(visited[..], c);
      Bump(materialized[..], c);
      visited[c] := visited[c] + 1;
      assert visited[..] == old(visited[..])[c := old(visited[c]) + 1];
      if !EmptySlot(parent, i, e) {
        materialized[c] := materialized[c] + 1;
        assert materialized[..] == old(materialized[..])[c := old(materialized[c]) + 1];
      }
    }

    /** Visits every expression of a tree, told its parent and its place under it. */
    method ApplyTo(t: Item, parent: Head, i: nat)
      requires Valid() && Shaped(t)
      modifies visited, materialized
      ensures Sum(visited[..]) == old(Sum(visited[..])) + ExprTotal(t)
      ensures Sum(materialized[..]) + EmptySlots(t) + (if EmptySlot(parent, i, t) then 1 else 0)
           == old(Sum(materialized[..])) + ExprTotal(t)
      decreases t
    {
      hide Shaped, Sum, IsSlot;
      if IsExpr(t.head) {
        VisitExpr(t, parent, i);
      }
      ghost var v, m := Sum(visited[..]), Sum(materialized[..]);
      assert t.kids[..0] == [];
      ShapedPlaced(t);
      for j := 0 to |t.kids|
        invariant Sum(visited[..]) == v + ExprTotals(t.kids[..j])
        invariant Sum(materialized[..]) + EmptySlotsAll(t.head, t.kids[..j]) == m + ExprTotals(t.kids[..j])
      {
        assert t.kids[..j + 1][..j] == t.kids[..j];
        ApplyTo(t.kids[j], t.head, j);
      }
      assert t.kids[..|t.kids|] == t.kids;
    }
  }

  lemma {:induction false} Zeros(s: seq<nat>)
    requires forall k :: 0 <= k < |s| ==> s[k] == 0
    ensures Sum(s) == 0
  {
    if s != [] {
      Zeros(s[..|s| - 1]);
    }
  }

  lemma {:induction false} Bump(s: seq<nat>, k: nat)
    requires k < |s|
    ensures Sum(s[k := s[k] + 1]) == Sum(s) + 1
  {
    var n := |s| - 1;
    if k == n {
      assert s[k := s[k] + 1][..n] == s[..n];
    } else {
      Bump(s[..n], k);
      assert s[k := s[k] + 1][..n] == s[..n][k := s[k] + 1];
    }
  }

  /**
  The two totals for a function's body: the expected one is exactly what the extraction emits, and the
  shortfall from the visitor's is exactly the empty optional slots.
  */
  method ExprGap(body: Item) returns (visitorTotal: nat, expected: nat)
    requires Shaped(body) && !IsExpr(body.head)
    ensures expected == ExprCount(Elide(body))
    ensures visitorTotal == expected + EmptySlots(body)
  {
    hide Shaped, ExprTotal, EmptySlots, ExprCount, Elide;
    var visitor := new ExprGapVisitor();
    visitor.ApplyTo(body, Absent, 0);
    visitorTotal, expected := 0, 0;
    ghost var v, m := visitor.visited[..], visitor.materialized[..];
    for k := 0 to CTYPE_SLOTS
      invariant visitor.visited[..] == v && visitor.materialized[..] == m
      invariant visitorTotal == Sum(v[..k]) && expected == Sum(m[..k])
    {
      SumNext(v, k);
      SumNext(m, k);
      visitorTotal := visitorTotal + visitor.visited[k];
      expected := expected + visitor.materialized[k];
    }
    assert v[..CTYPE_SLOTS] == v && m[..CTYPE_SLOTS] == m;
    GapIsEmptySlots(body);
  }

  lemma {:induction false} SumNext(s: seq<nat>, k: nat)
    requires k < |s|
    ensures Sum(s[..k + 1]) == Sum(s[..k]) + s[k]
  {
    assert s[..k + 1][..k] == s[..k];
  }
}
