/** Wiring parents once the walk is over: every node but the root is some one node's child, and gets it. */
module CtreeFinish {
  import opened Bytes
  import opened Ctree
  import opened CtreeDecode
  import opened CtreeWalk

  /** A node of either arena. */
  datatype Ref = Ref(isExpr: bool, h: nat)

  predicate InArena(a: Arenas, r: Ref) {
    r.h < if r.isExpr then |a.exprs| else |a.stmts|
  }

  /** The children present, in source order. */
  function Present(head: Head, kids: seq<nat>): seq<Ref> {
    if kids == [] then []
    else
      var n := |kids| - 1;
      Present(head, kids[..n]) + if kids[n] == NONE then [] else [Ref(KidIsExpr(head, n), kids[n])]
  }

  function Children(a: Arenas, r: Ref): seq<Ref>
    requires InArena(a, r)
  {
    var node := if r.isExpr then a.exprs[r.h] else a.stmts[r.h];
    Present(node.head, node.kids)
  }

  // ---------------------------------------------------------------- where a tree's nodes are

  /** A tree and where it is lowered from. */
  datatype Placed = Placed(t: Item, p: Pos)

  function TopRef(t: Item, p: Pos): Ref {
    Ref(IsExpr(t.head), HandleOf(t, p))
  }

  predicate In(r: Ref, t: Item, p: Pos) {
    if r.isExpr then p.e <= r.h < p.e + ExprCount(t) else p.s <= r.h < p.s + StmtCount(t)
  }

  /** The arenas hold this subtree, all its handles distinct from the absent one. */
  predicate Good(a: Arenas, t: Item, p: Pos) {
    Shaped(t) && !t.head.Absent? && Holds(a, t, p) && Fits(p, t)
  }

  function KidPos(t: Item, p: Pos, i: nat): Pos
    requires i < |t.kids|
  {
    AfterAll(p, t.kids[..i])
  }

  lemma {:induction false} HoldsKid(a: Arenas, ts: seq<Item>, p: Pos, i: nat)
    requires HoldsAll(a, ts, p) && i < |ts|
    ensures Holds(a, ts[i], AfterAll(p, ts[..i]))
    decreases |ts|
  {
    hide Holds;
    if i < |ts| - 1 {
      HoldsKid(a, ts[..|ts| - 1], p, i);
      assert ts[..|ts| - 1][..i] == ts[..i];
    }
  }

  lemma {:induction false} KidsAfter(ts: seq<Item>, i: nat, j: nat)
    requires i < j <= |ts|
    ensures ExprCounts(ts[..i]) + ExprCount(ts[i]) <= ExprCounts(ts[..j])
    ensures StmtCounts(ts[..i]) + StmtCount(ts[i]) <= StmtCounts(ts[..j])
  {
    hide ExprCount, StmtCount;
    CountsPrefix(ts[..j], i + 1);
    assert ts[..j][..i + 1] == ts[..i + 1];
    assert ts[..i + 1][..i] == ts[..i];
  }

  /** A child is within its parent's range, below the parent itself. */
  lemma {:induction false} KidWithin(t: Item, p: Pos, i: nat, r: Ref)
    requires !t.head.Absent? && i < |t.kids| && In(r, t.kids[i], KidPos(t, p, i))
    ensures In(r, t, p) && r != TopRef(t, p)
  {
    KidsAfter(t.kids, i, |t.kids|);
    assert t.kids[..|t.kids|] == t.kids;
  }

  lemma {:induction false} GoodKid(a: Arenas, t: Item, p: Pos, i: nat)
    requires Good(a, t, p) && i < |t.kids| && !t.kids[i].head.Absent?
    ensures Good(a, t.kids[i], KidPos(t, p, i))
    ensures IsExpr(t.kids[i].head) == KidIsExpr(t.head, i)
  {
    hide IsExpr, CountFits, IsSlot, Handles, NodeOf, KidIsExpr, ExprCounts, StmtCounts;
    HoldsKid(a, t.kids, p, i);
    KidsAfter(t.kids, i, |t.kids|);
    assert t.kids[..|t.kids|] == t.kids;
  }

  lemma {:induction false} TopIn(a: Arenas, t: Item, p: Pos)
    requires Good(a, t, p)
    ensures In(TopRef(t, p), t, p) && InArena(a, TopRef(t, p))
  {
  }

  lemma {:induction false} LocateKid(ts: seq<Item>, p: Pos, r: Ref) returns (i: nat)
    requires if r.isExpr then p.e <= r.h < p.e + ExprCounts(ts) else p.s <= r.h < p.s + StmtCounts(ts)
    ensures i < |ts| && In(r, ts[i], AfterAll(p, ts[..i]))
    decreases |ts|
  {
    hide ExprCount, StmtCount;
    var n := |ts| - 1;
    if In(r, ts[n], AfterAll(p, ts[..n])) {
      i := n;
    } else {
      i := LocateKid(ts[..n], p, r);
      assert ts[..n][..i] == ts[..i];
    }
  }

  /** A node of a tree is its top or within exactly one child. */
  lemma {:induction false} Locate(t: Item, p: Pos, r: Ref) returns (i: nat)
    requires !t.head.Absent? && In(r, t, p) && r != TopRef(t, p)
    ensures i < |t.kids| && In(r, t.kids[i], KidPos(t, p, i))
  {
    i := LocateKid(t.kids, p, r);
  }

  lemma {:induction false} OneKid(t: Item, p: Pos, r: Ref, i: nat, j: nat)
    requires i < |t.kids| && In(r, t.kids[i], KidPos(t, p, i))
    requires j < |t.kids| && In(r, t.kids[j], KidPos(t, p, j))
    ensures i == j
  {
    hide ExprCount, StmtCount, ExprCounts, StmtCounts;
    if i < j {
      KidsAfter(t.kids, i, j);
    } else if j < i {
      KidsAfter(t.kids, j, i);
    }
  }

  lemma {:induction false} PresentIn(head: Head, kids: seq<nat>, c: Ref)
    ensures c in Present(head, kids) <==>
            exists i :: 0 <= i < |kids| && kids[i] != NONE && c == Ref(KidIsExpr(head, i), kids[i])
  {
    hide KidIsExpr;
    if kids != [] {
      PresentIn(head, kids[..|kids| - 1], c);
    }
  }

  lemma {:induction false} GoodNode(a: Arenas, t: Item, p: Pos)
    requires Good(a, t, p)
    ensures InArena(a, TopRef(t, p)) && Children(a, TopRef(t, p)) == Present(t.head, Handles(t.kids, p))
  {
    hide HoldsAll, Handles, Present, Shaped;
  }

  /** The children of a lowered node are the tops of its children that are not absent. */
  lemma {:induction false} ChildrenAreTops(a: Arenas, t: Item, p: Pos, c: Ref)
    requires Good(a, t, p)
    ensures InArena(a, TopRef(t, p))
    ensures c in Children(a, TopRef(t, p)) <==>
      exists i :: 0 <= i < |t.kids| && !t.kids[i].head.Absent? && c == TopRef(t.kids[i], KidPos(t, p, i))
  {
    hide Good, Present, Children, ExprCounts, StmtCounts, ExprCount, StmtCount, HandleOf, KidIsExpr, IsExpr;
    GoodNode(a, t, p);
    var hs := Handles(t.kids, p);
    PresentIn(t.head, hs, c);
    forall i | 0 <= i < |t.kids|
      ensures hs[i] == HandleOf(t.kids[i], KidPos(t, p, i))
      ensures hs[i] == NONE <==> t.kids[i].head.Absent?
      ensures hs[i] != NONE ==> Ref(KidIsExpr(t.head, i), hs[i]) == TopRef(t.kids[i], KidPos(t, p, i))
    {
      if !t.kids[i].head.Absent? {
        GoodKid(a, t, p, i);
        BelowNone(a, t.kids[i], KidPos(t, p, i));
      } else {
        AbsentHandle(t.kids[i], KidPos(t, p, i));
      }
    }
  }

  lemma {:induction false} AbsentHandle(t: Item, p: Pos)
    requires t.head.Absent?
    ensures HandleOf(t, p) == NONE
  {
  }

  lemma {:induction false} BelowNone(a: Arenas, t: Item, p: Pos)
    requires Good(a, t, p)
    ensures HandleOf(t, p) < NONE
  {
  }

  // ---------------------------------------------------------------- one parent each

  lemma {:induction false} InRange(a: Arenas, t: Item, p: Pos, r: Ref)
    requires Good(a, t, p) && In(r, t, p)
    ensures InArena(a, r)
  {
    TopIn(a, t, p);
    ArenaCovers(a, t, p);
  }

  lemma {:induction false} ArenaCovers(a: Arenas, t: Item, p: Pos)
    requires Holds(a, t, p) && !t.head.Absent?
    ensures ExprCount(t) > 0 ==> p.e + ExprCount(t) <= |a.exprs|
    ensures StmtCount(t) > 0 ==> p.s + StmtCount(t) <= |a.stmts|
  {
    ArenaCoversAll(a, t.kids, p);
  }

  lemma {:induction false} ArenaCoversAll(a: Arenas, ts: seq<Item>, p: Pos)
    requires HoldsAll(a, ts, p)
    ensures ExprCounts(ts) > 0 ==> p.e + ExprCounts(ts) <= |a.exprs|
    ensures StmtCounts(ts) > 0 ==> p.s + StmtCounts(ts) <= |a.stmts|
  {
    if ts != [] {
      var n := |ts| - 1;
      ArenaCoversAll(a, ts[..n], p);
      if !ts[n].head.Absent? {
        ArenaCovers(a, ts[n], AfterAll(p, ts[..n]));
      }
    }
  }

  /** Children stay within the subtree and are never its top. */
  lemma {:induction false} ChildrenWithin(a: Arenas, t: Item, p: Pos, q: Ref, c: Ref)
    requires Good(a, t, p) && In(q, t, p) && InArena(a, q) && c in Children(a, q)
    ensures In(c, t, p) && c != TopRef(t, p)
    decreases t
  {
    hide Good, In, Children;
    NotAbsent(a, t, p);
    if q == TopRef(t, p) {
      ChildrenAreTops(a, t, p, c);
      var i :| 0 <= i < |t.kids| && !t.kids[i].head.Absent? && c == TopRef(t.kids[i], KidPos(t, p, i));
      GoodKid(a, t, p, i);
      TopIn(a, t.kids[i], KidPos(t, p, i));
      KidWithin(t, p, i, c);
    } else {
      var i := Locate(t, p, q);
      KidNotAbsent(t.kids[i], KidPos(t, p, i), q);
      GoodKid(a, t, p, i);
      ChildrenWithin(a, t.kids[i], KidPos(t, p, i), q, c);
      KidWithin(t, p, i, c);
    }
  }

  lemma {:induction false} NotAbsent(a: Arenas, t: Item, p: Pos)
    requires Good(a, t, p)
    ensures !t.head.Absent?
  {
  }

  lemma {:induction false} KidNotAbsent(t: Item, p: Pos, r: Ref)
    requires In(r, t, p)
    ensures !t.head.Absent?
  {
  }

  lemma {:induction false} HasParent(a: Arenas, t: Item, p: Pos, c: Ref) returns (q: Ref)
    requires Good(a, t, p) && In(c, t, p) && c != TopRef(t, p)
    ensures In(q, t, p) && InArena(a, q) && c in Children(a, q)
    decreases t
  {
    hide Good, In, Children;
    NotAbsent(a, t, p);
    var i := Locate(t, p, c);
    var k, at := t.kids[i], KidPos(t, p, i);
    KidNotAbsent(k, at, c);
    GoodKid(a, t, p, i);
    if c == TopRef(k, at) {
      ChildrenAreTops(a, t, p, c);
      TopIn(a, t, p);
      q := TopRef(t, p);
    } else {
      q := HasParent(a, k, at, c);
      KidWithin(t, p, i, q);
    }
  }

  function NodeAt(a: Arenas, r: Ref): Node
    requires InArena(a, r)
  {
    if r.isExpr then a.exprs[r.h] else a.stmts[r.h]
  }

  /**
  The node at a handle is what one item was lowered to: its payload and type, no address exactly if the item has
  none, and at each present child's handle the same for the child.
  */
  ghost predicate Mirrors(a: Arenas, r: Ref, t: Item)
    decreases t
  {
    InArena(a, r) &&
    var node := NodeAt(a, r);
    && node.head == t.head && node.ty == t.ty
    && (t.at == 0xFFFF_FFFF_FFFF_FFFF ==> node.at == None) && (t.at != 0xFFFF_FFFF_FFFF_FFFF ==> node.at == Some(t.at))
    && |node.kids| == |t.kids|
    && forall i :: 0 <= i < |t.kids| ==>
         if t.kids[i].head.Absent? then node.kids[i] == 0xFFFF_FFFF
         else node.kids[i] < 0xFFFF_FFFF && Mirrors(a, Ref(IsExpr(t.kids[i].head), node.kids[i]), t.kids[i])
  }

  lemma {:induction false} GoodMirrors(a: Arenas, t: Item, p: Pos)
    requires Good(a, t, p)
    ensures Mirrors(a, TopRef(t, p), t)
    decreases t
  {
    hide Good, Handles, HandleOf, IsExpr, KidIsExpr;
    TopIn(a, t, p);
    TopNode(a, t, p);
    forall i | 0 <= i < |t.kids|
      ensures var h := Handles(t.kids, p)[i];
              if t.kids[i].head.Absent? then h == NONE
              else h < NONE && Mirrors(a, Ref(IsExpr(t.kids[i].head), h), t.kids[i])
    {
      if t.kids[i].head.Absent? {
        AbsentHandle(t.kids[i], KidPos(t, p, i));
      } else {
        GoodKid(a, t, p, i);
        BelowNone(a, t.kids[i], KidPos(t, p, i));
        GoodMirrors(a, t.kids[i], KidPos(t, p, i));
      }
    }
  }

  lemma {:induction false} TopNode(a: Arenas, t: Item, p: Pos)
    requires Good(a, t, p) && InArena(a, TopRef(t, p))
    ensures var node := NodeAt(a, TopRef(t, p));
            && node.head == t.head && node.ty == t.ty && node.kids == Handles(t.kids, p)
            && node.at == if t.at == BADADDR then None else Some(t.at)
  {
    hide Handles, HoldsAll, Shaped;
  }

  /** No node of a lowered tree stands at the address that means there is none. */
  lemma {:induction false} AddressReal(a: Arenas, t: Item, p: Pos, r: Ref)
    requires Good(a, t, p) && In(r, t, p) && InArena(a, r)
    ensures NodeAt(a, r).at != Some(0xFFFF_FFFF_FFFF_FFFF)
    decreases t
  {
    hide Good, In;
    NotAbsent(a, t, p);
    if r == TopRef(t, p) {
      TopNode(a, t, p);
    } else {
      var k := Locate(t, p, r);
      KidNotAbsent(t.kids[k], KidPos(t, p, k), r);
      GoodKid(a, t, p, k);
      AddressReal(a, t.kids[k], KidPos(t, p, k), r);
    }
  }

  /** Children of a node's own sort stand before it, and an expression has all its children. */
  lemma {:induction false} ChildrenBefore(a: Arenas, t: Item, p: Pos, q: Ref, i: nat)
    requires Good(a, t, p) && In(q, t, p) && InArena(a, q) && i < |NodeAt(a, q).kids|
    ensures var node := NodeAt(a, q);
            && (q.isExpr ==> KidIsExpr(node.head, i) && node.kids[i] < q.h)
            && (!q.isExpr && node.kids[i] != NONE && !KidIsExpr(node.head, i) ==> node.kids[i] < q.h)
    decreases t
  {
    hide Good, In, Children;
    NotAbsent(a, t, p);
    if q == TopRef(t, p) {
      TopBefore(a, t, p, i);
    } else {
      var k := Locate(t, p, q);
      KidNotAbsent(t.kids[k], KidPos(t, p, k), q);
      GoodKid(a, t, p, k);
      ChildrenBefore(a, t.kids[k], KidPos(t, p, k), q, i);
    }
  }

  lemma {:induction false} TopBefore(a: Arenas, t: Item, p: Pos, i: nat)
    requires Good(a, t, p) && InArena(a, TopRef(t, p)) && i < |NodeAt(a, TopRef(t, p)).kids|
    ensures var node := NodeAt(a, TopRef(t, p));
            && (IsExpr(t.head) ==> KidIsExpr(node.head, i) && node.kids[i] < HandleOf(t, p))
            && (!IsExpr(t.head) && node.kids[i] != NONE && !KidIsExpr(node.head, i) ==> node.kids[i] < HandleOf(t, p))
  {
    hide Good, Handles, ExprCount, StmtCount, ExprCounts, StmtCounts;
    TopInAndNode(a, t, p);
    NotAbsent(a, t, p);
    KidsPresent(a, t, p, i);
    if !t.kids[i].head.Absent? {
      GoodKid(a, t, p, i);
      if KidIsExpr(t.head, i) == IsExpr(t.head) {
        KidHandleBelow(a, t, p, i);
      }
    } else {
      AbsentHandle(t.kids[i], KidPos(t, p, i));
    }
  }

  lemma {:induction false} KidsPresent(a: Arenas, t: Item, p: Pos, i: nat)
    requires Good(a, t, p) && i < |t.kids|
    ensures IsExpr(t.head) ==> !t.kids[i].head.Absent?
  {
    hide Holds, Fits;
  }

  lemma {:induction false} KidHandleBelow(a: Arenas, t: Item, p: Pos, i: nat)
    requires Good(a, t, p) && i < |t.kids| && Good(a, t.kids[i], KidPos(t, p, i))
    requires IsExpr(t.kids[i].head) == IsExpr(t.head)
    ensures HandleOf(t.kids[i], KidPos(t, p, i)) < HandleOf(t, p)
  {
    hide Shaped, Holds, HoldsAll;
    KidsAfter(t.kids, i, |t.kids|);
    assert t.kids[..|t.kids|] == t.kids;
  }

  /** A child of the top is the top of the one child it is within. */
  lemma {:induction false} TopChild(a: Arenas, t: Item, p: Pos, c: Ref, i: nat)
    requires Good(a, t, p) && InArena(a, TopRef(t, p)) && c in Children(a, TopRef(t, p))
    requires i < |t.kids| && In(c, t.kids[i], KidPos(t, p, i))
    ensures c == TopRef(t.kids[i], KidPos(t, p, i))
  {
    hide Good, In, Children;
    ChildrenAreTops(a, t, p, c);
    var j :| 0 <= j < |t.kids| && !t.kids[j].head.Absent? && c == TopRef(t.kids[j], KidPos(t, p, j));
    GoodKid(a, t, p, j);
    TopIn(a, t.kids[j], KidPos(t, p, j));
    OneKid(t, p, c, i, j);
  }

  /** A node below the top that has `c` as child is within the one child `c` is within, and not its parent's. */
  lemma {:induction false} DeepChild(a: Arenas, t: Item, p: Pos, q: Ref, c: Ref, i: nat)
    requires Good(a, t, p) && In(q, t, p) && q != TopRef(t, p) && InArena(a, q) && c in Children(a, q)
    requires i < |t.kids| && In(c, t.kids[i], KidPos(t, p, i))
    ensures In(q, t.kids[i], KidPos(t, p, i)) && c != TopRef(t.kids[i], KidPos(t, p, i))
  {
    hide Good, In, Children;
    NotAbsent(a, t, p);
    var j := Locate(t, p, q);
    KidNotAbsent(t.kids[j], KidPos(t, p, j), q);
    GoodKid(a, t, p, j);
    ChildrenWithin(a, t.kids[j], KidPos(t, p, j), q, c);
    OneKid(t, p, c, i, j);
  }

  lemma {:induction false} OneParent(a: Arenas, t: Item, p: Pos, c: Ref, q: Ref, r: Ref)
    requires Good(a, t, p) && In(q, t, p) && InArena(a, q) && c in Children(a, q)
    requires In(r, t, p) && InArena(a, r) && c in Children(a, r)
    ensures q == r
    decreases t
  {
    hide Good, In, Children;
    ChildrenWithin(a, t, p, q, c);
    NotAbsent(a, t, p);
    var i := Locate(t, p, c);
    var top := TopRef(t, p);
    if q == top {
      TopChild(a, t, p, c, i);
      if r != top {
        DeepChild(a, t, p, r, c, i);
      }
    } else {
      DeepChild(a, t, p, q, c, i);
      if r == top {
        TopChild(a, t, p, c, i);
      } else {
        DeepChild(a, t, p, r, c, i);
        KidNotAbsent(t.kids[i], KidPos(t, p, i), c);
        GoodKid(a, t, p, i);
        OneParent(a, t.kids[i], KidPos(t, p, i), c, q, r);
      }
    }
  }

  // ---------------------------------------------------------------- the wiring loop

  function Size(t: Item): nat {
    ExprCount(t) + StmtCount(t)
  }

  function Sizes(ts: seq<Placed>): nat {
    if ts == [] then 0 else Sizes(ts[..|ts| - 1]) + Size(ts[|ts| - 1].t)
  }

  /** Each entry of the stack heads one of the subtrees still to be visited. */
  ghost predicate Stacked(a: Arenas, stack: seq<Ref>, trees: seq<Placed>) {
    && |stack| == |trees|
    && forall i :: 0 <= i < |trees| ==>
         Good(a, trees[i].t, trees[i].p) && stack[i] == TopRef(trees[i].t, trees[i].p)
  }

  /** A node is visited, or within a subtree still to be visited. */
  ghost predicate Covered(r: Ref, visited: set<Ref>, trees: seq<Placed>) {
    r in visited || exists i :: 0 <= i < |trees| && In(r, trees[i].t, trees[i].p)
  }

  /** Exactly the children of the visited nodes have their parents. */
  ghost predicate Wired(a: Arenas, parents: map<Ref, Ref>, visited: set<Ref>) {
    && (forall q :: q in visited ==> InArena(a, q))
    && (forall c, q :: c in parents && parents[c] == q ==> q in visited && c in Children(a, q))
    && (forall c, q :: q in visited && c in Children(a, q) ==> c in parents && parents[c] == q)
  }

  /** What the loop over one node's children has done to the parents. */
  ghost predicate Adopted(was: map<Ref, Ref>, now: map<Ref, Ref>, kids: seq<Ref>, q: Ref) {
    forall c :: (c in now <==> c in was || c in kids) && (c in now ==> now[c] == if c in kids then q else was[c])
  }

  /** No node is adopted twice, so wiring one more node keeps the wiring exact. */
  lemma {:induction false} WiredNext(a: Arenas, t: Item, p: Pos, was: map<Ref, Ref>, now: map<Ref, Ref>,
                                     visited: set<Ref>, q: Ref)
    requires Good(a, t, p) && In(q, t, p) && InArena(a, q) && forall r :: r in visited ==> In(r, t, p)
    requires Wired(a, was, visited) && Adopted(was, now, Children(a, q), q)
    ensures Wired(a, now, visited + {q})
  {
    hide Good, In, Children;
    forall c, r | r in visited && c in Children(a, r) ensures c in now && now[c] == r {
      if c in Children(a, q) {
        OneParent(a, t, p, c, q, r);
      }
    }
  }

  lemma {:induction false} SizesOneMore(trees: seq<Placed>, x: Placed)
    ensures Sizes(trees + [x]) == Sizes(trees) + Size(x.t)
  {
    assert (trees + [x])[..|trees|] == trees;
  }

  lemma {:induction false} SizeParts(t: Item)
    requires !t.head.Absent?
    ensures Size(t) == 1 + ExprCounts(t.kids) + StmtCounts(t.kids)
  {
  }

  lemma {:induction false} CountsNext(ts: seq<Item>, i: nat)
    requires i < |ts|
    ensures ExprCounts(ts[..i + 1]) + StmtCounts(ts[..i + 1])
         == ExprCounts(ts[..i]) + StmtCounts(ts[..i]) + Size(ts[i])
  {
    assert ts[..i + 1][..i] == ts[..i];
  }

  /** A present child of a lowered node: its reference heads its subtree. */
  lemma {:induction false} KidRef(a: Arenas, t: Item, p: Pos, i: nat)
    requires Good(a, t, p) && i < |t.kids|
    ensures var h := Handles(t.kids, p)[i];
            && (h == NONE <==> t.kids[i].head.Absent?)
            && (h != NONE ==> Good(a, t.kids[i], KidPos(t, p, i)))
            && (h != NONE ==> Ref(KidIsExpr(t.head, i), h) == TopRef(t.kids[i], KidPos(t, p, i)))
  {
    hide Good, KidIsExpr, IsExpr, HandleOf;
    if t.kids[i].head.Absent? {
      AbsentHandle(t.kids[i], KidPos(t, p, i));
    } else {
      GoodKid(a, t, p, i);
      BelowNone(a, t.kids[i], KidPos(t, p, i));
    }
  }

  lemma {:induction false} AbsentSize(t: Item)
    requires t.head.Absent?
    ensures Size(t) == 0
  {
  }

  lemma {:induction false} PresentNext(head: Head, kids: seq<nat>, i: nat)
    requires i < |kids|
    ensures Present(head, kids[..i + 1])
         == Present(head, kids[..i]) + if kids[i] == NONE then [] else [Ref(KidIsExpr(head, i), kids[i])]
  {
    hide KidIsExpr;
    assert kids[..i + 1][..i] == kids[..i];
  }

  /** Sets the parent of each child of one node and stacks the child. */
  method Adopt(a: Arenas, stack: seq<Ref>, parents: map<Ref, Ref>, ghost trees: seq<Placed>,
               q: Ref, ghost t: Item, ghost p: Pos)
    returns (stack': seq<Ref>, parents': map<Ref, Ref>, ghost trees': seq<Placed>)
    requires Stacked(a, stack, trees) && Good(a, t, p) && q == TopRef(t, p)
    ensures Stacked(a, stack', trees')
    ensures InArena(a, q) && Adopted(parents, parents', Children(a, q), q)
    ensures Sizes(trees') + 1 == Sizes(trees) + Size(t)
    ensures forall r, v :: Covered(r, v, trees) ==> Covered(r, v, trees')
    ensures forall r, v :: In(r, t, p) && r != q ==> Covered(r, v, trees')
  {
    hide Good, In, Handles, Present, KidIsExpr, TopRef, Size, Sizes, ExprCounts, StmtCounts;
    TopInAndNode(a, t, p);
    var node := if q.isExpr then a.exprs[q.h] else a.stmts[q.h];
    stack', parents', trees' := stack, parents, trees;
    NoneYet(node.head, t.kids);
    assert node.kids[..0] == [] && t.kids[..0] == [];
    for i := 0 to |node.kids|
      invariant Stacked(a, stack', trees') && trees <= trees'
      invariant Adopted(parents, parents', Present(node.head, node.kids[..i]), q)
      invariant Sizes(trees') == Sizes(trees) + ExprCounts(t.kids[..i]) + StmtCounts(t.kids[..i])
      invariant forall j :: 0 <= j < i && !t.kids[j].head.Absent? ==> Placed(t.kids[j], KidPos(t, p, j)) in trees'
    {
      KidRef(a, t, p, i);
      PresentNext(node.head, node.kids, i);
      CountsNext(t.kids, i);
      if node.kids[i] != NONE {
        var c := Ref(KidIsExpr(node.head, i), node.kids[i]);
        ghost var x := Placed(t.kids[i], KidPos(t, p, i));
        SizesOneMore(trees', x);
        parents' := parents'[c := q];
        stack' := stack' + [c];
        trees' := trees' + [x];
      } else {
        AbsentSize(t.kids[i]);
      }
    }
    assert node.kids[..|node.kids|] == node.kids && t.kids[..|t.kids|] == t.kids;
    NotAbsent(a, t, p);
    SizeParts(t);
    forall r, v | In(r, t, p) && r != q ensures Covered(r, v, trees') {
      var j := Locate(t, p, r);
      KidNotAbsent(t.kids[j], KidPos(t, p, j), r);
    }
  }

  lemma {:induction false} NoneYet(head: Head, ts: seq<Item>)
    ensures Present(head, []) == [] && ExprCounts([]) == 0 && StmtCounts([]) == 0
  {
  }

  lemma {:induction false} TopInAndNode(a: Arenas, t: Item, p: Pos)
    requires Good(a, t, p)
    ensures var q := TopRef(t, p);
            && InArena(a, q) && In(q, t, p)
            && var node := (if q.isExpr then a.exprs[q.h] else a.stmts[q.h]);
               node.head == t.head && node.kids == Handles(t.kids, p)
               && Children(a, q) == Present(node.head, node.kids)
  {
    hide Handles, Present;
  }

  /**
  Wires the whole tree: the loop ends, never visits more nodes than there are, and leaves each node but the
  root with the one node that lists it as a child.
  */
  method WireParents(a: Arenas, root: nat, ghost t: Item) returns (parents: map<Ref, Ref>, visited: nat)
    requires Good(a, t, Pos(0, 0)) && !IsExpr(t.head) && root == HandleOf(t, Pos(0, 0))
    requires |a.exprs| == ExprCount(t) && |a.stmts| == StmtCount(t)
    ensures visited == |a.exprs| + |a.stmts|
    ensures forall c :: InArena(a, c) && c != Ref(false, root) ==> c in parents
    ensures forall c, q :: c in parents && parents[c] == q <==> InArena(a, q) && c in Children(a, q)
    ensures Ref(false, root) !in parents
  {
    hide Good, In, Children, Size, Sizes, Covered, Wired, Stacked, Adopted, ExprCount, StmtCount, Underway, TopRef;
    var stack := [Ref(false, root)];
    ghost var trees := [Placed(t, Pos(0, 0))];
    ghost var done: set<Ref> := {};
    parents, visited := map[], 0;
    StartUnderway(a, t, stack);
    while |stack| > 0
      invariant Underway(a, stack, trees, parents, done, visited)
      decreases Sizes(trees)
    {
      var n := |stack| - 1;
      var q := stack[n];
      PopUnderway(a, stack, trees, parents, done, visited);
      ghost var was, rest, x := parents, trees[..n], trees[n];
      visited := visited + 1;
      assert visited <= |a.exprs| + |a.stmts|;
      stack, parents, trees := Adopt(a, stack[..n], parents, rest, q, x.t, x.p);
      NextUnderway(a, t, stack, rest, x, trees, was, parents, done, visited, q);
      done := done + {q};
    }
    EndUnderway(a, t, stack, trees, parents, done, visited);
  }

  /**
  The loop half way: the stack heads the subtrees still to be visited, which with the nodes visited are the whole
  tree, and exactly the visited nodes' children have their parents.
  */
  ghost predicate Underway(a: Arenas, stack: seq<Ref>, trees: seq<Placed>, parents: map<Ref, Ref>, done: set<Ref>,
                           visited: nat) {
    && Stacked(a, stack, trees) && Wired(a, parents, done)
    && (forall r :: r in done ==> InArena(a, r))
    && visited + Sizes(trees) == |a.exprs| + |a.stmts|
    && (forall r :: InArena(a, r) ==> Covered(r, done, trees))
  }

  lemma {:induction false} StartUnderway(a: Arenas, t: Item, stack: seq<Ref>)
    requires Good(a, t, Pos(0, 0)) && !IsExpr(t.head) && stack == [Ref(false, HandleOf(t, Pos(0, 0)))]
    requires |a.exprs| == ExprCount(t) && |a.stmts| == StmtCount(t)
    ensures Underway(a, stack, [Placed(t, Pos(0, 0))], map[], {}, 0)
    ensures stack[0] == TopRef(t, Pos(0, 0))
  {
    hide Good, In, Children, Size, Sizes, Covered, Wired, ExprCount, StmtCount, HandleOf;
    var trees := [Placed(t, Pos(0, 0))];
    AllWithin(a, t);
    SizesOneMore([], trees[0]);
    assert [] + trees == trees;
    NoTrees();
    WholeSize(t);
    StartCovered(a, trees);
  }

  /** Taking the top off the stack. */
  lemma {:induction false} PopUnderway(a: Arenas, stack: seq<Ref>, trees: seq<Placed>, parents: map<Ref, Ref>,
                                       done: set<Ref>, visited: nat)
    requires Underway(a, stack, trees, parents, done, visited) && |stack| > 0
    ensures |trees| == |stack|
    ensures var (n, x) := (|stack| - 1, trees[|stack| - 1]);
            && Stacked(a, stack[..n], trees[..n]) && Good(a, x.t, x.p) && stack[n] == TopRef(x.t, x.p)
            && Sizes(trees) == Sizes(trees[..n]) + Size(x.t) && Size(x.t) > 0
            && visited + Sizes(trees) == |a.exprs| + |a.stmts|
            && forall r :: InArena(a, r) ==> Covered(r, done, trees[..n] + [x])
    ensures Wired(a, parents, done) && forall r :: r in done ==> InArena(a, r)
  {
    hide Good, In, Children, Size, Sizes, Covered, Wired, TopRef;
    var n := |stack| - 1;
    assert trees[..n] + [trees[n]] == trees;
    SizesOneMore(trees[..n], trees[n]);
    SizePositive(a, trees[n].t, trees[n].p);
  }

  /** One round of the loop, once the node's children are adopted. */
  lemma {:induction false} NextUnderway(a: Arenas, t: Item, stack: seq<Ref>, rest: seq<Placed>, x: Placed,
                                        trees: seq<Placed>, was: map<Ref, Ref>, parents: map<Ref, Ref>,
                                        done: set<Ref>, visited: nat, q: Ref)
    requires Good(a, t, Pos(0, 0)) && |a.exprs| == ExprCount(t) && |a.stmts| == StmtCount(t)
    requires Stacked(a, stack, trees) && InArena(a, q) && Adopted(was, parents, Children(a, q), q)
    requires Wired(a, was, done) && forall r :: r in done ==> InArena(a, r)
    requires visited + Sizes(trees) == |a.exprs| + |a.stmts|
    requires forall r :: InArena(a, r) ==> Covered(r, done, rest + [x])
    requires forall r, v :: Covered(r, v, rest) ==> Covered(r, v, trees)
    requires forall r, v :: In(r, x.t, x.p) && r != q ==> Covered(r, v, trees)
    ensures Underway(a, stack, trees, parents, done + {q}, visited)
  {
    hide Good, In, Children, Size, Sizes, Covered, Wired, Stacked, Adopted, ExprCount, StmtCount;
    AllWithin(a, t);
    WiredNext(a, t, Pos(0, 0), was, parents, done, q);
    CoveredNext(a, done, rest, trees, x, q);
  }

  lemma {:induction false} EndUnderway(a: Arenas, t: Item, stack: seq<Ref>, trees: seq<Placed>,
                                       parents: map<Ref, Ref>, done: set<Ref>, visited: nat)
    requires Good(a, t, Pos(0, 0)) && |a.exprs| == ExprCount(t) && |a.stmts| == StmtCount(t)
    requires Underway(a, stack, trees, parents, done, visited) && stack == []
    ensures visited == |a.exprs| + |a.stmts|
    ensures var root := TopRef(t, Pos(0, 0));
            && root !in parents && forall c :: InArena(a, c) && c != root ==> c in parents
    ensures forall c, q :: c in parents && parents[c] == q <==> InArena(a, q) && c in Children(a, q)
  {
    hide Good, In, Children, Size, Sizes, Covered, Wired, ExprCount, StmtCount, TopRef;
    AllWithin(a, t);
    NoTrees();
    assert trees == [];
    AllWired(a, t, parents, done);
  }

  lemma {:induction false} StartCovered(a: Arenas, trees: seq<Placed>)
    requires |trees| == 1 && forall r :: InArena(a, r) ==> In(r, trees[0].t, trees[0].p)
    ensures forall r :: InArena(a, r) ==> Covered(r, {}, trees)
    ensures Wired(a, map[], {})
  {
    hide In;
    forall r | InArena(a, r) ensures Covered(r, {}, trees) {
      assert In(r, trees[0].t, trees[0].p);
    }
  }

  /** With nothing left to visit, every node but the root has been given its parent. */
  lemma {:induction false} AllWired(a: Arenas, t: Item, parents: map<Ref, Ref>, done: set<Ref>)
    requires Good(a, t, Pos(0, 0)) && forall r :: InArena(a, r) ==> In(r, t, Pos(0, 0))
    requires Wired(a, parents, done) && forall r :: InArena(a, r) ==> Covered(r, done, [])
    ensures var root := TopRef(t, Pos(0, 0));
            && root !in parents && forall c :: InArena(a, c) && c != root ==> c in parents
    ensures forall c, q :: c in parents && parents[c] == q <==> InArena(a, q) && c in Children(a, q)
  {
    hide Good, In, Children, TopRef;
    forall r | InArena(a, r) ensures r in done {
      assert Covered(r, done, []);
    }
    var root := TopRef(t, Pos(0, 0));
    forall c | InArena(a, c) && c != root ensures c in parents {
      var q := HasParent(a, t, Pos(0, 0), c);
    }
    if root in parents {
      ChildrenWithin(a, t, Pos(0, 0), parents[root], root);
    }
  }

  lemma {:induction false} NoTrees()
    ensures Sizes([]) == 0
  {
  }

  lemma {:induction false} WholeSize(t: Item)
    ensures Size(t) == ExprCount(t) + StmtCount(t)
  {
  }

  lemma {:induction false} SizePositive(a: Arenas, t: Item, p: Pos)
    requires Good(a, t, p)
    ensures Size(t) > 0
  {
  }

  /** A tree that fills the arenas holds every node of them. */
  lemma {:induction false} AllWithin(a: Arenas, t: Item)
    requires |a.exprs| == ExprCount(t) && |a.stmts| == StmtCount(t)
    ensures forall r :: InArena(a, r) ==> In(r, t, Pos(0, 0))
  {
  }

  lemma {:induction false} CoveredNext(a: Arenas, done: set<Ref>, rest: seq<Placed>, trees: seq<Placed>, x: Placed,
                                       q: Ref)
    requires forall r :: InArena(a, r) ==> Covered(r, done, rest + [x])
    requires forall r, v :: Covered(r, v, rest) ==> Covered(r, v, trees)
    requires forall r, v :: In(r, x.t, x.p) && r != q ==> Covered(r, v, trees)
    ensures forall r :: InArena(a, r) ==> Covered(r, done + {q}, trees)
  {
    hide In;
    forall r | InArena(a, r) ensures Covered(r, done + {q}, trees) {
      if r !in done && r != q {
        var i :| 0 <= i < |rest + [x]| && In(r, (rest + [x])[i].t, (rest + [x])[i].p);
        if i < |rest| {
          assert In(r, rest[i].t, rest[i].p);
          assert Covered(r, done + {q}, rest);
        }
      }
    }
  }
}
