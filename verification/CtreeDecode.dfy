/** Reading lowered arenas back gives the tree they were lowered from. */
module CtreeDecode {
  import opened Bytes
  import opened Ctree

  /** Every handle of a tree lowered from `p` on is told apart from the absent one. */
  predicate Fits(p: Pos, t: Item) {
    After(p, t).e <= NONE && After(p, t).s <= NONE
  }

  predicate FitsAll(p: Pos, ts: seq<Item>) {
    AfterAll(p, ts).e <= NONE && AfterAll(p, ts).s <= NONE
  }

  /** Eliding keeps the shape: what it makes absent stood where absence is allowed. */
  lemma {:induction false} ElideShaped(t: Item)
    requires Shaped(t)
    ensures Shaped(Elide(t))
    decreases t
  {
    forall i | 0 <= i < |t.kids| && !Elided(t.head, i, t.kids[i]) ensures Shaped(Elide(t.kids[i])) {
      ElideShaped(t.kids[i]);
    }
  }

  /** Children of the parent's sort have smaller handles than `h`, the parent's. */
  predicate Below(isExpr: bool, h: nat, kids: seq<Item>, p: Pos) {
    if isExpr then h >= p.e + ExprCounts(kids) else h >= p.s + StmtCounts(kids)
  }

  /** Each child is absent, or of the sort its place wants. */
  predicate Placed(head: Head, kids: seq<Item>) {
    forall i :: 0 <= i < |kids| ==>
      Shaped(kids[i]) && (kids[i].head.Absent? || IsExpr(kids[i].head) == KidIsExpr(head, i))
  }

  lemma {:induction false} DecodeHolds(a: Arenas, t: Item, p: Pos)
    requires Shaped(t) && !t.head.Absent? && Holds(a, t, p) && Fits(p, t)
    ensures Decode(a, IsExpr(t.head), HandleOf(t, p)) == Some(t)
    decreases t, 0
  {
    hide Shaped, HoldsAll, DecodeKids, Handles, Placed, KidIsExpr;
    ShapedPlaced(t);
    var h := HandleOf(t, p);
    DecodeAllHolds(a, IsExpr(t.head), h, t.head, t.kids, p);
  }

  lemma {:induction false} DecodeAllHolds(a: Arenas, isExpr: bool, h: nat, head: Head, kids: seq<Item>, p: Pos)
    requires Placed(head, kids) && HoldsAll(a, kids, p) && FitsAll(p, kids)
    requires isExpr == IsExpr(head) && Below(isExpr, h, kids, p)
    ensures DecodeKids(a, isExpr, h, head, Handles(kids, p)) == Some(kids)
    decreases kids
  {
    hide Shaped, Holds, HoldsAll, DecodeKid, DecodeKids, Handles, HandleOf, KidIsExpr;
    hide ExprCount, StmtCount, ExprCounts, StmtCounts;
    if kids == [] {
      DecodeNoKids(a, isExpr, h, head, p);
    } else {
      var n := |kids| - 1;
      var (init, k) := (kids[..n], kids[n]);
      var q := AfterAll(p, init);
      KidsSplit(a, kids, p);
      CountsOne(k);
      assert Placed(head, init);
      DecodeAllHolds(a, isExpr, h, head, init, p);
      DecodeKidHolds(a, isExpr, h, head, n, k, q);
      DecodeKidsOneMore(a, isExpr, h, head, Handles(init, p), HandleOf(k, q));
      assert init + [k] == kids;
    }
  }

  lemma {:induction false} DecodeNoKids(a: Arenas, isExpr: bool, h: nat, head: Head, p: Pos)
    ensures DecodeKids(a, isExpr, h, head, Handles([], p)) == Some([])
  {
  }

  lemma {:induction false} KidsSplit(a: Arenas, kids: seq<Item>, p: Pos)
    requires kids != [] && HoldsAll(a, kids, p)
    ensures var n := |kids| - 1;
            var (init, k) := (kids[..n], kids[n]);
            var q := AfterAll(p, init);
            && HoldsAll(a, init, p) && Holds(a, k, q)
            && Handles(kids, p) == Handles(init, p) + [HandleOf(k, q)]
            && ExprCounts(kids) == ExprCounts(init) + ExprCount(k)
            && StmtCounts(kids) == StmtCounts(init) + StmtCount(k)
  {
    hide Holds, HandleOf, ExprCount, StmtCount;
  }

  lemma {:induction false} DecodeKidsOneMore(a: Arenas, isExpr: bool, h: nat, head: Head, ks: seq<nat>, k: nat)
    requires DecodeKids(a, isExpr, h, head, ks).Some? && DecodeKid(a, isExpr, h, KidIsExpr(head, |ks|), k).Some?
    ensures DecodeKids(a, isExpr, h, head, ks + [k])
         == Some(DecodeKids(a, isExpr, h, head, ks).value + [DecodeKid(a, isExpr, h, KidIsExpr(head, |ks|), k).value])
  {
    hide DecodeKid, KidIsExpr;
    assert (ks + [k])[..|ks|] == ks;
  }

  lemma {:induction false} DecodeKidHolds(a: Arenas, isExpr: bool, h: nat, head: Head, i: nat, k: Item, p: Pos)
    requires Shaped(k) && Holds(a, k, p) && Fits(p, k)
    requires k.head.Absent? || IsExpr(k.head) == KidIsExpr(head, i)
    requires isExpr == IsExpr(head) && Below(isExpr, h, [k], p)
    ensures DecodeKid(a, isExpr, h, KidIsExpr(head, i), HandleOf(k, p)) == Some(k)
    decreases k, 1
  {
    hide Shaped, Decode, Holds;
    CountsOne(k);
    if k.head.Absent? {
      AbsentIs(k);
    } else {
      DecodeHolds(a, k, p);
    }
  }

  lemma {:induction false} ShapedPlaced(t: Item)
    requires Shaped(t)
    ensures Placed(t.head, t.kids)
  {
  }

  lemma {:induction false} CountsOne(k: Item)
    ensures ExprCounts([k]) == ExprCount(k) && StmtCounts([k]) == StmtCount(k)
  {
    assert [k][..0] == [];
  }

  lemma {:induction false} AbsentIs(t: Item)
    requires Shaped(t) && t.head.Absent?
    ensures t == ABSENT
  {
  }

  // ---------------------------------------------------------------- the flattened switch

  function Concat(vs: seq<seq<nat>>): seq<nat> {
    if vs == [] then [] else Concat(vs[..|vs| - 1]) + vs[|vs| - 1]
  }

  function Counts(vs: seq<seq<nat>>): (r: seq<nat>)
    ensures |r| == |vs| && forall i :: 0 <= i < |vs| ==> r[i] == |vs[i]|
  {
    seq(|vs|, i requires 0 <= i < |vs| => |vs[i]|)
  }

  function Sum(ns: seq<nat>): nat {
    if ns == [] then 0 else Sum(ns[..|ns| - 1]) + ns[|ns| - 1]
  }

  /** Cuts `values` into consecutive groups of the given counts. */
  function Regroup(counts: seq<nat>, values: seq<nat>): (r: seq<seq<nat>>)
    requires Sum(counts) <= |values|
    ensures |r| == |counts|
  {
    if counts == [] then []
    else
      var n := |counts| - 1;
      var from := Sum(counts[..n]);
      Regroup(counts[..n], values) + [values[from..from + counts[n]]]
  }

  lemma {:induction false} SumCounts(vs: seq<seq<nat>>)
    ensures Sum(Counts(vs)) == |Concat(vs)|
  {
    if vs != [] {
      var n := |vs| - 1;
      SumCounts(vs[..n]);
      assert Counts(vs)[..n] == Counts(vs[..n]);
    }
  }

  lemma {:induction false} RegroupPrefix(counts: seq<nat>, values: seq<nat>, more: seq<nat>)
    requires Sum(counts) <= |values|
    ensures Regroup(counts, values + more) == Regroup(counts, values)
  {
    if counts != [] {
      var n := |counts| - 1;
      var from := Sum(counts[..n]);
      RegroupPrefix(counts[..n], values, more);
      assert (values + more)[from..from + counts[n]] == values[from..from + counts[n]];
    }
  }

  /** Regrouping the flattened values of a switch gives back each case's own. */
  lemma {:induction false} RegroupInverts(vs: seq<seq<nat>>)
    ensures Sum(Counts(vs)) == |Concat(vs)| && Regroup(Counts(vs), Concat(vs)) == vs
  {
    SumCounts(vs);
    if vs != [] {
      hide Sum, Counts, Regroup;
      var n := |vs| - 1;
      var (init, last) := (vs[..n], vs[n]);
      var (counts, values) := (Counts(init), Concat(init));
      RegroupInverts(init);
      CountsOneMore(init, last);
      assert vs == init + [last];
      RegroupPrefix(counts, values, last);
      RegroupOneMore(counts, |last|, values + last);
      assert (values + last)[|values|..] == last;
    }
  }

  lemma {:induction false} RegroupOneMore(counts: seq<nat>, n: nat, values: seq<nat>)
    requires Sum(counts) + n == |values|
    ensures Sum(counts + [n]) == Sum(counts) + n
    ensures Regroup(counts + [n], values) == Regroup(counts, values) + [values[Sum(counts)..]]
  {
    assert (counts + [n])[..|counts|] == counts;
    assert values[Sum(counts)..] == values[Sum(counts)..Sum(counts) + n];
  }

  lemma {:induction false} CountsOneMore(vs: seq<seq<nat>>, v: seq<nat>)
    ensures Counts(vs + [v]) == Counts(vs) + [|v|] && Concat(vs + [v]) == Concat(vs) + v
  {
    assert (vs + [v])[..|vs|] == vs;
  }
}
