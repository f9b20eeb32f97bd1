/** The recursive walk over a decompiled tree, and the builder it emits into. */
module CtreeWalk {
  import opened Bytes
  import opened Ctree
  import opened CtreeDecode

  datatype Build = Build(arenas: Arenas, error: Option<Fault>)

  function Top(b: Build): Pos {
    Pos(|b.arenas.exprs|, |b.arenas.stmts|)
  }

  // ---------------------------------------------------------------- what emitting means

  /**
  From `b` to `c` exactly the nodes of `t` were appended, `h` is its handle, the first fault met was kept,
  and unless `t` itself has one, the arenas hold it.
  */
  predicate Emitted(b: Build, c: Build, t: Item, h: nat) {
    && Extends(b.arenas, c.arenas) && Top(c) == After(Top(b), t)
    && h == HandleOf(t, Top(b))
    && c.error == OrElse(b.error, FirstFault(t))
    && (FirstFault(t) == None ==> Holds(c.arenas, t, Top(b)))
  }

  predicate EmittedAll(b: Build, c: Build, ts: seq<Item>, hs: seq<nat>) {
    && Extends(b.arenas, c.arenas) && Top(c) == AfterAll(Top(b), ts)
    && hs == Handles(ts, Top(b))
    && c.error == OrElse(b.error, FirstFaults(ts))
    && (FirstFaults(ts) == None ==> HoldsAll(c.arenas, ts, Top(b)))
  }

  /** One node appended to the arena of its sort, as its head says unless the head itself is at fault. */
  predicate Pushed(b: Build, c: Build, at: nat, ty: nat, head: Head, hs: seq<nat>, h: nat) {
    && Extends(b.arenas, c.arenas)
    && c.error == OrElse(b.error, OwnFault(head))
    && (if IsExpr(head)
        then c.arenas.stmts == b.arenas.stmts && |c.arenas.exprs| == h + 1 && h == |b.arenas.exprs|
        else c.arenas.exprs == b.arenas.exprs && |c.arenas.stmts| == h + 1 && h == |b.arenas.stmts|)
    && (OwnFault(head) == None ==>
          (if IsExpr(head) then c.arenas.exprs else c.arenas.stmts)[h] == Node(NodeAddress(at), ty, head, hs))
  }

  lemma {:induction false} EmittedNone(b: Build)
    ensures EmittedAll(b, b, [], [])
  {
  }

  lemma {:induction false} Chain(b: Build, c: Build, d: Build, ts: seq<Item>, hs: seq<nat>, t: Item, h: nat)
    requires EmittedAll(b, c, ts, hs) && Emitted(c, d, t, h)
    ensures EmittedAll(b, d, ts + [t], hs + [h])
  {
    hide Holds, HandleOf, FirstFault, ExprCount, StmtCount;
    assert (ts + [t])[..|ts|] == ts;
    HandlesOneMore(ts, t, Top(b));
    if FirstFaults(ts) == None {
      HoldsAllExtends(c.arenas, d.arenas, ts, Top(b));
    }
  }

  lemma {:induction false} HandlesOneMore(ts: seq<Item>, t: Item, p: Pos)
    ensures Handles(ts + [t], p) == Handles(ts, p) + [HandleOf(t, AfterAll(p, ts))]
  {
    hide HandleOf;
    assert (ts + [t])[..|ts|] == ts;
  }

  /** Children emitted and then their parent pushed: the whole tree is emitted. */
  lemma {:induction false} Close(b: Build, c: Build, d: Build, t: Item, hs: seq<nat>, h: nat)
    requires !t.head.Absent? && EmittedAll(b, c, t.kids, hs) && Pushed(c, d, t.at, t.ty, t.head, hs, h)
    ensures Emitted(b, d, t, h)
  {
    hide HoldsAll, Handles, FirstFaults, ExprCounts, StmtCounts, IsExpr, OwnFault;
    if FirstFault(t) == None {
      HoldsAllExtends(c.arenas, d.arenas, t.kids, Top(b));
    }
  }

  lemma {:induction false} CountsPrefix(ts: seq<Item>, i: nat)
    requires i <= |ts|
    ensures ExprCounts(ts[..i]) <= ExprCounts(ts) && StmtCounts(ts[..i]) <= StmtCounts(ts)
    decreases |ts|
  {
    hide ExprCount, StmtCount;
    if i == |ts| {
      assert ts[..i] == ts;
    } else {
      CountsPrefix(ts[..|ts| - 1], i);
      assert ts[..|ts| - 1][..i] == ts[..i];
    }
  }

  /** While a tree fits, each child fits where its turn comes. */
  lemma {:induction false} FitsNext(b: Build, c: Build, t: Item, hs: seq<nat>)
    requires !t.head.Absent? && Fits(Top(b), t) && |hs| < |t.kids| && EmittedAll(b, c, t.kids[..|hs|], hs)
    ensures Fits(Top(c), t.kids[|hs|])
  {
    hide HoldsAll, Handles, FirstFaults;
    var i := |hs|;
    CountsPrefix(t.kids, i + 1);
    assert t.kids[..i + 1][..i] == t.kids[..i];
  }

  lemma {:induction false} ChainKid(b: Build, c: Build, d: Build, t: Item, hs: seq<nat>, h: nat)
    requires |hs| < |t.kids| && EmittedAll(b, c, t.kids[..|hs|], hs) && Emitted(c, d, t.kids[|hs|], h)
    ensures EmittedAll(b, d, t.kids[..|hs| + 1], hs + [h])
  {
    hide Emitted, EmittedAll;
    Chain(b, c, d, t.kids[..|hs|], hs, t.kids[|hs|], h);
    assert t.kids[..|hs|] + [t.kids[|hs|]] == t.kids[..|hs| + 1];
  }

  // ---------------------------------------------------------------- the builder

  class CallbackBuilder {
    var exprs: seq<Node>
    var stmts: seq<Node>
    var error: Option<Fault>

    constructor ()
      ensures State() == Build(Arenas([], []), None)
    {
      exprs := [];
      stmts := [];
      error := None;
    }

    ghost function State(): Build
      reads this
    {
      Build(Arenas(exprs, stmts), error)
    }

    method Fail(fault: Fault)
      modifies this`error
      ensures error == OrElse(old(error), Some(fault))
    {
      if error.None? {
        error := Some(fault);
      }
    }

    method PushExpression(at: nat, ty: nat, head: Head, kids: seq<nat>) returns (h: nat)
      requires IsExpr(head) && |exprs| <= U32_MAX
      modifies this`exprs
      ensures h == |old(exprs)| && exprs == old(exprs) + [Node(NodeAddress(at), ty, head, kids)]
    {
      h := |exprs|;
      exprs := exprs + [Node(NodeAddress(at), ty, head, kids)];
    }

    method PushStatement(at: nat, head: Head, kids: seq<nat>) returns (h: nat)
      requires !IsExpr(head) && |stmts| <= U32_MAX
      modifies this`stmts
      ensures h == |old(stmts)| && stmts == old(stmts) + [Node(NodeAddress(at), 0, head, kids)]
    {
      h := |stmts|;
      stmts := stmts + [Node(NodeAddress(at), 0, head, kids)];
    }

    /** A global's address is required: without one the node is pushed empty and the walk fails. */
    method PushObj(at: nat, target: nat, name: Text, ty: nat) returns (h: nat)
      requires |exprs| <= U32_MAX
      modifies this
      ensures Pushed(old(State()), State(), at, ty, Obj(target, name), [], h)
      ensures target == BADADDR ==> exprs == old(exprs) + [Node(NodeAddress(at), ty, Op(0), [])]
    {
      if target != BADADDR {
        h := PushExpression(at, ty, Obj(target, name), []);
      } else {
        Fail(BadAddress);
        h := PushExpression(at, ty, Op(EMPTY), []);
      }
    }

    /** Keeps the operands the operator's kind has; an operator of no known kind fails the walk. */
    method PushOperator(at: nat, ctype: nat, x: nat, y: nat, z: nat, ty: nat) returns (h: nat)
      requires |exprs| <= U32_MAX
      modifies this
      ensures Pushed(old(State()), State(), at, ty, Op(ctype), OperandsOf(ctype, x, y, z), h)
      ensures Arity(ctype) == None ==> exprs == old(exprs) + [Node(NodeAddress(at), ty, Op(66), [])]
    {
      match Arity(ctype) {
        case None =>
          if ctype != INSN {
            Fail(UnknownExpressionTag(ctype));
          }
          h := PushExpression(at, ty, Op(INSN), []);
        case Some(_) =>
          h := PushExpression(at, ty, Op(ctype), OperandsOf(ctype, x, y, z));
      }
    }

    method PushSwitch(at: nat, cond: nat, bodies: seq<nat>, counts: seq<nat>, values: seq<nat>) returns (h: nat)
      requires |bodies| == |counts| && Sum(counts) <= |values| && |stmts| <= U32_MAX
      modifies this
      ensures Pushed(old(State()), State(), at, 0, Switch(Regroup(counts, values)), [cond] + bodies, h)
    {
      var pos := 0;
      var cases: seq<seq<nat>> := [];
      for i := 0 to |bodies|
        invariant unchanged(this)
        invariant pos == Sum(counts[..i]) <= |values|
        invariant cases == Regroup(counts[..i], values)
      {
        SumPrefix(counts, i + 1);
        assert counts[..i + 1][..i] == counts[..i];
        var n := counts[i];
        cases := cases + [values[pos..pos + n]];
        pos := pos + n;
        if i + 1 < |bodies| {
          SumPrefix(counts, i + 2);
        }
      }
      assert counts[..|bodies|] == counts;
      h := PushStatement(at, Switch(cases), [cond] + bodies);
    }

    /** Instruction addresses are required; a missing one is dropped and fails the walk. */
    method PushAsm(at: nat, addresses: seq<nat>) returns (h: nat)
      requires |stmts| <= U32_MAX
      modifies this
      ensures Pushed(old(State()), State(), at, 0, Asm(addresses), [], h)
    {
      var kept: seq<nat> := [];
      for i := 0 to |addresses|
        invariant exprs == old(exprs) && stmts == old(stmts)
        invariant error == OrElse(old(error), OwnFault(Asm(addresses[..i])))
        invariant BADADDR !in addresses[..i] ==> kept == addresses[..i]
      {
        assert addresses[..i + 1] == addresses[..i] + [addresses[i]];
        if addresses[i] != BADADDR {
          kept := kept + [addresses[i]];
        } else {
          Fail(BadAddress);
        }
      }
      assert addresses[..|addresses|] == addresses;
      h := PushStatement(at, Asm(kept), []);
    }
  }

  function OperandsOf(ctype: nat, x: nat, y: nat, z: nat): seq<nat> {
    match Arity(ctype)
    case None => []
    case Some(n) => if n == 0 then [] else if n == 1 then [x] else if n == 2 then [x, y] else [x, y, z]
  }

  lemma {:induction false} SumPrefix(counts: seq<nat>, i: nat)
    requires i <= |counts|
    ensures Sum(counts[..i]) <= Sum(counts)
    decreases |counts|
  {
    if i == |counts| {
      assert counts[..i] == counts;
    } else {
      SumPrefix(counts[..|counts| - 1], i);
      assert counts[..|counts| - 1][..i] == counts[..i];
    }
  }
}
