/** The walker: one method per recursive function of the facade, each emitting exactly the elided tree. */
module CtreeWalker {
  import opened Bytes
  import opened Ctree
  import opened CtreeDecode
  import opened CtreeWalk

  /** What an optional expression is lowered as. */
  function Slot(e: Item): Item {
    if e.head.Absent? || e.head == Op(EMPTY) then ABSENT else Elide(e)
  }

  /** What child `i` is lowered as. */
  lemma {:induction false} ElideKid(t: Item, i: nat)
    requires Shaped(t) && i < |t.kids|
    ensures |Elide(t).kids| == |t.kids|
    ensures Shaped(t.kids[i])
    ensures IsSlot(t.head, i) ==> Elide(t).kids[i] == Slot(t.kids[i])
    ensures !IsSlot(t.head, i) && !t.kids[i].head.Absent? ==> Elide(t).kids[i] == Elide(t.kids[i])
    ensures t.kids[i].head.Absent? ==> Elide(t).kids[i] == ABSENT
    ensures t.kids[i].head.Absent? || IsExpr(t.kids[i].head) == KidIsExpr(t.head, i)
    ensures t.kids[i].head.Absent? ==> IsSlot(t.head, i) || (t.head.If? && i == 2)
  {
  }

  lemma {:induction false} EmittedAbsent(b: Build)
    ensures Emitted(b, b, ABSENT, NONE)
  {
  }

  /** Room for a tree is room for its own node once its children are emitted. */
  lemma {:induction false} RoomForNode(b: Build, c: Build, t: Item, hs: seq<nat>)
    requires !t.head.Absent? && Fits(Top(b), t) && EmittedAll(b, c, t.kids, hs)
    ensures if IsExpr(t.head) then |c.arenas.exprs| < NONE else |c.arenas.stmts| < NONE
  {
  }

  /** What is emitted of `t`'s children when their handles so far are `hs`. */
  predicate Begun(b: Build, c: Build, t: Item, hs: seq<nat>) {
    && Shaped(t) && !t.head.Absent? && Fits(Top(b), Elide(t)) && |hs| <= |t.kids|
    && EmittedAll(b, c, Elide(t).kids[..|hs|], hs)
  }

  lemma {:induction false} Begin(b: Build, t: Item)
    requires Shaped(t) && !t.head.Absent? && Fits(Top(b), Elide(t))
    ensures Begun(b, b, t, [])
  {
    EmittedNone(b);
  }

  lemma {:induction false} NextFits(b: Build, c: Build, t: Item, hs: seq<nat>)
    requires Begun(b, c, t, hs) && |hs| < |t.kids|
    ensures Fits(Top(c), Elide(t).kids[|hs|])
  {
    hide EmittedAll, Shaped, ElideAll, Fits;
    FitsNext(b, c, Elide(t), hs);
  }

  lemma {:induction false} Advance(b: Build, c: Build, d: Build, t: Item, hs: seq<nat>, h: nat)
    requires Begun(b, c, t, hs) && |hs| < |t.kids| && Emitted(c, d, Elide(t).kids[|hs|], h)
    ensures Begun(b, d, t, hs + [h])
  {
    hide EmittedAll, Emitted, Shaped, ElideAll, Fits;
    ChainKid(b, c, d, Elide(t), hs, h);
  }

  lemma {:induction false} Room(b: Build, c: Build, t: Item, hs: seq<nat>)
    requires Begun(b, c, t, hs) && |hs| == |t.kids|
    ensures if IsExpr(t.head) then |c.arenas.exprs| < NONE else |c.arenas.stmts| < NONE
  {
    hide Shaped, ElideAll, Fits;
    assert Elide(t).kids[..|hs|] == Elide(t).kids;
    RoomForNode(b, c, Elide(t), hs);
  }

  /** All children emitted and the node pushed. The handles matter only if the node is not at fault. */
  lemma {:induction false} Finish(b: Build, c: Build, d: Build, t: Item, hs: seq<nat>, pushed: seq<nat>, h: nat)
    requires Begun(b, c, t, hs) && |hs| == |t.kids|
    requires Pushed(c, d, t.at, t.ty, t.head, pushed, h) && (OwnFault(t.head) == None ==> pushed == hs)
    ensures Emitted(b, d, Elide(t), h)
  {
    hide EmittedAll, Emitted, Shaped, ElideAll, Fits, OwnFault;
    assert Elide(t).kids[..|hs|] == Elide(t).kids;
    assert Pushed(c, d, t.at, t.ty, t.head, hs, h);
    hide Pushed;
    Close(b, c, d, Elide(t), hs, h);
  }

  // ---------------------------------------------------------------- expressions

  lemma {:induction false} ExprKids(e: Item)
    requires Shaped(e)
    ensures CountFits(e.head, |e.kids|)
  {
  }

  method WalkExpr(nodes: CallbackBuilder, e: Item) returns (h: nat)
    requires Shaped(e) && IsExpr(e.head) && Fits(Top(nodes.State()), Elide(e))
    modifies nodes
    ensures Emitted(old(nodes.State()), nodes.State(), Elide(e), h)
    decreases e, 3
  {
    hide Shaped, Emitted, EmittedAll, Elide, Fits, Begun, Top, Arity;
    ghost var b := nodes.State();
    Begin(b, e);
    ExprKids(e);
    if e.head.Obj? {
      Room(b, b, e, []);
      h := nodes.PushObj(e.at, e.head.target, e.head.name, e.ty);
      Finish(b, b, nodes.State(), e, [], [], h);
    } else if e.head.Deref? || e.head.MemberRef? || e.head.MemberPtr? {
      h := WalkUnary(nodes, e);
    } else if e.head.Call? {
      h := WalkCall(nodes, e);
    } else if e.head.Op? {
      h := WalkOperator(nodes, e);
    } else {
      h := PushNode(nodes, e, [], b);
    }
  }

  method WalkUnary(nodes: CallbackBuilder, e: Item) returns (h: nat)
    requires Shaped(e) && (e.head.Deref? || e.head.MemberRef? || e.head.MemberPtr?)
    requires Fits(Top(nodes.State()), Elide(e))
    modifies nodes
    ensures Emitted(old(nodes.State()), nodes.State(), Elide(e), h)
    decreases e, 2
  {
    hide Shaped, Emitted, EmittedAll, Elide, Fits, Begun, Top;
    ghost var b := nodes.State();
    Begin(b, e);
    ExprKids(e);
    var kids: seq<nat> := [];
    var x := ExprChild(nodes, e, 0, kids, b);
    kids := kids + [x];
    h := PushNode(nodes, e, kids, b);
  }

  method WalkCall(nodes: CallbackBuilder, e: Item) returns (h: nat)
    requires Shaped(e) && e.head.Call? && Fits(Top(nodes.State()), Elide(e))
    modifies nodes
    ensures Emitted(old(nodes.State()), nodes.State(), Elide(e), h)
    decreases e, 2
  {
    hide Shaped, Emitted, EmittedAll, Elide, Fits, Begun, Top;
    ghost var b := nodes.State();
    Begin(b, e);
    ExprKids(e);
    var handles: seq<nat> := [];
    var callee := ExprChild(nodes, e, 0, handles, b);
    handles := handles + [callee];
    for i := 1 to |e.kids|
      invariant |handles| == i && Begun(b, nodes.State(), e, handles)
    {
      var arg := ExprChild(nodes, e, i, handles, b);
      handles := handles + [arg];
    }
    h := PushNode(nodes, e, handles, b);
  }

  /** The operands the operator uses, the others absent. */
  method WalkOperator(nodes: CallbackBuilder, e: Item) returns (h: nat)
    requires Shaped(e) && e.head.Op? && Fits(Top(nodes.State()), Elide(e))
    modifies nodes
    ensures Emitted(old(nodes.State()), nodes.State(), Elide(e), h)
    decreases e, 2
  {
    hide Shaped, Emitted, EmittedAll, Elide, Fits, Begun, Top, Arity;
    ghost var b := nodes.State();
    Begin(b, e);
    OperatorKids(e);
    ghost var hs: seq<nat> := [];
    var x, y, z := NONE, NONE, NONE;
    if |e.kids| > 0 {
      x := ExprChild(nodes, e, 0, hs, b);
      hs := hs + [x];
    }
    if |e.kids| > 1 {
      y := ExprChild(nodes, e, 1, hs, b);
      hs := hs + [y];
    }
    if |e.kids| > 2 {
      z := ExprChild(nodes, e, 2, hs, b);
      hs := hs + [z];
    }
    ghost var before := nodes.State();
    Room(b, before, e, hs);
    h := nodes.PushOperator(e.at, e.head.ctype, x, y, z, e.ty);
    Finish(b, before, nodes.State(), e, hs, OperandsOf(e.head.ctype, x, y, z), h);
  }

  lemma {:induction false} OperatorKids(e: Item)
    requires Shaped(e) && e.head.Op?
    ensures |e.kids| <= 3 && (Arity(e.head.ctype).Some? ==> Arity(e.head.ctype).value == |e.kids|)
    ensures OwnFault(e.head) == None ==> Arity(e.head.ctype).Some?
  {
  }

  /** An absent or empty optional operand is no node. */
  method OptExpr(nodes: CallbackBuilder, e: Item) returns (h: nat)
    requires Shaped(e) && (e.head.Absent? || IsExpr(e.head)) && Fits(Top(nodes.State()), Slot(e))
    modifies nodes
    ensures Emitted(old(nodes.State()), nodes.State(), Slot(e), h)
    decreases e, 4
  {
    if e.head.Absent? || e.head == Op(EMPTY) {
      h := NONE;
    } else {
      h := WalkExpr(nodes, e);
    }
  }

  // ---------------------------------------------------------------- one child, and the node itself

  method ExprChild(nodes: CallbackBuilder, t: Item, i: nat, ghost hs: seq<nat>, ghost b: Build) returns (h: nat)
    requires Begun(b, nodes.State(), t, hs) && i == |hs| < |t.kids|
    requires KidIsExpr(t.head, i) && !IsSlot(t.head, i)
    modifies nodes
    ensures Begun(b, nodes.State(), t, hs + [h])
    decreases t, 0
  {
    hide EmittedAll, Emitted, Fits, Elide, ElideAll, Top;
    ElideKid(t, i);
    NextFits(b, nodes.State(), t, hs);
    h := WalkExpr(nodes, t.kids[i]);
    Advance(b, old(nodes.State()), nodes.State(), t, hs, h);
  }

  method SlotChild(nodes: CallbackBuilder, t: Item, i: nat, ghost hs: seq<nat>, ghost b: Build) returns (h: nat)
    requires Begun(b, nodes.State(), t, hs) && i == |hs| < |t.kids| && IsSlot(t.head, i)
    modifies nodes
    ensures Begun(b, nodes.State(), t, hs + [h])
    decreases t, 0
  {
    hide EmittedAll, Emitted, Fits, Elide, ElideAll, Top;
    ElideKid(t, i);
    NextFits(b, nodes.State(), t, hs);
    h := OptExpr(nodes, t.kids[i]);
    Advance(b, old(nodes.State()), nodes.State(), t, hs, h);
  }

  method StmtChild(nodes: CallbackBuilder, t: Item, i: nat, ghost hs: seq<nat>, ghost b: Build) returns (h: nat)
    requires Begun(b, nodes.State(), t, hs) && i == |hs| < |t.kids|
    requires !KidIsExpr(t.head, i) && !t.kids[i].head.Absent?
    modifies nodes
    ensures Begun(b, nodes.State(), t, hs + [h])
    decreases t, 0
  {
    hide EmittedAll, Emitted, Fits, Elide, ElideAll, Top;
    ElideKid(t, i);
    NextFits(b, nodes.State(), t, hs);
    h := WalkStmt(nodes, t.kids[i]);
    Advance(b, old(nodes.State()), nodes.State(), t, hs, h);
  }

  method PushNode(nodes: CallbackBuilder, t: Item, hs: seq<nat>, ghost b: Build) returns (h: nat)
    requires Begun(b, nodes.State(), t, hs) && |hs| == |t.kids| && OwnFault(t.head) == None
    modifies nodes
    ensures Emitted(b, nodes.State(), Elide(t), h)
  {
    hide EmittedAll, Emitted, Fits, Elide, ElideAll;
    Room(b, nodes.State(), t, hs);
    if IsExpr(t.head) {
      h := nodes.PushExpression(t.at, t.ty, t.head, hs);
    } else {
      h := nodes.PushStatement(t.at, t.head, hs);
    }
    Finish(b, old(nodes.State()), nodes.State(), t, hs, hs, h);
  }

  // ---------------------------------------------------------------- statements

  /** What a statement's shape says of its children. */
  lemma {:induction false} StmtKids(t: Item)
    requires Shaped(t) && !IsExpr(t.head)
    ensures CountFits(t.head, |t.kids|) && t.ty == 0
    ensures forall i :: 0 <= i < |t.kids| && t.kids[i].head.Absent? ==> IsSlot(t.head, i) || (t.head.If? && i == 2)
  {
  }

  method WalkBlock(nodes: CallbackBuilder, block: Item) returns (h: nat)
    requires Shaped(block) && block.head.Block? && Fits(Top(nodes.State()), Elide(block))
    modifies nodes
    ensures Emitted(old(nodes.State()), nodes.State(), Elide(block), h)
    decreases block, 2
  {
    hide Shaped, Emitted, EmittedAll, Elide, Fits, Begun, Top;
    ghost var b := nodes.State();
    Begin(b, block);
    StmtKids(block);
    var kids: seq<nat> := [];
    for i := 0 to |block.kids|
      invariant |kids| == i && Begun(b, nodes.State(), block, kids)
    {
      var kid := StmtChild(nodes, block, i, kids, b);
      kids := kids + [kid];
    }
    h := PushNode(nodes, block, kids, b);
  }

  method WalkStmt(nodes: CallbackBuilder, t: Item) returns (h: nat)
    requires Shaped(t) && !IsExpr(t.head) && !t.head.Absent? && Fits(Top(nodes.State()), Elide(t))
    modifies nodes
    ensures Emitted(old(nodes.State()), nodes.State(), Elide(t), h)
    decreases t, 3
  {
    hide Shaped, Emitted, EmittedAll, Elide, Fits, Begun, Top;
    ghost var b := nodes.State();
    Begin(b, t);
    StmtKids(t);
    if t.head.Block? {
      h := WalkBlock(nodes, t);
    } else if t.head.Expression? {
      h := WalkExprStmt(nodes, t);
    } else if t.head.If? {
      h := WalkIf(nodes, t);
    } else if t.head.For? {
      h := WalkFor(nodes, t);
    } else if t.head.While? {
      h := WalkWhile(nodes, t);
    } else if t.head.Do? {
      h := WalkDo(nodes, t);
    } else if t.head.Switch? {
      h := WalkSwitch(nodes, t);
    } else if t.head.Return? || t.head.Throw? {
      h := WalkExit(nodes, t);
    } else if t.head.Asm? {
      Room(b, b, t, []);
      h := nodes.PushAsm(t.at, t.head.addresses);
      Finish(b, b, nodes.State(), t, [], [], h);
    } else if t.head.Try? {
      h := WalkTry(nodes, t);
    } else {
      h := PushNode(nodes, t, [], b);
    }
  }

  method WalkExprStmt(nodes: CallbackBuilder, t: Item) returns (h: nat)
    requires Shaped(t) && t.head.Expression? && Fits(Top(nodes.State()), Elide(t))
    modifies nodes
    ensures Emitted(old(nodes.State()), nodes.State(), Elide(t), h)
    decreases t, 2
  {
    hide Shaped, Emitted, EmittedAll, Elide, Fits, Begun, Top;
    ghost var b := nodes.State();
    Begin(b, t);
    StmtKids(t);
    var kids: seq<nat> := [];
    var e := ExprChild(nodes, t, 0, kids, b);
    kids := kids + [e];
    h := PushNode(nodes, t, kids, b);
  }

  method WalkIf(nodes: CallbackBuilder, t: Item) returns (h: nat)
    requires Shaped(t) && t.head.If? && Fits(Top(nodes.State()), Elide(t))
    modifies nodes
    ensures Emitted(old(nodes.State()), nodes.State(), Elide(t), h)
    decreases t, 2
  {
    hide Shaped, Emitted, EmittedAll, Elide, Fits, Begun, Top;
    ghost var b := nodes.State();
    Begin(b, t);
    StmtKids(t);
    hide IsExpr;
    var kids: seq<nat> := [];
    var cond := ExprChild(nodes, t, 0, kids, b);
    kids := kids + [cond];
    var thenBranch := StmtChild(nodes, t, 1, kids, b);
    kids := kids + [thenBranch];
    var elseBranch := ElseChild(nodes, t, kids, b);
    kids := kids + [elseBranch];
    h := PushNode(nodes, t, kids, b);
  }

  method WalkFor(nodes: CallbackBuilder, t: Item) returns (h: nat)
    requires Shaped(t) && t.head.For? && Fits(Top(nodes.State()), Elide(t))
    modifies nodes
    ensures Emitted(old(nodes.State()), nodes.State(), Elide(t), h)
    decreases t, 2
  {
    hide Shaped, Emitted, EmittedAll, Elide, Fits, Begun, Top;
    ghost var b := nodes.State();
    Begin(b, t);
    StmtKids(t);
    var kids: seq<nat> := [];
    var init := SlotChild(nodes, t, 0, kids, b);
    kids := kids + [init];
    var cond := SlotChild(nodes, t, 1, kids, b);
    kids := kids + [cond];
    var step := SlotChild(nodes, t, 2, kids, b);
    kids := kids + [step];
    var body := StmtChild(nodes, t, 3, kids, b);
    kids := kids + [body];
    h := PushNode(nodes, t, kids, b);
  }

  method WalkWhile(nodes: CallbackBuilder, t: Item) returns (h: nat)
    requires Shaped(t) && t.head.While? && Fits(Top(nodes.State()), Elide(t))
    modifies nodes
    ensures Emitted(old(nodes.State()), nodes.State(), Elide(t), h)
    decreases t, 2
  {
    hide Shaped, Emitted, EmittedAll, Elide, Fits, Begun, Top;
    ghost var b := nodes.State();
    Begin(b, t);
    StmtKids(t);
    var kids: seq<nat> := [];
    var cond := ExprChild(nodes, t, 0, kids, b);
    kids := kids + [cond];
    var body := StmtChild(nodes, t, 1, kids, b);
    kids := kids + [body];
    h := PushNode(nodes, t, kids, b);
  }

  method WalkDo(nodes: CallbackBuilder, t: Item) returns (h: nat)
    requires Shaped(t) && t.head.Do? && Fits(Top(nodes.State()), Elide(t))
    modifies nodes
    ensures Emitted(old(nodes.State()), nodes.State(), Elide(t), h)
    decreases t, 2
  {
    hide Shaped, Emitted, EmittedAll, Elide, Fits, Begun, Top;
    ghost var b := nodes.State();
    Begin(b, t);
    StmtKids(t);
    var kids: seq<nat> := [];
    var body := StmtChild(nodes, t, 0, kids, b);
    kids := kids + [body];
    var cond := ExprChild(nodes, t, 1, kids, b);
    kids := kids + [cond];
    h := PushNode(nodes, t, kids, b);
  }

  method WalkExit(nodes: CallbackBuilder, t: Item) returns (h: nat)
    requires Shaped(t) && (t.head.Return? || t.head.Throw?) && Fits(Top(nodes.State()), Elide(t))
    modifies nodes
    ensures Emitted(old(nodes.State()), nodes.State(), Elide(t), h)
    decreases t, 2
  {
    hide Shaped, Emitted, EmittedAll, Elide, Fits, Begun, Top;
    ghost var b := nodes.State();
    Begin(b, t);
    StmtKids(t);
    var kids: seq<nat> := [];
    var e := SlotChild(nodes, t, 0, kids, b);
    kids := kids + [e];
    h := PushNode(nodes, t, kids, b);
  }

  method WalkTry(nodes: CallbackBuilder, t: Item) returns (h: nat)
    requires Shaped(t) && t.head.Try? && Fits(Top(nodes.State()), Elide(t))
    modifies nodes
    ensures Emitted(old(nodes.State()), nodes.State(), Elide(t), h)
    decreases t, 2
  {
    hide Shaped, Emitted, EmittedAll, Elide, Fits, Begun, Top;
    ghost var b := nodes.State();
    Begin(b, t);
    StmtKids(t);
    var kids: seq<nat> := [];
    var body := StmtChild(nodes, t, 0, kids, b);
    kids := kids + [body];
    for i := 1 to |t.kids|
      invariant |kids| == i && Begun(b, nodes.State(), t, kids)
    {
      var handler := StmtChild(nodes, t, i, kids, b);
      kids := kids + [handler];
    }
    h := PushNode(nodes, t, kids, b);
  }

  method ElseChild(nodes: CallbackBuilder, t: Item, ghost hs: seq<nat>, ghost b: Build) returns (h: nat)
    requires Begun(b, nodes.State(), t, hs) && t.head.If? && |hs| == 2 && |t.kids| == 3
    modifies nodes
    ensures Begun(b, nodes.State(), t, hs + [h])
    decreases t, 1
  {
    hide EmittedAll, Emitted, Fits, Elide, ElideAll, Top;
    if t.kids[2].head.Absent? {
      ElideKid(t, 2);
      EmittedAbsent(nodes.State());
      h := NONE;
      Advance(b, nodes.State(), nodes.State(), t, hs, h);
    } else {
      h := StmtChild(nodes, t, 2, hs, b);
    }
  }

  /** The cases' values cross as one flat list with a count for each case. */
  method WalkSwitch(nodes: CallbackBuilder, t: Item) returns (h: nat)
    requires Shaped(t) && t.head.Switch? && Fits(Top(nodes.State()), Elide(t))
    modifies nodes
    ensures Emitted(old(nodes.State()), nodes.State(), Elide(t), h)
    decreases t, 2
  {
    hide Shaped, Emitted, EmittedAll, Elide, Fits, Begun, Top, Regroup, Sum, Concat, Counts, Arity, OwnFault;
    ghost var b := nodes.State();
    Begin(b, t);
    StmtKids(t);
    RegroupInverts(t.head.values);
    var none: seq<nat> := [];
    var cond := ExprChild(nodes, t, 0, none, b);
    var bodies, counts, values := WalkCases(nodes, t, cond, none + [cond], b);
    ghost var kids, before := [cond] + bodies, nodes.State();
    Room(b, before, t, kids);
    assert t.head == Switch(Regroup(counts, values));
    h := nodes.PushSwitch(t.at, cond, bodies, counts, values);
    Finish(b, before, nodes.State(), t, kids, kids, h);
  }

  lemma {:induction false} FlatNext(vs: seq<seq<nat>>, i: nat)
    requires i < |vs|
    ensures Counts(vs[..i + 1]) == Counts(vs[..i]) + [|vs[i]|] && Concat(vs[..i + 1]) == Concat(vs[..i]) + vs[i]
  {
    CountsOneMore(vs[..i], vs[i]);
    assert vs[..i] + [vs[i]] == vs[..i + 1];
  }

  lemma {:induction false} NothingFlat()
    ensures Counts([]) == [] && Concat([]) == []
  {
  }

  method WalkCases(nodes: CallbackBuilder, t: Item, cond: nat, ghost first: seq<nat>, ghost b: Build)
    returns (bodies: seq<nat>, counts: seq<nat>, values: seq<nat>)
    requires t.head.Switch? && |t.kids| == 1 + |t.head.values| && first == [cond]
    requires Begun(b, nodes.State(), t, first)
    requires forall i :: 0 <= i < |t.kids| ==> !t.kids[i].head.Absent?
    modifies nodes
    ensures |bodies| == |t.head.values| && Begun(b, nodes.State(), t, [cond] + bodies)
    ensures counts == Counts(t.head.values) && values == Concat(t.head.values)
    decreases t, 1
  {
    hide Begun, Top, Counts, Concat, Arity;
    var perCase := t.head.values;
    bodies, counts, values := [], [], [];
    NothingFlat();
    assert perCase[..0] == [];
    ghost var hs := first;
    for i := 0 to |perCase|
      invariant |bodies| == i && hs == [cond] + bodies && Begun(b, nodes.State(), t, hs)
      invariant counts == Counts(perCase[..i]) && values == Concat(perCase[..i])
    {
      FlatNext(perCase, i);
      counts := counts + [|perCase[i]|];
      values := values + perCase[i];
      var body := StmtChild(nodes, t, i + 1, hs, b);
      hs := hs + [body];
      bodies := bodies + [body];
    }
    assert perCase[..|perCase|] == perCase;
  }
}
