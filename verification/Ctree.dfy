/**
Decompiled trees as the SDK holds them, and the two arenas they are lowered into: which node stands where,
and what the whole says when read back.
*/
module Ctree {
  import opened Bytes

  /** The handle of an absent optional child. */
  const NONE: nat := 0xFFFF_FFFF
  /** The address of a node that has none. */
  const BADADDR: nat := U64_MAX
  const EMPTY: nat := 0
  const INSN: nat := 66
  /** A ctype is one byte. */
  const CTYPE_SLOTS: nat := 256

  /** What a node is, with its own payload; its operands and sub-statements are its children. */
  datatype Head =
    | Num(value: nat)
    | Fnum(bits: nat)
    | Obj(target: nat, name: Text)
    | Var(index: nat)
    | Str(text: Text)
    | Helper(helper: Text)
    | Deref(size: nat)
    | MemberRef(offset: nat)
    | MemberPtr(offset: nat)
    | Call
    | Op(ctype: nat)
    | Block
    | Expression
    | If
    | For
    | While
    | Do
    | Switch(values: seq<seq<nat>>)
    | Return
    | Goto(number: int)
    | Asm(addresses: seq<nat>)
    | Try
    | Throw
    | Break
    | Continue
    | Nop
    | Absent

  /** A tree item; children in the order they are visited. A statement has no type of its own. */
  datatype Item = Item(at: nat, ty: nat, head: Head, kids: seq<Item>)

  const ABSENT := Item(BADADDR, 0, Absent, [])

  predicate IsExpr(h: Head) {
    h.Num? || h.Fnum? || h.Obj? || h.Var? || h.Str? || h.Helper? || h.Deref? || h.MemberRef? || h.MemberPtr?
    || h.Call? || h.Op?
  }

  /** How many operands the generic operator of a ctype takes, for the ctypes that are modelled. */
  function Arity(ctype: nat): Option<nat> {
    if ctype == EMPTY || ctype == 69 then Some(0)
    else if ctype in {46, 47, 48, 49, 50, 52, 53, 54, 55, 56, 67} then Some(1)
    else if 1 <= ctype <= 15 || 17 <= ctype <= 45 || ctype == 58 then Some(2)
    else if ctype == 16 then Some(3)
    else None
  }

  /**
  The operators by the kernel's numbers: the unary ones from the negations to the increments, with the cast and
  the size, the conditional, two that are leaves, the binary ones and the assignments; no other is modelled.
  */
  lemma {:induction false} ArityMeans(c: nat)
    ensures Arity(c) == None <==> c == 51 || c == 57 || 59 <= c <= 66 || c == 68 || c > 69
    ensures Arity(c) == Some(0) <==> c == 0 || c == 69
    ensures Arity(c) == Some(1) <==> (46 <= c <= 56 && c != 51) || c == 67
    ensures Arity(c) == Some(2) <==> (0 < c < 46 && c != 16) || c == 58
    ensures Arity(c) == Some(3) <==> c == 16
  {
  }

  predicate KidIsExpr(h: Head, i: nat) {
    IsExpr(h) || h.Expression? || h.Return? || h.Throw?
    || ((h.If? || h.While? || h.Switch?) && i == 0) || (h.For? && i < 3) || (h.Do? && i == 1)
  }

  /** The optional expression slots: an empty expression there is not a node. */
  predicate IsSlot(h: Head, i: nat) {
    (h.For? && i < 3) || ((h.Return? || h.Throw?) && i == 0)
  }

  predicate CountFits(h: Head, n: nat) {
    match h
    case Deref(_) => n == 1
    case MemberRef(_) => n == 1
    case MemberPtr(_) => n == 1
    case Call => n >= 1
    case Op(c) => c < CTYPE_SLOTS && c != INSN && (match Arity(c) case Some(k) => n == k case None => n <= 3)
    case Block => true
    case Expression => n == 1
    case If => n == 3
    case For => n == 4
    case While => n == 2
    case Do => n == 2
    case Switch(values) => n == 1 + |values|
    case Return => n == 1
    case Throw => n == 1
    case Try => n >= 1
    case _ => n == 0
  }

  /** Each head with children of its own number and sorts. */
  predicate Shaped(t: Item) {
    && (t.head.Absent? ==> t == ABSENT)
    && CountFits(t.head, |t.kids|)
    && (forall i :: 0 <= i < |t.kids| ==>
          var k := t.kids[i];
          && Shaped(k)
          && (if k.head.Absent? then IsSlot(t.head, i) || (t.head.If? && i == 2)
              else IsExpr(k.head) == KidIsExpr(t.head, i))
          && (t.head.Try? ==> k.head.Block? && k.at == t.at))
    && (!IsExpr(t.head) ==> t.ty == 0)
  }

  // ---------------------------------------------------------------- elided slots

  predicate Elided(h: Head, i: nat, k: Item) {
    k.head.Absent? || (IsSlot(h, i) && k.head == Op(EMPTY))
  }

  /** The tree with the empty expressions of its optional slots made absent, and nothing else changed. */
  function Elide(t: Item): Item
    decreases t
  {
    t.(kids := ElideAll(t.head, t.kids))
  }

  function ElideAll(h: Head, kids: seq<Item>): (r: seq<Item>)
    ensures |r| == |kids|
    ensures forall i :: 0 <= i < |kids| ==> r[i] == if Elided(h, i, kids[i]) then ABSENT else Elide(kids[i])
    decreases kids
  {
    if kids == [] then []
    else
      var n := |kids| - 1;
      ElideAll(h, kids[..n]) + [if Elided(h, n, kids[n]) then ABSENT else Elide(kids[n])]
  }

  /** Only the three slots of a `for` and the one of a `return` or `throw` lose an empty expression. */
  lemma {:induction false} ElideMeans(t: Item, i: nat)
    requires i < |t.kids|
    ensures |Elide(t).kids| == |t.kids| && Elide(t).head == t.head && Elide(t).at == t.at && Elide(t).ty == t.ty
    ensures var (k, slot) := (t.kids[i], (t.head.For? && i <= 2) || ((t.head.Return? || t.head.Throw?) && i == 0));
            if k.head.Absent? || (slot && k.head == Op(0)) then Elide(t).kids[i].head.Absent?
            else Elide(t).kids[i] == Elide(k)
  {
  }

  // ---------------------------------------------------------------- the arenas

  /** A lowered node; children are handles into the arena of their sort, or `NONE`. */
  datatype Node = Node(at: Option<nat>, ty: nat, head: Head, kids: seq<nat>)

  type Exprs = seq<Node>

  /** Every operand's handle precedes its expression's. */
  predicate ChildFirst(es: Exprs) {
    forall h, i | 0 <= h < |es| && 0 <= i < |es[h].kids| :: es[h].kids[i] < h
  }

  /** Every sub-statement's handle precedes its statement's. */
  predicate StmtsChildFirst(ss: seq<Node>) {
    forall h, i | 0 <= h < |ss| && 0 <= i < |ss[h].kids| ::
      ss[h].kids[i] != NONE && !KidIsExpr(ss[h].head, i) ==> ss[h].kids[i] < h
  }

  datatype Fault = UnknownExpressionTag(tag: nat) | BadAddress

  datatype Arenas = Arenas(exprs: seq<Node>, stmts: seq<Node>)

  function NodeAddress(at: nat): Option<nat> {
    if at == BADADDR then None else Some(at)
  }

  function RawAddress(at: Option<nat>): nat {
    match at case None => BADADDR case Some(v) => v
  }

  /** How many expressions, and how many statements, a tree lowers to. */
  function ExprCount(t: Item): nat {
    if t.head.Absent? then 0 else ExprCounts(t.kids) + if IsExpr(t.head) then 1 else 0
  }

  function ExprCounts(ts: seq<Item>): nat {
    if ts == [] then 0 else ExprCounts(ts[..|ts| - 1]) + ExprCount(ts[|ts| - 1])
  }

  function StmtCount(t: Item): nat {
    if t.head.Absent? then 0 else StmtCounts(t.kids) + if IsExpr(t.head) then 0 else 1
  }

  function StmtCounts(ts: seq<Item>): nat {
    if ts == [] then 0 else StmtCounts(ts[..|ts| - 1]) + StmtCount(ts[|ts| - 1])
  }

  /** How full the two arenas are. */
  datatype Pos = Pos(e: nat, s: nat)

  function After(p: Pos, t: Item): Pos {
    Pos(p.e + ExprCount(t), p.s + StmtCount(t))
  }

  function AfterAll(p: Pos, ts: seq<Item>): Pos {
    Pos(p.e + ExprCounts(ts), p.s + StmtCounts(ts))
  }

  /** The handle of a tree lowered from `p` on: the last node of its sort. */
  function HandleOf(t: Item, p: Pos): nat {
    if t.head.Absent? then NONE
    else if IsExpr(t.head) then p.e + ExprCounts(t.kids)
    else p.s + StmtCounts(t.kids)
  }

  function Handles(ts: seq<Item>, p: Pos): (r: seq<nat>)
    ensures |r| == |ts|
    ensures forall i :: 0 <= i < |ts| ==> r[i] == HandleOf(ts[i], AfterAll(p, ts[..i]))
  {
    if ts == [] then []
    else
      var n := |ts| - 1;
      assert forall i :: 0 <= i < n ==> ts[..n][..i] == ts[..i];
      Handles(ts[..n], p) + [HandleOf(ts[n], AfterAll(p, ts[..n]))]
  }

  function NodeOf(t: Item, p: Pos): Node {
    Node(NodeAddress(t.at), t.ty, t.head, Handles(t.kids, p))
  }

  /** The arenas hold `t`, lowered child before parent from `p` on. */
  predicate Holds(a: Arenas, t: Item, p: Pos) {
    t.head.Absent? || (
      && HoldsAll(a, t.kids, p)
      && var h := HandleOf(t, p);
         if IsExpr(t.head) then h < |a.exprs| && a.exprs[h] == NodeOf(t, p)
         else h < |a.stmts| && a.stmts[h] == NodeOf(t, p))
  }

  predicate HoldsAll(a: Arenas, ts: seq<Item>, p: Pos) {
    ts == [] || (
      var n := |ts| - 1;
      HoldsAll(a, ts[..n], p) && Holds(a, ts[n], AfterAll(p, ts[..n])))
  }

  predicate Extends(a: Arenas, b: Arenas) {
    a.exprs <= b.exprs && a.stmts <= b.stmts
  }

  lemma {:induction false} HoldsExtends(a: Arenas, b: Arenas, t: Item, p: Pos)
    requires Holds(a, t, p) && Extends(a, b)
    ensures Holds(b, t, p)
  {
    if !t.head.Absent? {
      HoldsAllExtends(a, b, t.kids, p);
    }
  }

  lemma {:induction false} HoldsAllExtends(a: Arenas, b: Arenas, ts: seq<Item>, p: Pos)
    requires HoldsAll(a, ts, p) && Extends(a, b)
    ensures HoldsAll(b, ts, p)
  {
    if ts != [] {
      var n := |ts| - 1;
      HoldsAllExtends(a, b, ts[..n], p);
      HoldsExtends(a, b, ts[n], AfterAll(p, ts[..n]));
    }
  }

  // ---------------------------------------------------------------- what the builder reports

  /** The first of two faults to be recorded is the one kept. */
  function OrElse(a: Option<Fault>, b: Option<Fault>): Option<Fault> {
    if a.Some? then a else b
  }

  function OwnFault(h: Head): Option<Fault> {
    match h
    case Op(c) => if c != INSN && Arity(c) == None then Some(UnknownExpressionTag(c)) else None
    case Obj(target, _) => if target == BADADDR then Some(BadAddress) else None
    case Asm(addresses) => if BADADDR in addresses then Some(BadAddress) else None
    case _ => None
  }

  /** Which nodes are faulty by themselves: an unknown operator, a global or an instruction without an address. */
  lemma {:induction false} OwnFaultMeans(h: Head)
    ensures h.Op? ==>
              (OwnFault(h).Some? <==>
                 h.ctype == 51 || h.ctype == 57 || 59 <= h.ctype < 66 || h.ctype == 68 || h.ctype > 69)
              && (OwnFault(h).Some? ==> OwnFault(h) == Some(UnknownExpressionTag(h.ctype)))
    ensures h.Obj? ==> OwnFault(h) == if h.target == 0xFFFF_FFFF_FFFF_FFFF then Some(BadAddress) else None
    ensures h.Asm? ==>
              OwnFault(h) == if 0xFFFF_FFFF_FFFF_FFFF in h.addresses then Some(BadAddress) else None
    ensures !h.Op? && !h.Obj? && !h.Asm? ==> OwnFault(h) == None
  {
    if h.Op? {
      ArityMeans(h.ctype);
    }
  }

  /** The first fault met, children before parents. */
  function FirstFault(t: Item): Option<Fault> {
    OrElse(FirstFaults(t.kids), OwnFault(t.head))
  }

  function FirstFaults(ts: seq<Item>): Option<Fault> {
    if ts == [] then None else OrElse(FirstFaults(ts[..|ts| - 1]), FirstFault(ts[|ts| - 1]))
  }

  /** Every node below and at the item, children first and in order. */
  function Heads(t: Item): seq<Head> {
    HeadsOf(t.kids) + [t.head]
  }

  function HeadsOf(ts: seq<Item>): seq<Head> {
    if ts == [] then [] else HeadsOf(ts[..|ts| - 1]) + Heads(ts[|ts| - 1])
  }

  predicate Faultless(heads: seq<Head>) {
    forall i :: 0 <= i < |heads| ==> OwnFault(heads[i]) == None
  }

  /** The fault of the first node in the order that has one. */
  predicate IsFirstFault(heads: seq<Head>, f: Fault) {
    exists i :: 0 <= i < |heads| && OwnFault(heads[i]) == Some(f) && Faultless(heads[..i])
  }

  /** What two lists of nodes in a row come to. */
  lemma {:induction false} FaultsAppend(a: seq<Head>, b: seq<Head>)
    ensures Faultless(a + b) <==> Faultless(a) && Faultless(b)
    ensures forall f :: IsFirstFault(a, f) ==> IsFirstFault(a + b, f)
    ensures forall f :: Faultless(a) && IsFirstFault(b, f) ==> IsFirstFault(a + b, f)
  {
    hide OwnFault;
    assert Faultless(a + b) ==> Faultless(a) && Faultless(b) by {
      assert forall i :: 0 <= i < |a| ==> (a + b)[i] == a[i];
      assert forall i :: 0 <= i < |b| ==> (a + b)[|a| + i] == b[i];
    }
    forall f | IsFirstFault(a, f) ensures IsFirstFault(a + b, f) {
      var i :| 0 <= i < |a| && OwnFault(a[i]) == Some(f) && Faultless(a[..i]);
      assert (a + b)[i] == a[i] && (a + b)[..i] == a[..i];
    }
    forall f | Faultless(a) && IsFirstFault(b, f) ensures IsFirstFault(a + b, f) {
      var i :| 0 <= i < |b| && OwnFault(b[i]) == Some(f) && Faultless(b[..i]);
      assert (a + b)[|a| + i] == b[i] && (a + b)[..|a| + i] == a + b[..i];
    }
  }

  lemma {:induction false} FirstFaultMeans(t: Item)
    ensures FirstFault(t) == None <==> Faultless(Heads(t))
    ensures FirstFault(t).Some? ==> IsFirstFault(Heads(t), FirstFault(t).value)
    decreases t, 1, 0
  {
    hide OwnFault, Faultless, IsFirstFault;
    FirstFaultsMean(t, |t.kids|);
    assert t.kids[..|t.kids|] == t.kids;
    FaultsAppend(HeadsOf(t.kids), [t.head]);
    OneHead(t.head);
  }

  lemma {:induction false} OneHead(h: Head)
    ensures Faultless([h]) <==> OwnFault(h) == None
    ensures OwnFault(h).Some? ==> IsFirstFault([h], OwnFault(h).value)
  {
    hide OwnFault;
    assert [h][0] == h && [h][..0] == [];
  }

  lemma {:induction false} FirstFaultsMean(t: Item, n: nat)
    requires n <= |t.kids|
    ensures FirstFaults(t.kids[..n]) == None <==> Faultless(HeadsOf(t.kids[..n]))
    ensures FirstFaults(t.kids[..n]).Some? ==> IsFirstFault(HeadsOf(t.kids[..n]), FirstFaults(t.kids[..n]).value)
    decreases t, 0, n
  {
    hide OwnFault, IsFirstFault, Heads, FirstFault;
    if n > 0 {
      assert t.kids[..n][..n - 1] == t.kids[..n - 1];
      FirstFaultsMean(t, n - 1);
      FirstFaultMeans(t.kids[n - 1]);
      FaultsAppend(HeadsOf(t.kids[..n - 1]), Heads(t.kids[n - 1]));
    }
  }

  // ---------------------------------------------------------------- reading back

  /** The tree behind a handle, if every child handle met precedes its parent's. */
  function Decode(a: Arenas, isExpr: bool, h: nat): Option<Item>
    decreases if isExpr then 0 else 1, h, 1, 0
  {
    var arena := if isExpr then a.exprs else a.stmts;
    if h == NONE then Some(ABSENT)
    else if h >= |arena| then None
    else
      var node := arena[h];
      match DecodeKids(a, isExpr, h, node.head, node.kids)
      case None => None
      case Some(kids) => Some(Item(RawAddress(node.at), node.ty, node.head, kids))
  }

  function DecodeKids(a: Arenas, isExpr: bool, h: nat, head: Head, kids: seq<nat>): (r: Option<seq<Item>>)
    ensures r.Some? ==> |r.value| == |kids|
    decreases if isExpr then 0 else 1, h, 0, 1 + |kids|
  {
    if kids == [] then Some([])
    else
      var n := |kids| - 1;
      match DecodeKids(a, isExpr, h, head, kids[..n])
      case None => None
      case Some(init) =>
        match DecodeKid(a, isExpr, h, KidIsExpr(head, n), kids[n])
        case None => None
        case Some(last) => Some(init + [last])
  }

  /** The child `k`, of the sort its place wants, under node `h`. */
  function DecodeKid(a: Arenas, isExpr: bool, h: nat, sort: bool, k: nat): Option<Item>
    decreases if isExpr then 0 else 1, h, 0, 0
  {
    if k == NONE then Some(ABSENT)
    else if (isExpr && !sort) || (sort == isExpr && k >= h) then None
    else Decode(a, sort, k)
  }
}
