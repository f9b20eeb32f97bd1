/** Lifting the kernel's flow chart into an owned block arena. */
module FlowChart {
  import opened Bytes

  const BADADDR: nat := U64_MAX
  const FCB_ENORET: nat := 5

  /** A block as the kernel numbers them: the function's own first, then zero-length stubs for outside targets. */
  datatype RawBlock = RawBlock(start: nat, end: nat, kind: nat, succs: seq<nat>, preds: seq<nat>)

  datatype RawChart = RawChart(blocks: seq<RawBlock>, nproper: nat)

  datatype Exit = Exit(target: nat, noreturn: bool)

  /** How a proper block ends. */
  datatype Kind = Normal | IndirectJump | Return | CondReturn | NoReturn | Error

  datatype Block = Block(start: nat, end: nat, kind: Kind, succ: seq<nat>, pred: seq<nat>, exits: seq<Exit>)

  datatype Extracted = Chart(blocks: seq<Block>) | UnknownBlockKind(block: nat, raw: nat)

  predicate WellFormed(c: RawChart) {
    && c.nproper <= |c.blocks|
    && (forall i :: 0 <= i < |c.blocks| ==> c.blocks[i].start != BADADDR && c.blocks[i].end != BADADDR)
    && (forall i, k :: 0 <= i < c.nproper && 0 <= k < |c.blocks[i].succs| ==> c.blocks[i].succs[k] < |c.blocks|)
  }

  /** A terminator kind is read as one byte. */
  function RawKind(b: RawBlock): nat {
    b.kind % 256
  }

  function KindOf(raw: nat): Option<Kind> {
    match raw
    case 0 => Some(Normal)
    case 1 => Some(IndirectJump)
    case 2 => Some(Return)
    case 3 => Some(CondReturn)
    case 4 => Some(NoReturn)
    case 7 => Some(Error)
    case _ => None
  }

  /** The kernel's numbering of block kinds; a byte that is none of these has no kind. */
  predicate IsKind(raw: nat, kind: Kind) {
    && (kind == Normal <==> raw == 0) && (kind == IndirectJump <==> raw == 1) && (kind == Return <==> raw == 2)
    && (kind == CondReturn <==> raw == 3) && (kind == NoReturn <==> raw == 4) && (kind == Error <==> raw == 7)
  }

  lemma {:induction false} KindOfIs(raw: nat)
    ensures KindOf(raw) == None <==> raw > 4 && raw != 7
    ensures KindOf(raw).Some? ==> IsKind(raw, KindOf(raw).value)
  {
  }

  /** The edges below and at or above the number of proper blocks, each in order. */
  function Inner(edges: seq<nat>, nproper: nat): seq<nat> {
    if edges == [] then []
    else
      var n := |edges| - 1;
      Inner(edges[..n], nproper) + if edges[n] < nproper then [edges[n]] else []
  }

  function Outer(edges: seq<nat>, nproper: nat): seq<nat> {
    if edges == [] then []
    else
      var n := |edges| - 1;
      Outer(edges[..n], nproper) + if edges[n] < nproper then [] else [edges[n]]
  }

  function ExitAt(c: RawChart, j: nat): Exit
    requires j < |c.blocks|
  {
    Exit(c.blocks[j].start, RawKind(c.blocks[j]) == FCB_ENORET)
  }

  /** Block `i` as it should be extracted. */
  predicate Lifts(c: RawChart, i: nat, b: Block)
    requires WellFormed(c) && i < c.nproper
  {
    var raw := c.blocks[i];
    && b.start == raw.start && b.end == raw.end && IsKind(raw.kind % 256, b.kind)
    && b.succ == Inner(raw.succs, c.nproper) && b.pred == Inner(raw.preds, c.nproper)
    && |b.exits| == |Outer(raw.succs, c.nproper)|
    && forall k :: 0 <= k < |b.exits| ==>
         var j := Outer(raw.succs, c.nproper)[k];
         j < |c.blocks| && b.exits[k] == Exit(c.blocks[j].start, c.blocks[j].kind % 256 == 5)
  }

  /** Block `i` of the chart ends in a way that has no kind. */
  predicate Unknown(c: RawChart, i: nat)
    requires i < |c.blocks|
  {
    var raw := c.blocks[i].kind % 256; raw > 4 && raw != 7
  }

  /** Internal successors stay handles; each outside one becomes an exit, read from its stub. */
  method Successors(c: RawChart, i: nat) returns (succ: seq<nat>, exits: seq<Exit>)
    requires WellFormed(c) && i < c.nproper
    ensures succ == Inner(c.blocks[i].succs, c.nproper)
    ensures |exits| == |Outer(c.blocks[i].succs, c.nproper)|
    ensures forall k :: 0 <= k < |exits| ==>
      var j := Outer(c.blocks[i].succs, c.nproper)[k]; j < |c.blocks| && exits[k] == ExitAt(c, j)
  {
    var edges := c.blocks[i].succs;
    succ, exits := [], [];
    for k := 0 to |edges|
      invariant succ == Inner(edges[..k], c.nproper) && |exits| == |Outer(edges[..k], c.nproper)|
      invariant forall m :: 0 <= m < |exits| ==>
        var j := Outer(edges[..k], c.nproper)[m]; j < |c.blocks| && exits[m] == ExitAt(c, j)
    {
      assert edges[..k + 1][..k] == edges[..k];
      var j := edges[k];
      if j < c.nproper {
        succ := succ + [j];
      } else {
        exits := exits + [Exit(c.blocks[j].start, RawKind(c.blocks[j]) == FCB_ENORET)];
      }
    }
    assert edges[..|edges|] == edges;
  }

  /** Block `i` of the chart lands at handle `i`; the first block of an unknown kind rejects the whole. */
  method Extract(c: RawChart) returns (r: Extracted)
    requires WellFormed(c)
    ensures r.Chart? <==> forall i :: 0 <= i < c.nproper ==> !Unknown(c, i)
    ensures r.Chart? ==> |r.blocks| == c.nproper && forall i :: 0 <= i < c.nproper ==> Lifts(c, i, r.blocks[i])
    ensures r.UnknownBlockKind? ==> exists i ::
      && 0 <= i < c.nproper && Unknown(c, i)
      && (forall j :: 0 <= j < i ==> !Unknown(c, j))
      && r.block == c.blocks[i].start && r.raw == c.blocks[i].kind % 256
  {
    var blocks: seq<Block> := [];
    for i := 0 to c.nproper
      invariant |blocks| == i
      invariant forall j :: 0 <= j < i ==> !Unknown(c, j) && Lifts(c, j, blocks[j])
    {
      var info := c.blocks[i];
      var raw := RawKind(info);
      var kind := KindOf(raw);
      KindOfIs(raw);
      if kind.None? {
        assert Unknown(c, i);
        return UnknownBlockKind(info.start, raw);
      }
      var succ, exits := Successors(c, i);
      var pred := Predecessors(info.preds, c.nproper);
      blocks := blocks + [Block(info.start, info.end, kind.value, succ, pred, exits)];
    }
    r := Chart(blocks);
  }

  method Predecessors(preds: seq<nat>, nproper: nat) returns (pred: seq<nat>)
    ensures pred == Inner(preds, nproper)
  {
    pred := [];
    for k := 0 to |preds|
      invariant pred == Inner(preds[..k], nproper)
    {
      assert preds[..k + 1][..k] == preds[..k];
      if preds[k] < nproper {
        pred := pred + [preds[k]];
      }
    }
    assert preds[..|preds|] == preds;
  }

  // ---------------------------------------------------------------- what the split loses: nothing

  /** Puts two sequences back in the order `edges` says, by which side of `nproper` each edge is on. */
  function Weave(edges: seq<nat>, nproper: nat, inner: seq<nat>, outer: seq<nat>): Option<seq<nat>> {
    if edges == [] then if inner == [] && outer == [] then Some([]) else None
    else
      var n := |edges| - 1;
      var side := if edges[n] < nproper then inner else outer;
      if side == [] then None
      else
        var m := |side| - 1;
        match (if edges[n] < nproper then Weave(edges[..n], nproper, inner[..m], outer)
               else Weave(edges[..n], nproper, inner, outer[..m]))
        case None => None
        case Some(rest) => Some(rest + [side[m]])
  }

  /** The two sides are an order-preserving partition: woven together they are the raw edges again. */
  lemma {:induction false} SplitInverts(edges: seq<nat>, nproper: nat)
    ensures Weave(edges, nproper, Inner(edges, nproper), Outer(edges, nproper)) == Some(edges)
    ensures |Inner(edges, nproper)| + |Outer(edges, nproper)| == |edges|
    ensures forall k :: 0 <= k < |Inner(edges, nproper)| ==> Inner(edges, nproper)[k] < nproper
  {
    hide Weave;
    if edges == [] {
      WeaveNothing(nproper);
    } else {
      var n := |edges| - 1;
      var (init, e) := (edges[..n], edges[n]);
      SplitInverts(init, nproper);
      var (inner, outer) := (Inner(init, nproper), Outer(init, nproper));
      WeaveNext(init, e, nproper, inner, outer);
      assert inner + [] == inner && outer + [] == outer;
      assert edges == init + [e];
    }
  }

  lemma {:induction false} WeaveNothing(nproper: nat)
    ensures Weave([], nproper, [], []) == Some([])
  {
  }

  lemma {:induction false} WeaveNext(edges: seq<nat>, e: nat, nproper: nat, inner: seq<nat>, outer: seq<nat>)
    requires Weave(edges, nproper, inner, outer).Some?
    ensures Weave(edges + [e], nproper, if e < nproper then inner + [e] else inner,
                  if e < nproper then outer else outer + [e])
         == Some(Weave(edges, nproper, inner, outer).value + [e])
  {
    assert (edges + [e])[..|edges|] == edges;
    assert (inner + [e])[..|inner|] == inner && (outer + [e])[..|outer|] == outer;
  }

  lemma {:induction false} InnerCounts(edges: seq<nat>, nproper: nat, j: nat)
    requires j < nproper
    ensures multiset(Inner(edges, nproper))[j] == multiset(edges)[j]
  {
    if edges != [] {
      var n := |edges| - 1;
      InnerCounts(edges[..n], nproper, j);
      assert edges == edges[..n] + [edges[n]];
    }
  }

  /** If the kernel's successor and predecessor lists are inverse among the proper blocks, so are the lifted ones. */
  lemma {:induction false} InverseKept(c: RawChart, blocks: seq<Block>)
    requires WellFormed(c) && |blocks| == c.nproper && forall i :: 0 <= i < c.nproper ==> Lifts(c, i, blocks[i])
    requires forall i, j :: 0 <= i < c.nproper && 0 <= j < c.nproper ==>
      multiset(c.blocks[i].succs)[j] == multiset(c.blocks[j].preds)[i]
    ensures forall i, j :: 0 <= i < c.nproper && 0 <= j < c.nproper ==>
      multiset(blocks[i].succ)[j] == multiset(blocks[j].pred)[i]
  {
    forall i, j | 0 <= i < c.nproper && 0 <= j < c.nproper
      ensures multiset(blocks[i].succ)[j] == multiset(blocks[j].pred)[i]
    {
      assert Lifts(c, i, blocks[i]) && Lifts(c, j, blocks[j]);
      InnerCounts(c.blocks[i].succs, c.nproper, j);
      InnerCounts(c.blocks[j].preds, c.nproper, i);
    }
  }
}
