/**
The postfix type recipe: the bytecode one side serializes a type expression into, and the stack
machine on the other side that rebuilds the type from an untrusted buffer.

Three levels are kept apart. An `Instr` is one opcode with its raw operands, a `Tree` is an operator
tree over instructions, and a `Tinfo` is what the kernel's constructors make of it.
*/
module Recipe {
  import opened Bytes

  const RECIPE_VOID: byte := 0
  const RECIPE_BOOL: byte := 1
  const RECIPE_INT: byte := 2
  const RECIPE_FLOAT: byte := 3
  const RECIPE_NAMED: byte := 4
  const RECIPE_DECL: byte := 5
  const RECIPE_PTR: byte := 6
  const RECIPE_ARRAY: byte := 7
  const RECIPE_CONST: byte := 8
  const RECIPE_VOLATILE: byte := 9
  const RECIPE_FUNCTION: byte := 10
  const RECIPE_BITFIELD: byte := 11

  // ---------------------------------------------------------------- instructions on the wire

  datatype Instr =
    | PushVoid
    | PushBool
    | PushInt(bytes: byte, signed: byte)
    | PushFloat(bytes: byte)
    | PushNamed(name: Text)
    | PushDecl(text: Text)
    | MakePtr
    | MakeArray(len: nat)
    | SetConst
    | SetVolatile
    | MakeFunction(names: seq<Text>, varargs: byte, cc: nat)
    | PushBitfield(nbytes: byte, width: byte, signed: byte)

  /** How many stack entries an instruction consumes: a function takes its return and parameters. */
  function Arity(i: Instr): nat {
    match i
    case MakePtr | MakeArray(_) | SetConst | SetVolatile => 1
    case MakeFunction(names, _, _) => |names| + 1
    case _ => 0
  }

  /** Every operand fits the field the wire gives it. */
  predicate WellSized(i: Instr) {
    match i
    case PushNamed(s) => |s| <= U32_MAX
    case PushDecl(s) => |s| <= U32_MAX
    case MakeArray(n) => n <= U64_MAX
    case MakeFunction(names, _, cc) =>
      |names| <= U32_MAX && cc < 65536 && forall k :: 0 <= k < |names| ==> |names[k]| <= U32_MAX
    case _ => true
  }

  /** The widths and counts the builder accepts. */
  predicate InRange(i: Instr) {
    match i
    case PushInt(bytes, _) => bytes in {1, 2, 4, 8, 16}
    case PushFloat(bytes) => bytes in {4, 8}
    case MakeArray(n) => n <= U32_MAX
    case _ => true
  }

  function EncodeStr(s: Text): Text {
    Le(|s|, 4) + s
  }

  function EncodeNames(names: seq<Text>): (b: Text)
    ensures |b| >= 4 * |names|
  {
    if names == [] then [] else EncodeStr(names[0]) + EncodeNames(names[1..])
  }

  /** A function's operands: parameter count, varargs flag, calling convention, parameter names. */
  function EncodeFunction(names: seq<Text>, varargs: byte, cc: nat): Text {
    Le(|names|, 4) + [varargs] + Le(cc, 2) + EncodeNames(names)
  }

  function EncodeInstr(i: Instr): (b: Text)
    ensures |b| > 0
  {
    match i
    case PushVoid => [RECIPE_VOID]
    case PushBool => [RECIPE_BOOL]
    case PushInt(bytes, signed) => [RECIPE_INT, bytes, signed]
    case PushFloat(bytes) => [RECIPE_FLOAT, bytes]
    case PushNamed(s) => [RECIPE_NAMED] + EncodeStr(s)
    case PushDecl(s) => [RECIPE_DECL] + EncodeStr(s)
    case MakePtr => [RECIPE_PTR]
    case MakeArray(n) => [RECIPE_ARRAY] + Le(n, 8)
    case SetConst => [RECIPE_CONST]
    case SetVolatile => [RECIPE_VOLATILE]
    case MakeFunction(names, varargs, cc) => [RECIPE_FUNCTION] + EncodeFunction(names, varargs, cc)
    case PushBitfield(nbytes, width, signed) => [RECIPE_BITFIELD, nbytes, width, signed]
  }

  /** A length-prefixed string at the front of `b`, and what follows it. */
  function TakeStr(b: Text): (r: Option<(Text, Text)>)
    ensures r.Some? ==> |r.value.1| + 4 <= |b|
  {
    if |b| < 4 then None else
    var n := UintLe(b[..4]);
    if |b| < 4 + n then None else Some((b[4..4 + n], b[4 + n..]))
  }

  function TakeNames(b: Text, n: nat): (r: Option<(seq<Text>, Text)>)
    ensures r.Some? ==> |r.value.0| == n && |r.value.1| + 4 * n <= |b|
  {
    if n == 0 then Some(([], b)) else
    match TakeStr(b)
    case None => None
    case Some((s, rest)) =>
      match TakeNames(rest, n - 1)
      case None => None
      case Some((ss, rest')) => Some(([s] + ss, rest'))
  }

  function DecodeFunction(b: Text): (r: Option<(Instr, Text)>)
    ensures r.Some? ==> r.value.0.MakeFunction? && |r.value.1| < |b|
  {
    if |b| < 7 then None else
    match TakeNames(b[7..], UintLe(b[..4]))
    case None => None
    case Some((names, rest)) => Some((MakeFunction(names, b[4], UintLe(b[5..7])), rest))
  }

  /** The instruction at the front of a non-empty buffer, and what follows it. */
  function Decode(b: Text): (r: Option<(Instr, Text)>)
    requires b != []
    ensures r.Some? ==> |r.value.1| < |b|
  {
    var op, a := b[0], b[1..];
    if op == RECIPE_VOID then Some((PushVoid, a))
    else if op == RECIPE_BOOL then Some((PushBool, a))
    else if op == RECIPE_INT then (if |a| < 2 then None else Some((PushInt(a[0], a[1]), a[2..])))
    else if op == RECIPE_FLOAT then (if |a| < 1 then None else Some((PushFloat(a[0]), a[1..])))
    else if op == RECIPE_NAMED then
      (match TakeStr(a) case None => None case Some((s, rest)) => Some((PushNamed(s), rest)))
    else if op == RECIPE_DECL then
      (match TakeStr(a) case None => None case Some((s, rest)) => Some((PushDecl(s), rest)))
    else if op == RECIPE_PTR then Some((MakePtr, a))
    else if op == RECIPE_ARRAY then
      (if |a| < 8 then None else Some((MakeArray(UintLe(a[..8])), a[8..])))
    else if op == RECIPE_CONST then Some((SetConst, a))
    else if op == RECIPE_VOLATILE then Some((SetVolatile, a))
    else if op == RECIPE_FUNCTION then DecodeFunction(a)
    else if op == RECIPE_BITFIELD then
      (if |a| < 3 then None else Some((PushBitfield(a[0], a[1], a[2]), a[3..])))
    else None
  }

  // ---------------------------------------------------------------- decoding inverts encoding

  lemma {:induction false} PowValues()
    ensures Pow256(2) == 65536 && Pow256(4) == U32_MAX + 1 && Pow256(8) == U64_MAX + 1
  {
    assert Pow256(4) == 256 * Pow256(3) == 256 * 256 * Pow256(2);
    assert Pow256(8) == 256 * Pow256(7) == 256 * 256 * Pow256(6) == 256 * 256 * 256 * Pow256(5)
                     == 256 * 256 * 256 * 256 * Pow256(4);
  }

  lemma {:induction false} TakeStrInverts(s: Text, rest: Text)
    requires |s| <= U32_MAX
    ensures TakeStr(EncodeStr(s) + rest) == Some((s, rest))
  {
    PowValues();
    LeInverts(|s|, 4);
    var b := EncodeStr(s) + rest;
    assert b[..4] == Le(|s|, 4);
    assert b[4..4 + |s|] == s && b[4 + |s|..] == rest;
  }

  lemma {:induction false} TakeNamesInverts(names: seq<Text>, rest: Text)
    requires forall k :: 0 <= k < |names| ==> |names[k]| <= U32_MAX
    ensures TakeNames(EncodeNames(names) + rest, |names|) == Some((names, rest))
  {
    if names == [] {
      assert EncodeNames(names) + rest == rest;
    } else {
      var tail := EncodeNames(names[1..]) + rest;
      Assoc(EncodeStr(names[0]), EncodeNames(names[1..]), rest);
      TakeStrInverts(names[0], tail);
      TakeNamesInverts(names[1..], rest);
      assert [names[0]] + names[1..] == names;
    }
  }

  lemma {:induction false} DecodeFunctionInverts(names: seq<Text>, varargs: byte, cc: nat, rest: Text)
    requires WellSized(MakeFunction(names, varargs, cc))
    ensures DecodeFunction(EncodeFunction(names, varargs, cc) + rest)
         == Some((MakeFunction(names, varargs, cc), rest))
  {
    hide UintLe, Le, EncodeNames, TakeNames;
    var b := EncodeFunction(names, varargs, cc) + rest;
    PowValues();
    LeInverts(|names|, 4);
    LeInverts(cc, 2);
    assert b[..4] == Le(|names|, 4) && b[4] == varargs && b[5..7] == Le(cc, 2);
    assert b[7..] == EncodeNames(names) + rest;
    TakeNamesInverts(names, rest);
  }

  lemma {:induction false} DecodeFixedInverts(i: Instr, rest: Text)
    requires i.PushVoid? || i.PushBool? || i.PushInt? || i.PushFloat? || i.PushBitfield?
          || i.MakePtr? || i.SetConst? || i.SetVolatile?
    ensures Decode(EncodeInstr(i) + rest) == Some((i, rest))
  {
    var e := EncodeInstr(i);
    var b := e + rest;
    assert b[|e|..] == rest;
    assert forall k :: 0 <= k < |e| ==> b[k] == e[k];
    if |e| > 1 {
      assert b[1..][|e| - 1..] == rest;
    }
  }

  lemma {:induction false} DecodeStrInverts(i: Instr, s: Text, rest: Text)
    requires |s| <= U32_MAX && (i == PushNamed(s) || i == PushDecl(s))
    ensures Decode(EncodeInstr(i) + rest) == Some((i, rest))
  {
    hide EncodeStr, TakeStr;
    var b := EncodeInstr(i) + rest;
    assert b[1..] == EncodeStr(s) + rest;
    TakeStrInverts(s, rest);
  }

  lemma {:induction false} DecodeArrayInverts(n: nat, rest: Text)
    requires n <= U64_MAX
    ensures Decode(EncodeInstr(MakeArray(n)) + rest) == Some((MakeArray(n), rest))
  {
    var a := (EncodeInstr(MakeArray(n)) + rest)[1..];
    PowValues();
    LeInverts(n, 8);
    assert a[..8] == Le(n, 8) && a[8..] == rest;
  }

  /** Whatever follows it, an encoded instruction decodes to itself and leaves exactly what follows. */
  lemma {:induction false} DecodeInverts(i: Instr, rest: Text)
    requires WellSized(i)
    ensures Decode(EncodeInstr(i) + rest) == Some((i, rest))
  {
    match i
    case PushNamed(s) => DecodeStrInverts(i, s, rest);
    case PushDecl(s) => DecodeStrInverts(i, s, rest);
    case MakeArray(n) => DecodeArrayInverts(n, rest);
    case MakeFunction(names, varargs, cc) =>
      var b := EncodeInstr(i) + rest;
      assert b[0] == RECIPE_FUNCTION && b[1..] == EncodeFunction(names, varargs, cc) + rest;
      DecodeFunctionInverts(names, varargs, cc, rest);
    case _ => DecodeFixedInverts(i, rest);
  }

  lemma {:induction false} TakeStrSound(b: Text)
    requires TakeStr(b).Some?
    ensures var (s, rest) := TakeStr(b).value; |s| <= U32_MAX && b == EncodeStr(s) + rest
  {
    PowValues();
    UintLeInverts(b[..4]);
    var (s, rest) := TakeStr(b).value;
    assert b == b[..4] + s + rest;
  }

  lemma {:induction false} TakeNamesSound(b: Text, n: nat)
    requires TakeNames(b, n).Some?
    ensures var (names, rest) := TakeNames(b, n).value;
            && (forall k :: 0 <= k < |names| ==> |names[k]| <= U32_MAX)
            && b == EncodeNames(names) + rest
    decreases n
  {
    hide EncodeStr, TakeStr;
    if n == 0 {
      assert [] + b == b;
    } else {
      var (s, tail) := TakeStr(b).value;
      TakeStrSound(b);
      TakeNamesSound(tail, n - 1);
      var (ss, rest) := TakeNames(tail, n - 1).value;
      assert ([s] + ss)[1..] == ss;
      Assoc(EncodeStr(s), EncodeNames(ss), rest);
    }
  }

  lemma {:induction false} DecodeFunctionSound(b: Text)
    requires DecodeFunction(b).Some?
    ensures var (i, rest) := DecodeFunction(b).value;
            && i.MakeFunction? && WellSized(i)
            && b == EncodeFunction(i.names, i.varargs, i.cc) + rest
  {
    hide UintLe, Le, EncodeNames, TakeNames;
    PowValues();
    var (i, rest) := DecodeFunction(b).value;
    UintLeInverts(b[..4]);
    UintLeInverts(b[5..7]);
    TakeNamesSound(b[7..], UintLe(b[..4]));
    calc {
      b;
      b[..4] + [b[4]] + b[5..7] + b[7..];
      Le(|i.names|, 4) + [b[4]] + Le(i.cc, 2) + (EncodeNames(i.names) + rest);
    }
  }

  lemma {:induction false} DecodeStrSound(b: Text)
    requires b != [] && b[0] in {RECIPE_NAMED, RECIPE_DECL} && Decode(b).Some?
    ensures var (i, rest) := Decode(b).value; WellSized(i) && b == EncodeInstr(i) + rest
  {
    hide EncodeStr, TakeStr;
    TakeStrSound(b[1..]);
    var (s, rest) := TakeStr(b[1..]).value;
    assert b == [b[0]] + b[1..];
    Assoc([b[0]], EncodeStr(s), rest);
  }

  lemma {:induction false} DecodeArraySound(b: Text)
    requires |b| >= 9 && b[0] == RECIPE_ARRAY
    ensures var (i, rest) := Decode(b).value; WellSized(i) && b == EncodeInstr(i) + rest
  {
    hide UintLe, Le;
    PowValues();
    var a := b[1..];
    UintLeInverts(a[..8]);
    assert b == [b[0]] + a && a == a[..8] + a[8..];
    Assoc([b[0]], a[..8], a[8..]);
  }

  lemma {:induction false} DecodeFixedSound(b: Text)
    requires b != [] && Decode(b).Some?
    requires b[0] !in {RECIPE_NAMED, RECIPE_DECL, RECIPE_ARRAY, RECIPE_FUNCTION}
    ensures var (i, rest) := Decode(b).value; WellSized(i) && b == EncodeInstr(i) + rest
  {
    var (i, rest) := Decode(b).value;
    var n := |EncodeInstr(i)|;
    assert EncodeInstr(i) == b[..n];
    assert rest == b[n..];
  }

  lemma {:induction false} DecodeFunctionInstrSound(b: Text)
    requires b != [] && b[0] == RECIPE_FUNCTION && Decode(b).Some?
    ensures var (i, rest) := Decode(b).value; WellSized(i) && b == EncodeInstr(i) + rest
  {
    hide EncodeFunction, DecodeFunction;
    DecodeFunctionSound(b[1..]);
    var (i, rest) := DecodeFunction(b[1..]).value;
    assert b == [b[0]] + b[1..];
    Assoc([b[0]], EncodeFunction(i.names, i.varargs, i.cc), rest);
  }

  /** Whatever decodes was an encoding: the consumed bytes are exactly the instruction's own. */
  lemma {:induction false} DecodeSound(b: Text)
    requires b != [] && Decode(b).Some?
    ensures var (i, rest) := Decode(b).value; WellSized(i) && b == EncodeInstr(i) + rest
  {
    if b[0] in {RECIPE_NAMED, RECIPE_DECL} {
      DecodeStrSound(b);
    } else if b[0] == RECIPE_ARRAY {
      assert |b| >= 9;
      DecodeArraySound(b);
    } else if b[0] == RECIPE_FUNCTION {
      DecodeFunctionInstrSound(b);
    } else {
      DecodeFixedSound(b);
    }
  }

  // ---------------------------------------------------------------- operator trees

  datatype Tree = Node(op: Instr, kids: seq<Tree>)

  predicate Valid(t: Tree) {
    && WellSized(t.op) && InRange(t.op) && |t.kids| == Arity(t.op)
    && forall k :: 0 <= k < |t.kids| ==> Valid(t.kids[k])
  }

  predicate AllValid(ts: seq<Tree>) {
    forall k :: 0 <= k < |ts| ==> Valid(ts[k])
  }

  /** Postfix: the operands in order, then the operator. */
  function Encode(t: Tree): Text
    decreases t, 0
  {
    EncodeAll(t.kids) + EncodeInstr(t.op)
  }

  function EncodeAll(ts: seq<Tree>): Text
    decreases ts, 1
  {
    if ts == [] then [] else Encode(ts[0]) + EncodeAll(ts[1..])
  }

  function Push(stack: seq<Tree>, i: Instr): (s: seq<Tree>)
    requires Arity(i) <= |stack|
  {
    var base := |stack| - Arity(i);
    stack[..base] + [Node(i, stack[base..])]
  }

  /** The stack machine, with operator trees on its stack. */
  function Exec(b: Text, stack: seq<Tree>): Option<Tree>
    decreases |b|
  {
    if b == [] then (if |stack| == 1 then Some(stack[0]) else None)
    else match Decode(b)
      case None => None
      case Some((i, rest)) =>
        if InRange(i) && Arity(i) <= |stack| then Exec(rest, Push(stack, i)) else None
  }

  lemma {:induction false} EncodeAllAppend(ts: seq<Tree>, us: seq<Tree>)
    ensures EncodeAll(ts + us) == EncodeAll(ts) + EncodeAll(us)
  {
    hide Encode;
    if ts == [] {
      assert ts + us == us;
    } else {
      var all := ts + us;
      assert all[0] == ts[0] && all[1..] == ts[1..] + us;
      EncodeAllAppend(ts[1..], us);
      Assoc(Encode(ts[0]), EncodeAll(ts[1..]), EncodeAll(us));
    }
  }

  /** Executing an encoded tree then `rest` is executing `rest` with that tree on top of the stack. */
  lemma {:induction false} ExecTree(t: Tree, rest: Text, stack: seq<Tree>)
    requires Valid(t)
    ensures Exec(Encode(t) + rest, stack) == Exec(rest, stack + [t])
    decreases t, 0
  {
    var tail := EncodeInstr(t.op) + rest;
    Assoc(EncodeAll(t.kids), EncodeInstr(t.op), rest);
    ExecAll(t.kids, tail, stack);
    DecodeInverts(t.op, rest);
    var full := stack + t.kids;
    assert full[..|stack|] == stack && full[|stack|..] == t.kids;
    assert Push(full, t.op) == stack + [t];
  }

  lemma {:induction false} ExecAll(ts: seq<Tree>, rest: Text, stack: seq<Tree>)
    requires AllValid(ts)
    ensures Exec(EncodeAll(ts) + rest, stack) == Exec(rest, stack + ts)
    decreases ts, 1
  {
    hide Decode, Encode, Push;
    if ts == [] {
      assert EncodeAll(ts) + rest == rest && stack + ts == stack;
    } else {
      var tail := EncodeAll(ts[1..]) + rest;
      Assoc(Encode(ts[0]), EncodeAll(ts[1..]), rest);
      ExecTree(ts[0], tail, stack);
      ExecAll(ts[1..], rest, stack + [ts[0]]);
      assert stack + [ts[0]] + ts[1..] == stack + ts;
    }
  }

  /** An operand out of range anywhere in a tree makes the machine reject it, whatever surrounds it. */
  lemma {:induction false} ExecRejects(t: Tree, rest: Text, stack: seq<Tree>)
    requires Shaped(t) && !Valid(t)
    ensures Exec(Encode(t) + rest, stack) == None
    decreases t, 0
  {
    var tail := EncodeInstr(t.op) + rest;
    Assoc(EncodeAll(t.kids), EncodeInstr(t.op), rest);
    if AllValid(t.kids) {
      ExecAll(t.kids, tail, stack);
      DecodeInverts(t.op, rest);
      assert tail != [];
    } else {
      ExecAllRejects(t.kids, tail, stack);
    }
  }

  lemma {:induction false} ExecAllRejects(ts: seq<Tree>, rest: Text, stack: seq<Tree>)
    requires (forall k :: 0 <= k < |ts| ==> Shaped(ts[k])) && !AllValid(ts)
    ensures Exec(EncodeAll(ts) + rest, stack) == None
    decreases ts, 1
  {
    var tail := EncodeAll(ts[1..]) + rest;
    Assoc(Encode(ts[0]), EncodeAll(ts[1..]), rest);
    if Valid(ts[0]) {
      ExecTree(ts[0], tail, stack);
      assert exists k :: 0 <= k < |ts| && !Valid(ts[k]);
      var k :| 0 <= k < |ts| && !Valid(ts[k]);
      assert !Valid(ts[1..][k - 1]);
      ExecAllRejects(ts[1..], rest, stack + [ts[0]]);
    } else {
      ExecRejects(ts[0], tail, stack);
    }
  }

  /** Arities and operand widths fit; ranges may not. */
  predicate Shaped(t: Tree) {
    && WellSized(t.op) && |t.kids| == Arity(t.op)
    && forall k :: 0 <= k < |t.kids| ==> Shaped(t.kids[k])
  }

  lemma {:induction false} EncodeAllOne(t: Tree)
    ensures EncodeAll([t]) == Encode(t)
  {
    hide Encode;
    assert [t][1..] == [];
    assert Encode(t) + [] == Encode(t);
  }

  lemma {:induction false} EncodeAllNode(low: seq<Tree>, kids: seq<Tree>, i: Instr)
    ensures EncodeAll(low + [Node(i, kids)]) == EncodeAll(low + kids) + EncodeInstr(i)
  {
    hide EncodeInstr, EncodeAll;
    EncodeAllAppend(low, [Node(i, kids)]);
    EncodeAllOne(Node(i, kids));
    EncodeAllAppend(low, kids);
    Assoc(EncodeAll(low), EncodeAll(kids), EncodeInstr(i));
  }

  /** Applying an instruction moves its bytes onto the end of what the stack encodes. */
  lemma {:induction false} EncodeAllPush(stack: seq<Tree>, i: Instr)
    requires Arity(i) <= |stack|
    ensures EncodeAll(Push(stack, i)) == EncodeAll(stack) + EncodeInstr(i)
  {
    hide EncodeInstr, EncodeAll, Arity;
    var base := |stack| - Arity(i);
    EncodeAllNode(stack[..base], stack[base..], i);
    assert stack[..base] + stack[base..] == stack;
  }

  /** If the machine accepts, what it had on the stack and what it read were one valid tree's encoding. */
  lemma {:induction false} ExecSound(b: Text, stack: seq<Tree>)
    requires AllValid(stack) && Exec(b, stack).Some?
    ensures Valid(Exec(b, stack).value) && EncodeAll(stack) + b == Encode(Exec(b, stack).value)
    decreases |b|
  {
    hide Decode, Encode, EncodeInstr, EncodeAll;
    if b == [] {
      assert stack == [stack[0]];
      EncodeAllOne(stack[0]);
      assert Encode(stack[0]) + b == Encode(stack[0]);
    } else {
      var (i, rest) := Decode(b).value;
      DecodeSound(b);
      EncodeAllPush(stack, i);
      ExecSound(rest, Push(stack, i));
      Assoc(EncodeAll(stack), EncodeInstr(i), rest);
    }
  }

  /** A buffer is accepted exactly when it is the encoding of some valid tree, and then as that tree. */
  lemma {:induction false} AcceptsExactlyEncodings(b: Text, t: Tree)
    ensures Exec(b, []) == Some(t) <==> Valid(t) && b == Encode(t)
  {
    if Exec(b, []) == Some(t) {
      ExecSound(b, []);
      assert EncodeAll([]) + b == b;
    }
    if Valid(t) && b == Encode(t) {
      ExecTree(t, [], []);
      assert Encode(t) + [] == Encode(t) && [] + [t] == [t];
    }
  }

  /** No buffer is the encoding of two different valid trees. */
  lemma {:induction false} EncodeInjective(t: Tree, u: Tree)
    requires Valid(t) && Valid(u) && Encode(t) == Encode(u)
    ensures t == u
  {
    AcceptsExactlyEncodings(Encode(t), t);
    AcceptsExactlyEncodings(Encode(t), u);
  }
}
