/**
Type expressions, the serializer that lowers them to recipe bytes, and the round trip: what the
interpreter builds from the serialized bytes is what the expression means.
*/
module RecipeExpr {
  import opened Bytes
  import opened Recipe
  import opened RecipeMachine

  /** A 64-bit count. */
  type Count64 = n: nat | n <= U64_MAX

  datatype TypeExpr =
    | Void
    | Bool
    | Int(bytes: byte, signed: bool)
    | Float(bytes: byte)
    | Bitfield(nbytes: byte, width: byte, signed: bool)
    | Decl(text: Text)
    | Named(name: Text)
    | Pointer(inner: TypeExpr)
    | Array(elem: TypeExpr, len: Count64)
    | Const(inner: TypeExpr)
    | Volatile(inner: TypeExpr)
    | Function(ret: TypeExpr, params: seq<Param>, varargs: bool, cc: Option<byte>)

  datatype Param = Param(name: Option<Text>, ty: TypeExpr)

  function Flag(b: bool): byte { if b then 1 else 0 }

  function Clip(s: Text): Text {
    if |s| <= U32_MAX then s else s[..U32_MAX]
  }

  function NameOf(p: Param): Text {
    match p.name case None => [] case Some(s) => s
  }

  function CcOf(cc: Option<byte>): nat {
    match cc case None => 0 case Some(c) => c
  }

  function EncodeLenPrefixed(s: Text): Text {
    Le(if |s| <= U32_MAX then |s| else U32_MAX, 4) + Clip(s)
  }

  function EncodeParamNames(ps: seq<Param>): Text {
    if ps == [] then [] else EncodeLenPrefixed(NameOf(ps[0])) + EncodeParamNames(ps[1..])
  }

  function Concat(parts: seq<Text>): Text {
    if parts == [] then [] else parts[0] + Concat(parts[1..])
  }

  /** The serializer: children before their parent, then the opcode and its operands. */
  function Serialize(e: TypeExpr): Text
    decreases e
  {
    match e
    case Void => [RECIPE_VOID]
    case Bool => [RECIPE_BOOL]
    case Int(bytes, signed) => [RECIPE_INT, bytes, Flag(signed)]
    case Float(bytes) => [RECIPE_FLOAT, bytes]
    case Bitfield(nbytes, width, signed) => [RECIPE_BITFIELD, nbytes, width, Flag(signed)]
    case Decl(s) => [RECIPE_DECL] + EncodeLenPrefixed(s)
    case Named(s) => [RECIPE_NAMED] + EncodeLenPrefixed(s)
    case Pointer(inner) => Serialize(inner) + [RECIPE_PTR]
    case Array(elem, len) => Serialize(elem) + ([RECIPE_ARRAY] + Le(len, 8))
    case Const(inner) => Serialize(inner) + [RECIPE_CONST]
    case Volatile(inner) => Serialize(inner) + [RECIPE_VOLATILE]
    case Function(ret, params, varargs, cc) =>
      var count := if |params| <= U32_MAX then |params| else U32_MAX;
      Serialize(ret) + Concat(seq(|params|, k requires 0 <= k < |params| => Serialize(params[k].ty)))
      + ([RECIPE_FUNCTION] + (Le(count, 4) + [Flag(varargs)] + Le(CcOf(cc), 2) + EncodeParamNames(params[..count])))
  }

  /** The off-kernel check that gates serialization: no NUL inside a name. */
  predicate Checked(e: TypeExpr)
    decreases e
  {
    match e
    case Decl(s) => 0 !in s
    case Named(s) => 0 !in s
    case Pointer(inner) => Checked(inner)
    case Const(inner) => Checked(inner)
    case Volatile(inner) => Checked(inner)
    case Array(elem, _) => Checked(elem)
    case Function(ret, params, _, _) =>
      Checked(ret) && forall k :: 0 <= k < |params| ==> 0 !in NameOf(params[k]) && Checked(params[k].ty)
    case _ => true
  }

  /** No function has more parameters than the wire's count has room for. */
  predicate CountsFit(e: TypeExpr)
    decreases e
  {
    match e
    case Pointer(inner) => CountsFit(inner)
    case Const(inner) => CountsFit(inner)
    case Volatile(inner) => CountsFit(inner)
    case Array(elem, _) => CountsFit(elem)
    case Function(ret, params, _, _) =>
      |params| <= U32_MAX && CountsFit(ret) && forall k :: 0 <= k < |params| ==> CountsFit(params[k].ty)
    case _ => true
  }

  function ClipName(name: Option<Text>): Option<Text> {
    match name case None => None case Some(s) => Some(Clip(s))
  }

  /** The expression with every name and declaration cut to what a 32-bit length can say. */
  function Clipped(e: TypeExpr): TypeExpr
    decreases e
  {
    match e
    case Decl(s) => Decl(Clip(s))
    case Named(s) => Named(Clip(s))
    case Pointer(inner) => Pointer(Clipped(inner))
    case Const(inner) => Const(Clipped(inner))
    case Volatile(inner) => Volatile(Clipped(inner))
    case Array(elem, len) => Array(Clipped(elem), len)
    case Function(ret, params, varargs, cc) =>
      Function(Clipped(ret), seq(|params|, k requires 0 <= k < |params| =>
                               Param(ClipName(params[k].name), Clipped(params[k].ty))), varargs, cc)
    case _ => e
  }

  /** Every width and count in the expression is one the kernel side has a type for. */
  predicate Buildable(e: TypeExpr)
    decreases e
  {
    match e
    case Int(bytes, _) => bytes in {1, 2, 4, 8, 16}
    case Float(bytes) => bytes in {4, 8}
    case Pointer(inner) => Buildable(inner)
    case Const(inner) => Buildable(inner)
    case Volatile(inner) => Buildable(inner)
    case Array(elem, len) => Buildable(elem) && len <= U32_MAX
    case Function(ret, params, _, _) =>
      Buildable(ret) && forall k :: 0 <= k < |params| ==> Buildable(params[k].ty)
    case _ => true
  }

  /** The kernel type an expression denotes. */
  function Meaning(e: TypeExpr): Tinfo
    decreases e
  {
    match e
    case Void => Plain(VoidShape)
    case Bool => Plain(BoolShape)
    case Int(bytes, signed) => Plain(IntShape(bytes, signed))
    case Float(bytes) => Plain(FloatShape(bytes))
    case Bitfield(nbytes, width, signed) => Plain(BitfieldShape(nbytes, width, !signed))
    case Decl(s) => Plain(DeclShape(s))
    case Named(s) => Plain(NamedShape(s))
    case Pointer(inner) => Plain(PtrShape(Meaning(inner)))
    case Array(elem, len) => Plain(ArrayShape(Meaning(elem), len))
    case Const(inner) => Meaning(inner).(isConst := true)
    case Volatile(inner) => Meaning(inner).(isVolatile := true)
    case Function(ret, params, varargs, cc) =>
      var args := seq(|params|, k requires 0 <= k < |params| => Arg(NameOf(params[k]), Meaning(params[k].ty)));
      Plain(FunctionShape(Meaning(ret), args,
        if varargs then Ellipsis
        else match cc
          case None => Default
          case Some(c) => if c != 0 then Explicit(c) else Default))
  }

  // ---------------------------------------------------------------- expressions as operator trees

  function Names(ps: seq<Param>): (r: seq<Text>)
    ensures |r| == |ps| && forall k :: 0 <= k < |ps| ==> r[k] == NameOf(ps[k])
  {
    seq(|ps|, k requires 0 <= k < |ps| => NameOf(ps[k]))
  }

  function ClippedNames(ps: seq<Param>): (r: seq<Text>)
    ensures |r| == |ps| && forall k :: 0 <= k < |ps| ==> r[k] == Clip(NameOf(ps[k]))
  {
    seq(|ps|, k requires 0 <= k < |ps| => Clip(NameOf(ps[k])))
  }

  function Counted(params: nat): (r: nat)
    ensures r <= params && r <= U32_MAX
  {
    if params <= U32_MAX then params else U32_MAX
  }

  /** How many operands an expression's last instruction takes. */
  function Operands(e: TypeExpr): nat {
    match e
    case Pointer(_) | Const(_) | Volatile(_) | Array(_, _) => 1
    case Function(_, params, _, _) => Counted(|params|) + 1
    case _ => 0
  }

  /** The instruction the serializer ends an expression with. */
  function Op(e: TypeExpr): (i: Instr)
    ensures WellSized(i) && Arity(i) == Operands(e)
  {
    match e
    case Void => PushVoid
    case Bool => PushBool
    case Int(bytes, signed) => PushInt(bytes, Flag(signed))
    case Float(bytes) => PushFloat(bytes)
    case Bitfield(nbytes, width, signed) => PushBitfield(nbytes, width, Flag(signed))
    case Decl(s) => PushDecl(Clip(s))
    case Named(s) => PushNamed(Clip(s))
    case Pointer(_) => MakePtr
    case Array(_, len) => MakeArray(len)
    case Const(_) => SetConst
    case Volatile(_) => SetVolatile
    case Function(_, params, varargs, cc) =>
      MakeFunction(ClippedNames(params[..Counted(|params|)]), Flag(varargs), CcOf(cc))
  }

  /** The operator trees an expression's bytes leave on an empty stack: one, unless a count does not fit. */
  function Forest(e: TypeExpr): (f: seq<Tree>)
    ensures |f| == |Under(e)| - Operands(e) + 1
    decreases e, 2, 0
  {
    Push(Under(e), Op(e))
  }

  /** What is on the stack when the expression's last instruction comes. */
  function Under(e: TypeExpr): (f: seq<Tree>)
    ensures Operands(e) <= |f|
    decreases e, 1, 0
  {
    match e
    case Pointer(inner) => Forest(inner)
    case Const(inner) => Forest(inner)
    case Volatile(inner) => Forest(inner)
    case Array(elem, _) => Forest(elem)
    case Function(ret, _, _, _) => Forest(ret) + Forests(e, 0)
    case _ => []
  }

  /** The parameters' from the `n`th on. */
  function Forests(e: TypeExpr, n: nat): (f: seq<Tree>)
    requires e.Function? && n <= |e.params|
    ensures |f| >= |e.params| - n
    decreases e, 0, |e.params| - n
  {
    if n == |e.params| then [] else Forest(e.params[n].ty) + Forests(e, n + 1)
  }

  // ---------------------------------------------------------------- the serializer writes the forest

  lemma {:induction false} LenPrefixedIs(s: Text)
    ensures EncodeLenPrefixed(s) == EncodeStr(Clip(s))
  {
    hide Le;
  }

  lemma {:induction false} ParamNamesAre(ps: seq<Param>)
    ensures EncodeParamNames(ps) == EncodeNames(ClippedNames(ps))
  {
    hide EncodeLenPrefixed, EncodeStr, Clip;
    if ps != [] {
      LenPrefixedIs(NameOf(ps[0]));
      ParamNamesAre(ps[1..]);
      assert ClippedNames(ps)[1..] == ClippedNames(ps[1..]);
    }
  }

  /** The serializer writes the postfix encoding of the expression's operator trees. */
  lemma {:induction false} SerializeEncodes(e: TypeExpr)
    ensures Serialize(e) == EncodeAll(Forest(e))
    decreases e, 2, 0
  {
    hide EncodeAll, Forests, Push, Clip, EncodeInstr, Serialize, Op, Under, Operands;
    EncodeAllPush(Under(e), Op(e));
    match e
    case Pointer(inner) => SerializeEncodes(inner); SerializeWrap(e, inner);
    case Const(inner) => SerializeEncodes(inner); SerializeWrap(e, inner);
    case Volatile(inner) => SerializeEncodes(inner); SerializeWrap(e, inner);
    case Array(elem, _) => SerializeEncodes(elem); SerializeWrap(e, elem);
    case Function(_, _, _, _) => SerializeFunction(e);
    case _ => SerializeLeaf(e);
  }

  lemma {:induction false} SerializeWrap(e: TypeExpr, inner: TypeExpr)
    requires e == Pointer(inner) || e == Const(inner) || e == Volatile(inner) || (e.Array? && e.elem == inner)
    ensures Under(e) == Forest(inner) && Serialize(e) == Serialize(inner) + EncodeInstr(Op(e))
  {
    hide Forest, Le;
  }

  lemma {:induction false} SerializeLeaf(e: TypeExpr)
    requires e.Void? || e.Bool? || e.Int? || e.Float? || e.Bitfield? || e.Decl? || e.Named?
    ensures Serialize(e) == EncodeAll(Under(e)) + EncodeInstr(Op(e))
  {
    hide Le, EncodeLenPrefixed, EncodeStr, Clip;
    if e.Decl? {
      LenPrefixedIs(e.text);
    } else if e.Named? {
      LenPrefixedIs(e.name);
    }
    assert EncodeAll([]) == [];
    assert [] + Serialize(e) == Serialize(e);
  }

  lemma {:induction false} SerializeFunction(e: TypeExpr)
    requires e.Function?
    ensures Serialize(e) == EncodeAll(Under(e)) + EncodeInstr(Op(e))
    decreases e, 1, 0
  {
    hide EncodeParamNames, EncodeNames, Le, EncodeAll, Concat, ClippedNames, Forest, Forests, Push;
    SerializeEncodes(e.ret);
    SerializeParams(e, 0);
    assert e.params[0..] == e.params;
    EncodeAllAppend(Forest(e.ret), Forests(e, 0));
    ParamNamesAre(e.params[..Counted(|e.params|)]);
  }

  function Parts(ps: seq<Param>): seq<Text> {
    seq(|ps|, k requires 0 <= k < |ps| => Serialize(ps[k].ty))
  }

  lemma {:induction false} SerializeParams(e: TypeExpr, n: nat)
    requires e.Function? && n <= |e.params|
    ensures Concat(Parts(e.params[n..])) == EncodeAll(Forests(e, n))
    decreases e, 0, |e.params| - n
  {
    hide Serialize, Forest, Encode, EncodeInstr, Push;
    var parts := Parts(e.params[n..]);
    if n < |e.params| {
      assert parts[0] == Serialize(e.params[n].ty);
      assert parts[1..] == Parts(e.params[n + 1..]);
      SerializeEncodes(e.params[n].ty);
      SerializeParams(e, n + 1);
      EncodeAllAppend(Forest(e.params[n].ty), Forests(e, n + 1));
    }
  }

  // ---------------------------------------------------------------- when the machine accepts it

  lemma {:induction false} PushShaped(stack: seq<Tree>, i: Instr)
    requires AllShaped(stack) && WellSized(i) && Arity(i) <= |stack|
    ensures AllShaped(Push(stack, i))
    ensures AllValid(Push(stack, i)) <==> AllValid(stack) && InRange(i)
    ensures |Push(stack, i)| == |stack| - Arity(i) + 1
  {
    hide Arity, WellSized, InRange;
    var base := |stack| - Arity(i);
    var (low, kids, t) := (stack[..base], stack[base..], Node(i, stack[base..]));
    assert Shaped(t);
    assert Valid(t) <==> InRange(i) && AllValid(kids);
    assert stack == low + kids;
    ValidAppend(low, kids);
    ValidAppend(low, [t]);
    assert AllValid([t]) <==> Valid(t) by { assert [t][0] == t; }
  }

  lemma {:induction false} ValidAppend(a: seq<Tree>, b: seq<Tree>)
    ensures AllValid(a + b) <==> AllValid(a) && AllValid(b)
    ensures AllShaped(a + b) <==> AllShaped(a) && AllShaped(b)
  {
    hide Valid, Shaped;
    assert forall k :: 0 <= k < |a| ==> (a + b)[k] == a[k];
    assert forall k :: 0 <= k < |b| ==> (a + b)[|a| + k] == b[k];
  }

  /** The forest is one tree exactly if every count fits, and valid exactly if every width is one there is. */
  lemma {:induction false} ForestMeans(e: TypeExpr)
    ensures AllShaped(Forest(e)) && (AllValid(Forest(e)) <==> Buildable(e)) && (|Forest(e)| == 1 <==> CountsFit(e))
    decreases e, 2, 0
  {
    hide Shaped, Valid, Push, AllShaped, AllValid, WellSized;
    NothingShaped();
    match e
    case Pointer(inner) => ForestMeans(inner); PushShaped(Under(e), Op(e));
    case Const(inner) => ForestMeans(inner); PushShaped(Under(e), Op(e));
    case Volatile(inner) => ForestMeans(inner); PushShaped(Under(e), Op(e));
    case Array(elem, _) => ForestMeans(elem); PushShaped(Under(e), Op(e));
    case Function(ret, params, _, _) =>
      ForestMeans(ret);
      ForestsMean(e, 0);
      ValidAppend(Forest(ret), Forests(e, 0));
      PushShaped(Under(e), Op(e));
    case _ => PushShaped(Under(e), Op(e));
  }

  lemma {:induction false} NothingShaped()
    ensures AllShaped([]) && AllValid([])
  {
  }

  lemma {:induction false} ForestsMean(e: TypeExpr, n: nat)
    requires e.Function? && n <= |e.params|
    ensures AllShaped(Forests(e, n))
    ensures AllValid(Forests(e, n)) <==> forall k :: n <= k < |e.params| ==> Buildable(e.params[k].ty)
    ensures |Forests(e, n)| == |e.params| - n <==> forall k :: n <= k < |e.params| ==> CountsFit(e.params[k].ty)
    decreases e, 0, |e.params| - n
  {
    hide Shaped, Valid, AllShaped, AllValid, Buildable, CountsFit, Forest, Forests;
    NothingShaped();
    NextForest(e, n);
    if n < |e.params| {
      var ty := e.params[n].ty;
      ForestMeans(ty);
      ForestsMean(e, n + 1);
      ValidAppend(Forest(ty), Forests(e, n + 1));
      assert (forall k :: n <= k < |e.params| ==> Buildable(e.params[k].ty))
        <==> (Buildable(ty) && forall k :: n + 1 <= k < |e.params| ==> Buildable(e.params[k].ty));
      assert (forall k :: n <= k < |e.params| ==> CountsFit(e.params[k].ty))
        <==> (CountsFit(ty) && forall k :: n + 1 <= k < |e.params| ==> CountsFit(e.params[k].ty));
    }
  }

  lemma {:induction false} NextForest(e: TypeExpr, n: nat)
    requires e.Function? && n <= |e.params|
    ensures Forests(e, n) == if n == |e.params| then [] else Forest(e.params[n].ty) + Forests(e, n + 1)
  {
    hide Forest;
  }

  // ---------------------------------------------------------------- what it then builds

  function ToTree(e: TypeExpr): Tree
    decreases e
  {
    match e
    case Pointer(inner) => Node(MakePtr, [ToTree(inner)])
    case Array(elem, len) => Node(MakeArray(len), [ToTree(elem)])
    case Const(inner) => Node(SetConst, [ToTree(inner)])
    case Volatile(inner) => Node(SetVolatile, [ToTree(inner)])
    case Function(ret, params, varargs, cc) =>
      var kids := seq(|params|, k requires 0 <= k < |params| => ToTree(params[k].ty));
      Node(MakeFunction(ClippedNames(params), Flag(varargs), CcOf(cc)), [ToTree(ret)] + kids)
    case _ => Node(Op(e), [])
  }

  lemma {:induction false} ForestIsTree(e: TypeExpr)
    requires CountsFit(e)
    ensures Forest(e) == [ToTree(e)]
    decreases e, 2, 0
  {
    hide Forest, Forests, Under, Op, ToTree, Push;
    match e
    case Pointer(inner) => ForestIsTree(inner); WrapIsTree(e, inner);
    case Const(inner) => ForestIsTree(inner); WrapIsTree(e, inner);
    case Volatile(inner) => ForestIsTree(inner); WrapIsTree(e, inner);
    case Array(elem, _) => ForestIsTree(elem); WrapIsTree(e, elem);
    case Function(_, _, _, _) => FunctionIsTree(e);
    case _ => LeafIsTree(e);
  }

  lemma {:induction false} WrapIsTree(e: TypeExpr, inner: TypeExpr)
    requires e == Pointer(inner) || e == Const(inner) || e == Volatile(inner) || (e.Array? && e.elem == inner)
    requires Forest(inner) == [ToTree(inner)]
    ensures Forest(e) == [ToTree(e)]
  {
    hide Push;
    SerializeWrap(e, inner);
    PushAll(Under(e), Op(e));
  }

  lemma {:induction false} LeafIsTree(e: TypeExpr)
    requires e.Void? || e.Bool? || e.Int? || e.Float? || e.Bitfield? || e.Decl? || e.Named?
    ensures Forest(e) == [ToTree(e)]
  {
    hide Push;
    PushAll(Under(e), Op(e));
  }

  function Trees(ps: seq<Param>): (r: seq<Tree>)
    ensures |r| == |ps|
  {
    seq(|ps|, k requires 0 <= k < |ps| => ToTree(ps[k].ty))
  }

  lemma {:induction false} FunctionIsTree(e: TypeExpr)
    requires e.Function? && CountsFit(e)
    ensures Forest(e) == [ToTree(e)]
    decreases e, 1, 0
  {
    hide Forests, Push;
    ForestIsTree(e.ret);
    ForestsAreTrees(e, 0);
    assert e.params[0..] == e.params == e.params[..|e.params|];
    assert Under(e) == [ToTree(e.ret)] + Trees(e.params);
    PushAll(Under(e), Op(e));
  }

  lemma {:induction false} PushAll(stack: seq<Tree>, i: Instr)
    requires Arity(i) == |stack|
    ensures Push(stack, i) == [Node(i, stack)]
  {
    assert stack[0..] == stack;
  }

  lemma {:induction false} ForestsAreTrees(e: TypeExpr, n: nat)
    requires e.Function? && n <= |e.params| && forall k :: n <= k < |e.params| ==> CountsFit(e.params[k].ty)
    ensures Forests(e, n) == Trees(e.params[n..])
    decreases e, 0, |e.params| - n
  {
    hide Forest, Forests, ToTree, CountsFit;
    NextForest(e, n);
    if n < |e.params| {
      ForestIsTree(e.params[n].ty);
      ForestsAreTrees(e, n + 1);
      assert Trees(e.params[n..]) == [ToTree(e.params[n].ty)] + Trees(e.params[n + 1..]);
    }
  }

  /**
  Lowering the operator tree gives what the expression denotes, parameter names included, once its names are
  cut to what their lengths can say.
  */
  lemma {:induction false} LowerMeaning(e: TypeExpr)
    requires Checked(e) && Shaped(ToTree(e))
    ensures Lower(ToTree(e)) == Meaning(Clipped(e))
    decreases e, 1
  {
    hide Clip;
    match e
    case Named(s) => ClipNulFree(s);
    case Decl(s) => ClipNulFree(s);
    case Pointer(inner) => WrapShaped(e, inner); LowerMeaning(inner);
    case Const(inner) => WrapShaped(e, inner); LowerMeaning(inner);
    case Volatile(inner) => WrapShaped(e, inner); LowerMeaning(inner);
    case Array(elem, len) => WrapShaped(e, elem); LowerMeaning(elem);
    case Function(_, _, _, _) => FunctionMeaning(e);
    case _ =>
  }

  lemma {:induction false} WrapShaped(e: TypeExpr, inner: TypeExpr)
    requires e == Pointer(inner) || e == Const(inner) || e == Volatile(inner) || (e.Array? && e.elem == inner)
    requires Shaped(ToTree(e))
    ensures Shaped(ToTree(inner))
  {
    assert ToTree(e).kids[0] == ToTree(inner);
  }

  lemma {:induction false} ClipNulFree(s: Text)
    requires 0 !in s
    ensures CStr(Clip(s)) == Clip(s)
  {
    CStrNulFree(Clip(s));
  }

  lemma {:induction false} FunctionMeaning(e: TypeExpr)
    requires e.Function? && Checked(e) && Shaped(ToTree(e))
    ensures Lower(ToTree(e)) == Meaning(Clipped(e))
    decreases e, 0
  {
    hide Clip;
    var (t, params, ps) := (ToTree(e), e.params, Clipped(e).params);
    assert t.kids[0] == ToTree(e.ret);
    LowerMeaning(e.ret);
    forall k | 0 <= k < |params|
      ensures LowerAll(t.kids)[k + 1] == Meaning(ps[k].ty) && CStr(Clip(NameOf(params[k]))) == NameOf(ps[k])
    {
      assert t.kids[k + 1] == ToTree(params[k].ty);
      LowerMeaning(params[k].ty);
      ClipNulFree(NameOf(params[k]));
      NameClipped(params[k].name);
    }
    assert Lower(t).shape.args == Meaning(Clipped(e)).shape.args;
  }

  lemma {:induction false} NameClipped(name: Option<Text>)
    ensures forall ty, ty' :: NameOf(Param(ClipName(name), ty)) == Clip(NameOf(Param(name, ty')))
  {
  }

  /** Every name's length fits 32 bits. */
  predicate NamesFit(e: TypeExpr)
    decreases e
  {
    match e
    case Decl(s) => |s| <= U32_MAX
    case Named(s) => |s| <= U32_MAX
    case Pointer(inner) => NamesFit(inner)
    case Const(inner) => NamesFit(inner)
    case Volatile(inner) => NamesFit(inner)
    case Array(elem, _) => NamesFit(elem)
    case Function(ret, params, _, _) =>
      NamesFit(ret) && forall k :: 0 <= k < |params| ==> |NameOf(params[k])| <= U32_MAX && NamesFit(params[k].ty)
    case _ => true
  }

  /** Nothing is cut exactly if every name fits. */
  lemma {:induction false} ClippedSame(e: TypeExpr)
    ensures Clipped(e) == e <==> NamesFit(e)
    decreases e
  {
    match e
    case Pointer(inner) => ClippedSame(inner);
    case Const(inner) => ClippedSame(inner);
    case Volatile(inner) => ClippedSame(inner);
    case Array(elem, _) => ClippedSame(elem);
    case Function(ret, params, _, _) =>
      ClippedSame(ret);
      var ps := Clipped(e).params;
      forall k | 0 <= k < |params|
        ensures ps[k] == params[k] <==> |NameOf(params[k])| <= U32_MAX && NamesFit(params[k].ty)
      {
        ClippedSame(params[k].ty);
      }
      assert ps == params <==> forall k :: 0 <= k < |params| ==> ps[k] == params[k];
    case _ =>
  }

  /** Cutting names never touches the qualifiers, and where it cuts, another type is meant. */
  lemma {:induction false} CutMeansOther(e: TypeExpr)
    ensures var (cut, whole) := (Meaning(Clipped(e)), Meaning(e));
            && cut.isConst == whole.isConst && cut.isVolatile == whole.isVolatile
            && (!NamesFit(e) ==> cut.shape != whole.shape)
    decreases e
  {
    match e
    case Pointer(inner) => CutMeansOther(inner);
    case Const(inner) => CutMeansOther(inner);
    case Volatile(inner) => CutMeansOther(inner);
    case Array(elem, _) => CutMeansOther(elem);
    case Function(ret, params, _, _) =>
      CutMeansOther(ret);
      if NamesFit(ret) && !NamesFit(e) {
        var k :| 0 <= k < |params| && !(|NameOf(params[k])| <= U32_MAX && NamesFit(params[k].ty));
        CutMeansOther(params[k].ty);
        NameClipped(params[k].name);
        assert Meaning(Clipped(e)).shape.args[k] != Meaning(e).shape.args[k];
      }
    case _ =>
  }

  /** The type an expression's cut form denotes is its own exactly if nothing is cut. */
  lemma {:induction false} MeaningExact(e: TypeExpr)
    ensures Meaning(Clipped(e)) == Meaning(e) <==> NamesFit(e)
  {
    hide Meaning, Clipped, NamesFit;
    ClippedSame(e);
    CutMeansOther(e);
  }

  /** The interpreter accepts the bytes and builds exactly the type `meant`. */
  predicate Builds(b: Text, meant: Tinfo) {
    var r := Exec(b, []);
    r.Some? && Shaped(r.value) && Lower(r.value) == meant
  }

  /**
  The round trip, for every checked expression however long its names and however many its parameters. The
  interpreter, run on the serialized bytes, accepts exactly if every width is one the kernel has and no
  function has more parameters than a 32-bit count; it then builds what the expression denotes, its names cut
  at the longest 32-bit length. So it builds the very type the expression denotes exactly if, besides, every
  name's length fits.
  */
  lemma {:induction false} RecipeRoundTrip(e: TypeExpr)
    requires Checked(e)
    ensures Exec(Serialize(e), []).Some? <==> Buildable(e) && CountsFit(e)
    ensures Buildable(e) && CountsFit(e) ==>
      && Exec(Serialize(e), []) == Some(ToTree(e))
      && Shaped(ToTree(e)) && Lower(ToTree(e)) == Meaning(Clipped(e))
    ensures Builds(Serialize(e), Meaning(e)) <==> Buildable(e) && CountsFit(e) && NamesFit(e)
  {
    hide Exec, Forest, Serialize, Shaped, Valid, Lower, Meaning, ToTree, Checked, Buildable, CountsFit, NamesFit,
      Clipped, EncodeAll;
    MeaningExact(e);
    SerializeEncodes(e);
    ForestMeans(e);
    ExecForest(Forest(e));
    if Buildable(e) && CountsFit(e) {
      ForestIsTree(e);
      assert Shaped(Forest(e)[0]);
      LowerMeaning(e);
    }
  }

  /** A buffer that encodes a sequence of trees is accepted exactly if that is one valid tree. */
  lemma {:induction false} ExecForest(ts: seq<Tree>)
    requires AllShaped(ts)
    ensures Exec(EncodeAll(ts), []) == if |ts| == 1 && AllValid(ts) then Some(ts[0]) else None
  {
    hide Shaped, Valid, Decode;
    assert EncodeAll(ts) + [] == EncodeAll(ts) && [] + ts == ts;
    if AllValid(ts) {
      ExecAll(ts, [], []);
    } else {
      ExecAllRejects(ts, [], []);
    }
  }

  /** Checking, serializing and interpreting, end to end. */
  method ApplyExpr(e: TypeExpr) returns (r: Option<Tinfo>)
    ensures r == if Checked(e) && Buildable(e) && CountsFit(e) then Some(Meaning(Clipped(e))) else None
    ensures r == Some(Meaning(e)) <==> Checked(e) && Buildable(e) && CountsFit(e) && NamesFit(e)
  {
    if !Checked(e) {
      return None;
    }
    RecipeRoundTrip(e);
    MeaningExact(e);
    r := BuildRecipe(Serialize(e));
  }
}
