/** The recipe's bytes spelled out, and what an expression's check and qualifiers say of it. */
module RecipeExamples {
  import opened Bytes
  import opened RecipeMachine
  import opened RecipeExpr

  const INT32 := Int(4, true)
  const UINT8 := Int(1, false)
  const FOO: Text := ['F' as int, 'o' as int, 'o' as int]

  /** The bytes of the leaves. */
  lemma {:induction false} LeafBytes()
    ensures Serialize(Void) == [0] && Serialize(Bool) == [1]
    ensures Serialize(INT32) == [2, 4, 1] && Serialize(UINT8) == [2, 1, 0]
    ensures Serialize(Float(8)) == [3, 8] && Serialize(Bitfield(4, 3, false)) == [11, 4, 3, 0]
    ensures Serialize(Named(FOO)) == [4, 3, 0, 0, 0] + FOO
    ensures Serialize(Decl(FOO[..1])) == [5, 1, 0, 0, 0] + FOO[..1]
  {
    LeIs(3);
    LeIs(1);
  }

  lemma {:induction false} LeIs(n: byte)
    ensures Le(n, 2) == [n, 0] && Le(n, 4) == [n, 0, 0, 0] && Le(n, 8) == [n, 0, 0, 0, 0, 0, 0, 0]
  {
    assert Le(0, 1) == [0] && Le(0, 2) == [0, 0] && Le(0, 3) == [0, 0, 0];
    assert Le(0, 4) == [0, 0, 0, 0] && Le(0, 5) == [0, 0, 0, 0, 0];
    assert Le(0, 6) == [0, 0, 0, 0, 0, 0] && Le(0, 7) == [0, 0, 0, 0, 0, 0, 0];
  }

  /** A wrapper's bytes follow what it wraps, so the order of qualifiers survives. */
  lemma {:induction false} WrapperBytes(e: TypeExpr)
    ensures Serialize(Pointer(e)) == Serialize(e) + [6] && Serialize(Const(e)) == Serialize(e) + [8]
    ensures Serialize(Volatile(e)) == Serialize(e) + [9]
    ensures Serialize(Array(e, 8)) == Serialize(e) + [7, 8, 0, 0, 0, 0, 0, 0, 0]
    ensures Serialize(Pointer(Const(e))) == Serialize(e) + [8, 6]
    ensures Serialize(Const(Pointer(e))) == Serialize(e) + [6, 8]
  {
    hide Le;
    LeIs(8);
    assert Serialize(e) + [8] + [6] == Serialize(e) + [8, 6];
    assert Serialize(e) + [6] + [8] == Serialize(e) + [6, 8];
  }

  lemma {:induction false} PrefixedNames()
    ensures EncodeLenPrefixed([]) == [0, 0, 0, 0]
    ensures EncodeLenPrefixed([97]) == [1, 0, 0, 0, 97]
  {
    LeIs(0);
    LeIs(1);
    assert Clip([]) == [] && Clip([97]) == [97];
  }

  /** A function: its return, its parameters, then count, varargs flag, convention and a name for each. */
  lemma {:induction false} NoParamBytes(cc: Option<byte>)
    ensures Serialize(Function(Void, [], false, cc))
         == [0, 10, 0, 0, 0, 0, 0, if cc.Some? then cc.value else 0, 0]
  {
    hide Le;
    LeIs(0);
    LeIs(CcOf(cc));
    var none: seq<Param> := [];
    assert Parts(none) == [] && none[..0] == [];
    assert Concat([]) == [] && EncodeParamNames([]) == [];
    assert [0] + [] + ([10] + (Le(0, 4) + [0] + Le(CcOf(cc), 2) + [])) == [0, 10, 0, 0, 0, 0, 0, CcOf(cc), 0];
  }

  lemma {:induction false} OneParamBytes(ret: TypeExpr, p: Param, varargs: bool)
    ensures Serialize(Function(ret, [p], varargs, None))
         == Serialize(ret) + Serialize(p.ty)
            + ([10, 1, 0, 0, 0, if varargs then 1 else 0, 0, 0] + EncodeLenPrefixed(NameOf(p)))
  {
    hide Le, EncodeLenPrefixed;
    LeIs(0);
    LeIs(1);
    var ps := [p];
    assert ps[..1] == ps && ps[1..] == [];
    var parts := Parts(ps);
    assert parts == [Serialize(p.ty)] && parts[1..] == [];
    assert Concat(parts) == Serialize(p.ty) + [] == Serialize(p.ty);
    var name := EncodeLenPrefixed(NameOf(p));
    assert EncodeParamNames(ps) == name + [] == name;
    var flag: byte := if varargs then 1 else 0;
    assert [10] + ([1, 0, 0, 0] + [flag] + [0, 0] + name) == [10, 1, 0, 0, 0, flag, 0, 0] + name;
  }

  lemma {:induction false} FunctionBytes()
    ensures Serialize(Function(INT32, [Param(None, INT32)], false, None))
         == [2, 4, 1, 2, 4, 1, 10, 1, 0, 0, 0, 0, 0, 0, 0, 0, 0, 0]
    ensures Serialize(Function(INT32, [Param(Some([97]), UINT8)], true, None))
         == [2, 4, 1, 2, 1, 0, 10, 1, 0, 0, 0, 1, 0, 0, 1, 0, 0, 0, 97]
  {
    hide Serialize, EncodeLenPrefixed;
    LeafBytes();
    PrefixedNames();
    OneParamBytes(INT32, Param(None, INT32), false);
    OneParamBytes(INT32, Param(Some([97]), UINT8), true);
  }

  // ---------------------------------------------------------------- what the check is for

  /** The names and declarations in an expression. */
  function NamesIn(e: TypeExpr): set<Text>
    decreases e
  {
    match e
    case Decl(s) => {s}
    case Named(s) => {s}
    case Pointer(inner) => NamesIn(inner)
    case Const(inner) => NamesIn(inner)
    case Volatile(inner) => NamesIn(inner)
    case Array(elem, _) => NamesIn(elem)
    case Function(ret, params, _, _) =>
      NamesIn(ret) + (set k, s | 0 <= k < |params| && s in NamesIn(params[k].ty) :: s)
      + (set k | 0 <= k < |params| && params[k].name.Some? :: params[k].name.value)
    case _ => {}
  }

  /** An expression passes the check exactly if none of them holds a zero byte. */
  lemma {:induction false} CheckedMeans(e: TypeExpr)
    ensures Checked(e) <==> forall s :: s in NamesIn(e) ==> 0 !in s
    decreases e
  {
    match e
    case Pointer(inner) => CheckedMeans(inner);
    case Const(inner) => CheckedMeans(inner);
    case Volatile(inner) => CheckedMeans(inner);
    case Array(elem, _) => CheckedMeans(elem);
    case Function(ret, params, _, _) =>
      CheckedMeans(ret);
      forall k | 0 <= k < |params|
        ensures Checked(params[k].ty) <==> forall s :: s in NamesIn(params[k].ty) ==> 0 !in s
      {
        CheckedMeans(params[k].ty);
      }
      CheckedFunction(e);
    case _ =>
  }

  lemma {:induction false} CheckedFunction(e: TypeExpr)
    requires e.Function? && (Checked(e.ret) <==> forall s :: s in NamesIn(e.ret) ==> 0 !in s)
    requires forall k :: 0 <= k < |e.params| ==>
               (Checked(e.params[k].ty) <==> forall s :: s in NamesIn(e.params[k].ty) ==> 0 !in s)
    ensures Checked(e) <==> forall s :: s in NamesIn(e) ==> 0 !in s
  {
    var ps := e.params;
    if Checked(e) {
      forall s | s in NamesIn(e) ensures 0 !in s {
        if k :| 0 <= k < |ps| && ps[k].name.Some? && s == ps[k].name.value {
          assert NameOf(ps[k]) == s;
        }
      }
    } else if Checked(e.ret) {
      var k :| 0 <= k < |ps| && !(0 !in NameOf(ps[k]) && Checked(ps[k].ty));
      if 0 in NameOf(ps[k]) {
        assert ps[k].name.Some? && ps[k].name.value in NamesIn(e);
      } else {
        var s :| s in NamesIn(ps[k].ty) && 0 in s;
        assert s in NamesIn(e);
      }
    }
  }

  // ---------------------------------------------------------------- qualifiers

  /** A `const` among the qualifiers on the outside. */
  predicate OuterConst(e: TypeExpr) {
    e.Const? || (e.Volatile? && OuterConst(e.inner))
  }

  predicate OuterVolatile(e: TypeExpr) {
    e.Volatile? || (e.Const? && OuterVolatile(e.inner))
  }

  /** A type is qualified exactly as the expression says on the outside, and no type is by itself. */
  lemma {:induction false} QualifiersMean(e: TypeExpr)
    ensures Meaning(e).isConst <==> OuterConst(e)
    ensures Meaning(e).isVolatile <==> OuterVolatile(e)
    decreases e
  {
    match e
    case Const(inner) => QualifiersMean(inner);
    case Volatile(inner) => QualifiersMean(inner);
    case _ =>
  }
}
