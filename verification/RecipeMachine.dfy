/**
The recipe interpreter as the facade runs it: a cursor over the buffer, a stack of kernel types and
one dispatch loop, proved against `Recipe.Exec`; and the serializer that feeds it.
*/
module RecipeMachine {
  import opened Bytes
  import opened Recipe

  // ---------------------------------------------------------------- kernel types

  datatype Convention = Default | Ellipsis | Explicit(code: nat)

  datatype Arg = Arg(name: Text, ty: Tinfo)

  datatype Shape =
    | VoidShape
    | BoolShape
    | IntShape(bytes: byte, signed: bool)
    | FloatShape(bytes: byte)
    | NamedShape(name: Text)
    | DeclShape(text: Text)
    | PtrShape(to: Tinfo)
    | ArrayShape(elem: Tinfo, len: nat)
    | FunctionShape(ret: Tinfo, args: seq<Arg>, cc: Convention)
    | BitfieldShape(nbytes: byte, width: byte, isUnsigned: bool)

  /** A kernel type: qualifiers are flags, so setting one twice or in another order is the same type. */
  datatype Tinfo = Tinfo(shape: Shape, isConst: bool, isVolatile: bool)

  function Plain(s: Shape): Tinfo {
    Tinfo(s, false, false)
  }

  /** What a C string pointer sees of a byte string: everything before the first NUL. */
  function CStr(s: Text): Text {
    if s == [] || s[0] == 0 then [] else [s[0]] + CStr(s[1..])
  }

  lemma {:induction false} CStrNulFree(s: Text)
    requires 0 !in s
    ensures CStr(s) == s
  {
    if s != [] {
      CStrNulFree(s[1..]);
    }
  }

  function ConventionOf(varargs: byte, cc: nat): Convention {
    if varargs != 0 then Ellipsis else if cc != 0 then Explicit(cc) else Default
  }

  /** What the kernel constructors build from an instruction and its operands. */
  function Build(i: Instr, ks: seq<Tinfo>): Tinfo
    requires |ks| == Arity(i)
  {
    match i
    case PushVoid => Plain(VoidShape)
    case PushBool => Plain(BoolShape)
    case PushInt(bytes, signed) => Plain(IntShape(bytes, signed != 0))
    case PushFloat(bytes) => Plain(FloatShape(bytes))
    case PushNamed(s) => Plain(NamedShape(CStr(s)))
    case PushDecl(s) => Plain(DeclShape(CStr(s)))
    case MakePtr => Plain(PtrShape(ks[0]))
    case MakeArray(n) => Plain(ArrayShape(ks[0], n))
    case SetConst => ks[0].(isConst := true)
    case SetVolatile => ks[0].(isVolatile := true)
    case MakeFunction(names, varargs, cc) =>
      var args := seq(|names|, k requires 0 <= k < |names| => Arg(CStr(names[k]), ks[k + 1]));
      Plain(FunctionShape(ks[0], args, ConventionOf(varargs, cc)))
    case PushBitfield(nbytes, width, signed) => Plain(BitfieldShape(nbytes, width, signed == 0))
  }

  function Lower(t: Tree): Tinfo
    requires Shaped(t)
    decreases t, 0
  {
    Build(t.op, LowerAll(t.kids))
  }

  function LowerAll(ts: seq<Tree>): (r: seq<Tinfo>)
    requires forall k :: 0 <= k < |ts| ==> Shaped(ts[k])
    ensures |r| == |ts|
    ensures forall k :: 0 <= k < |ts| ==> r[k] == Lower(ts[k])
    decreases ts, 1
  {
    if ts == [] then [] else [Lower(ts[0])] + LowerAll(ts[1..])
  }

  // ---------------------------------------------------------------- the interpreter

  /** A bounds-checked cursor: an over-read clears `ok`, leaves the cursor and yields zero. */
  class RecipeReader {
    const p: Text
    var pos: nat
    var ok: bool

    ghost predicate Valid() reads this {
      pos <= |p|
    }

    /** What is still unread. */
    ghost function Rest(): Text
      requires Valid()
      reads this
    {
      p[pos..]
    }

    constructor (p: Text)
      ensures Valid() && ok && Rest() == p && this.p == p
    {
      this.p, pos, ok := p, 0, true;
    }

    method HasMore() returns (more: bool)
      requires Valid()
      ensures more == (ok && Rest() != [])
    {
      more := ok && pos < |p|;
    }

    method U8() returns (v: byte)
      requires Valid()
      modifies this
      ensures Valid()
      ensures if |old(Rest())| < 1 then v == 0 && !ok && Rest() == old(Rest())
              else v == old(Rest())[0] && ok == old(ok) && Rest() == old(Rest())[1..]
    {
      if pos + 1 > |p| {
        ok := false;
        return 0;
      }
      v := p[pos];
      pos := pos + 1;
    }

    method ReadLe(n: nat) returns (v: nat)
      requires Valid()
      modifies this
      ensures Valid()
      ensures if |old(Rest())| < n then v == 0 && !ok && Rest() == old(Rest())
              else v == UintLe(old(Rest())[..n]) && ok == old(ok) && Rest() == old(Rest())[n..]
    {
      if pos + n > |p| {
        ok := false;
        return 0;
      }
      v := 0;
      ghost var start := pos;
      var weight: nat := 1;
      for i := 0 to n
        invariant Valid() && ok == old(ok) && pos == start + i && start + n <= |p|
        invariant weight == Pow256(i) && v == UintLe(p[start..start + i])
      {
        UintLeAppend(p[start..start + i], p[pos]);
        assert p[start..start + i] + [p[pos]] == p[start..start + i + 1];
        v := v + weight * p[pos];
        weight := 256 * weight;
        pos := pos + 1;
      }
      assert old(Rest())[..n] == p[start..start + n];
    }

    method Str() returns (s: Text)
      requires Valid()
      modifies this
      ensures Valid() && |Rest()| <= |old(Rest())|
      ensures match TakeStr(old(Rest()))
              case None => !ok
              case Some((text, rest)) => ok == old(ok) && (ok ==> s == text && Rest() == rest)
    {
      var n := ReadLe(4);
      if !ok || pos + n > |p| {
        ok := false;
        return [];
      }
      s := p[pos..pos + n];
      pos := pos + n;
    }

    /** The parameter names; the caller has checked that the buffer can hold that many prefixes. */
    method Names(n: nat) returns (names: seq<Text>)
      requires Valid() && ok
      requires 4 * n <= |Rest()|
      modifies this
      ensures Valid()
      ensures match TakeNames(old(Rest()), n)
              case None => !ok
              case Some((ss, rest)) => ok && names == ss && Rest() == rest
    {
      names := [];
      ghost var start := Rest();
      PrependNothing(TakeNames(start, n));
      var i := 0;
      while i < n && ok
        invariant Valid() && i <= n && |names| <= n
        invariant ok ==> |names| == i
        invariant ok ==> TakeNames(start, n) == Prepend(names, TakeNames(Rest(), n - i))
        invariant !ok ==> TakeNames(start, n) == None
      {
        ghost var before := Rest();
        var s := Str();
        if ok {
          PrependPrepend(names, s, TakeNames(Rest(), n - i - 1));
          names := names + [s];
        }
        i := i + 1;
      }
    }
  }

  ghost function Prepend(names: seq<Text>, r: Option<(seq<Text>, Text)>): Option<(seq<Text>, Text)> {
    match r
    case None => None
    case Some((ss, rest)) => Some((names + ss, rest))
  }

  lemma {:induction false} PrependNothing(r: Option<(seq<Text>, Text)>)
    ensures Prepend([], r) == r
  {
    if r.Some? {
      assert [] + r.value.0 == r.value.0;
    }
  }

  lemma {:induction false} PrependPrepend(names: seq<Text>, s: Text, r: Option<(seq<Text>, Text)>)
    ensures Prepend(names, Prepend([s], r)) == Prepend(names + [s], r)
  {
    if r.Some? {
      assert names + ([s] + r.value.0) == names + [s] + r.value.0;
    }
  }

  /** One opcode with its operands off the reader, refusing what the builder refuses. */
  method Fetch(reader: RecipeReader) returns (r: Option<Instr>)
    requires reader.Valid() && reader.ok && reader.Rest() != []
    modifies reader
    ensures reader.Valid()
    ensures match Decode(old(reader.Rest()))
            case None => r == None
            case Some((i, rest)) =>
              if InRange(i) then r == Some(i) && reader.ok && reader.Rest() == rest else r == None
  {
    hide DecodeFunction, TakeStr, UintLe;
    var op := reader.U8();
    if op == RECIPE_VOID { return Some(PushVoid); }
    if op == RECIPE_BOOL { return Some(PushBool); }
    if op == RECIPE_INT {
      var bytes := reader.U8();
      var signed := reader.U8();
      return if !reader.ok || bytes !in {1, 2, 4, 8, 16} then None else Some(PushInt(bytes, signed));
    }
    if op == RECIPE_FLOAT {
      var bytes := reader.U8();
      return if !reader.ok || bytes !in {4, 8} then None else Some(PushFloat(bytes));
    }
    if op == RECIPE_NAMED {
      var s := reader.Str();
      return if !reader.ok then None else Some(PushNamed(s));
    }
    if op == RECIPE_DECL {
      var s := reader.Str();
      return if !reader.ok then None else Some(PushDecl(s));
    }
    if op == RECIPE_PTR { return Some(MakePtr); }
    if op == RECIPE_ARRAY {
      var n := reader.ReadLe(8);
      return if !reader.ok || n > U32_MAX then None else Some(MakeArray(n));
    }
    if op == RECIPE_CONST { return Some(SetConst); }
    if op == RECIPE_VOLATILE { return Some(SetVolatile); }
    if op == RECIPE_FUNCTION {
      r := FetchFunction(reader);
      return;
    }
    if op == RECIPE_BITFIELD {
      var nbytes := reader.U8();
      var width := reader.U8();
      var signed := reader.U8();
      return if !reader.ok then None else Some(PushBitfield(nbytes, width, signed));
    }
    return None;
  }

  method FetchFunction(reader: RecipeReader) returns (r: Option<Instr>)
    requires reader.Valid() && reader.ok
    modifies reader
    ensures reader.Valid()
    ensures match DecodeFunction(old(reader.Rest()))
            case None => r == None
            case Some((i, rest)) => r == Some(i) && reader.ok && reader.Rest() == rest
  {
    ghost var b := reader.Rest();
    var nparams := reader.ReadLe(4);
    var varargs := reader.U8();
    var cc := reader.ReadLe(2);
    if !reader.ok || nparams > (|reader.p| - reader.pos) / 4 {
      assert |b| >= 7 ==> reader.Rest() == b[7..];
      return None;
    }
    assert b[4..][1..][..2] == b[5..7] && reader.Rest() == b[7..];
    var names := reader.Names(nparams);
    return if !reader.ok then None else Some(MakeFunction(names, varargs, cc));
  }

  /** Pops an instruction's operands and pushes what the kernel builds of them. */
  method Apply(stack: seq<Tinfo>, i: Instr) returns (r: Option<seq<Tinfo>>)
    ensures if Arity(i) <= |stack|
            then r == Some(stack[..|stack| - Arity(i)] + [Build(i, stack[|stack| - Arity(i)..])])
            else r == None
  {
    if |stack| < Arity(i) {
      return None;
    }
    var base := |stack| - Arity(i);
    r := Some(stack[..base] + [Build(i, stack[base..])]);
  }

  /** The facade's interpreter: the type of the one tree the buffer encodes, or a refusal. */
  method BuildRecipe(buf: Text) returns (r: Option<Tinfo>)
    ensures match Exec(buf, [])
            case None => r == None
            case Some(t) => Valid(t) && Shaped(t) && r == Some(Lower(t))
  {
    hide Decode, InRange, Build;
    var reader := new RecipeReader(buf);
    var stack: seq<Tinfo> := [];
    ghost var trees: seq<Tree> := [];
    var more := reader.HasMore();
    while more
      invariant reader.Valid() && reader.ok && more == (reader.Rest() != [])
      invariant AllShaped(trees) && AllValid(trees) && stack == LowerAll(trees)
      invariant Exec(reader.Rest(), trees) == Exec(buf, [])
      decreases |reader.Rest()|
    {
      DecodeSized(reader.Rest());
      var i := Fetch(reader);
      if i == None { return None; }
      var next := Apply(stack, i.value);
      if next == None { return None; }
      LowerPush(trees, i.value);
      PushValid(trees, i.value);
      trees := Push(trees, i.value);
      stack := next.value;
      more := reader.HasMore();
    }
    if |stack| != 1 { return None; }
    return Some(stack[0]);
  }

  ghost predicate AllShaped(ts: seq<Tree>) {
    forall k :: 0 <= k < |ts| ==> Shaped(ts[k])
  }

  lemma {:induction false} DecodeSized(b: Text)
    requires b != []
    ensures Decode(b).Some? ==> WellSized(Decode(b).value.0)
  {
    if Decode(b).Some? {
      DecodeSound(b);
    }
  }

  lemma {:induction false} PushValid(trees: seq<Tree>, i: Instr)
    requires AllValid(trees) && WellSized(i) && InRange(i) && Arity(i) <= |trees|
    ensures AllValid(Push(trees, i))
  {
    hide Arity, WellSized, InRange;
    assert Valid(Node(i, trees[|trees| - Arity(i)..]));
  }

  lemma {:induction false} LowerSlices(ts: seq<Tree>, n: nat)
    requires AllShaped(ts) && n <= |ts|
    ensures AllShaped(ts[..n]) && AllShaped(ts[n..])
    ensures LowerAll(ts)[..n] == LowerAll(ts[..n]) && LowerAll(ts)[n..] == LowerAll(ts[n..])
  {
    hide Shaped, Lower;
  }

  lemma {:induction false} LowerAppendOne(ts: seq<Tree>, t: Tree)
    requires AllShaped(ts) && Shaped(t)
    ensures AllShaped(ts + [t]) && LowerAll(ts + [t]) == LowerAll(ts) + [Lower(t)]
  {
    hide Shaped, Lower;
  }

  lemma {:induction false} NodeShaped(kids: seq<Tree>, i: Instr)
    requires AllShaped(kids) && WellSized(i) && |kids| == Arity(i)
    ensures Shaped(Node(i, kids)) && Lower(Node(i, kids)) == Build(i, LowerAll(kids))
  {
    hide WellSized, Arity, LowerAll, Build;
  }

  lemma {:induction false} LowerPush(trees: seq<Tree>, i: Instr)
    requires AllShaped(trees) && WellSized(i) && Arity(i) <= |trees|
    ensures AllShaped(Push(trees, i))
    ensures LowerAll(Push(trees, i))
         == LowerAll(trees)[..|trees| - Arity(i)] + [Build(i, LowerAll(trees)[|trees| - Arity(i)..])]
  {
    hide AllShaped, Shaped, LowerAll, Lower, Build, WellSized, Arity;
    var n := |trees| - Arity(i);
    LowerSlices(trees, n);
    NodeShaped(trees[n..], i);
    LowerAppendOne(trees[..n], Node(i, trees[n..]));
  }
}
