/**
Types as the walk sees them: a store of named definitions, and finite anonymous structure that refers
to the store by name. A cycle can only pass through a name.

Where the library refuses the details of a type, the walk sees what it falls back to: a struct or union
without members, an enum without constants that is not signed, a signature without parameters that returns
a scalar of unknown kind.
*/
module TypeStore {
  import opened Bytes

  type Name = Text

  datatype Leaf = Unknown | Void | Bool | Int(bytes: byte, signed: bool) | Float(bytes: byte)

  datatype Ty = Named(name: Name) | Of(shape: Shape)

  datatype Shape =
    | Scalar(leaf: Leaf, size: Option<nat>)
    | Opaque(text: Text)
    | Ptr(to: Ty, size: Option<nat>)
    | Array(elem: Ty, len: nat, size: Option<nat>)
    | Func(ret: Ty, params: seq<Ty>, varargs: bool)
    | Udt(body: UdtBody)
    | Enum(consts: EnumBody)

  datatype UdtBody = UdtBody(isUnion: bool, members: seq<Member>, size: Option<nat>)

  /** How the kernel says a value is displayed: a kind of format, a forced sign, leading zeros. */
  datatype RawRepr = RawRepr(format: nat, signed: bool, leadingZeros: bool)

  datatype Member = Member(name: Text, bitOffset: nat, width: nat, repr: RawRepr, ty: Ty)

  datatype EnumBody =
    EnumBody(consts: seq<(Text, nat)>, signed: bool, bitmask: bool, size: Option<byte>, repr: RawRepr)

  /**
  What a name stands for. A typedef either has a next name in its chain that the library resolves, or
  (`AliasOf`) goes straight to a shape, walked as the typedef's own.
  */
  datatype Def =
    | Record(body: UdtBody)
    | Enumeration(consts: EnumBody)
    | Alias(next: Name)
    | AliasOf(shape: Shape)

  type Store = map<Name, Def>

  /** The integer an enum is laid out on: four bytes when the enum reports no size. */
  function Underlying(e: EnumBody): Leaf {
    Int(match e.size case Some(n) => n case None => 4, e.signed)
  }

  function EnumSize(e: EnumBody): Option<nat> {
    match e.size case Some(n) => Some(n) case None => None
  }

  // ---------------------------------------------------------------- display formats

  datatype Format = Binary | Octal | Hexadecimal | Decimal | Char

  datatype ValueRepr = ValueRepr(format: Format, signed: bool, leadingZeros: bool)

  function FormatOf(code: nat): Option<Format> {
    match code
    case 1 => Some(Binary)
    case 2 => Some(Octal)
    case 3 => Some(Hexadecimal)
    case 4 => Some(Decimal)
    case 6 => Some(Char)
    case _ => None
  }

  /** What a display format means: one of five, by the kernel's numbers, with its sign and leading zeros, or none. */
  predicate Shows(r: RawRepr, v: Option<ValueRepr>) {
    && (v == None <==> r.format != 1 && r.format != 2 && r.format != 3 && r.format != 4 && r.format != 6)
    && (v.Some? ==>
          && v.value.signed == r.signed && v.value.leadingZeros == r.leadingZeros
          && (v.value.format == Binary <==> r.format == 1) && (v.value.format == Octal <==> r.format == 2)
          && (v.value.format == Hexadecimal <==> r.format == 3) && (v.value.format == Decimal <==> r.format == 4)
          && (v.value.format == Char <==> r.format == 6))
  }

  /** The display format of a type: nothing for a format outside the numeric ones. */
  function Displayed(r: RawRepr): (v: Option<ValueRepr>)
    ensures Shows(r, v)
  {
    match FormatOf(r.format)
    case Some(f) => Some(ValueRepr(f, r.signed, r.leadingZeros))
    case None => None
  }

  predicate Modeled(format: nat) {
    format == 1 || format == 2 || format == 3 || format == 4 || format == 6
  }

  /** What crosses the bridge: all zero for a format outside the numeric ones. */
  function Sent(r: RawRepr): RawRepr {
    var modeled := Modeled(r.format);
    RawRepr(if modeled then r.format else 0, modeled && r.signed, modeled && r.leadingZeros)
  }

  /** What the builder makes of the three values that crossed. */
  function Received(r: RawRepr): (v: Option<ValueRepr>)
    ensures forall raw :: r == Sent(raw) ==> v == Displayed(raw)
  {
    match FormatOf(r.format)
    case Some(f) => Some(ValueRepr(f, r.signed, r.leadingZeros))
    case None => None
  }

  // ---------------------------------------------------------------- unfolding

  /** A type unfolded to a finite depth. The size of a typedef is not part of it. */
  datatype Tree =
    | Cut
    | Hole
    | TLeaf(leaf: Leaf, size: Option<nat>)
    | TOpaque(text: Text)
    | TPtr(to: Tree, size: Option<nat>)
    | TArray(elem: Tree, len: nat, size: Option<nat>)
    | TFunc(ret: Tree, params: seq<Tree>, varargs: bool)
    | TUdt(name: Option<Name>, isUnion: bool, members: seq<TMember>, size: Option<nat>)
    | TEnum(name: Option<Name>, underlying: Tree, consts: seq<(Text, nat)>, bitmask: bool, repr: Option<ValueRepr>,
            size: Option<nat>)
    | TAlias(alias: Name, target: Tree)

  datatype TMember = TMember(name: Text, bitOffset: nat, width: nat, repr: Option<ValueRepr>, ty: Tree)

  function UnfoldTy(store: Store, t: Ty, k: nat): Tree
    decreases k, 2
  {
    if k == 0 then Cut else
    match t
    case Of(s) => UnfoldShape(store, s, None, k)
    case Named(n) =>
      if n !in store then TOpaque(n) else
      match store[n]
      case Record(body) => UnfoldShape(store, Udt(body), Some(n), k)
      case Enumeration(e) => UnfoldShape(store, Enum(e), Some(n), k)
      case Alias(m) => TAlias(n, UnfoldTy(store, Named(m), k - 1))
      case AliasOf(s) => TAlias(n, UnfoldTy(store, Of(s), k - 1))
  }

  /** One level of structure; `name` is the tag of a struct, union or enum. */
  function UnfoldShape(store: Store, s: Shape, name: Option<Name>, k: nat): Tree
    requires k > 0
    decreases k, 1
  {
    match s
    case Scalar(leaf, size) => TLeaf(leaf, size)
    case Opaque(text) => TOpaque(text)
    case Ptr(to, size) => TPtr(UnfoldTy(store, to, k - 1), size)
    case Array(elem, len, size) => TArray(UnfoldTy(store, elem, k - 1), len, size)
    case Func(ret, params, varargs) =>
      TFunc(UnfoldTy(store, ret, k - 1),
            seq(|params|, i requires 0 <= i < |params| => UnfoldTy(store, params[i], k - 1)), varargs)
    case Udt(body) =>
      TUdt(name, body.isUnion,
           seq(|body.members|, i requires 0 <= i < |body.members| =>
             var m := body.members[i];
             TMember(m.name, m.bitOffset, m.width, Displayed(m.repr), UnfoldTy(store, m.ty, k - 1))),
           body.size)
    case Enum(e) =>
      var under := match e.size
        case Some(n) => Scalar(Int(n, e.signed), Some(n))
        case None => Scalar(Int(4, e.signed), None);
      TEnum(name, UnfoldTy(store, Of(under), k - 1), e.consts, e.bitmask, Displayed(e.repr), under.size)
  }

  // ---------------------------------------------------------------- names a type leads to

  /** The stored names a type mentions outside any name: where a walk of it goes next. */
  function Direct(store: Store, t: Ty): (r: set<Name>)
    ensures r <= store.Keys
    decreases t
  {
    match t
    case Named(n) => if n in store then {n} else {}
    case Of(s) => DirectShape(store, s)
  }

  function DirectShape(store: Store, s: Shape): (r: set<Name>)
    ensures r <= store.Keys
    decreases s
  {
    match s
    case Scalar(_, _) => {}
    case Opaque(_) => {}
    case Ptr(to, _) => Direct(store, to)
    case Array(elem, _, _) => Direct(store, elem)
    case Func(ret, params, _) =>
      Direct(store, ret) + (set i, n | 0 <= i < |params| && n in Direct(store, params[i]) :: n)
    case Udt(body) =>
      set i, n | 0 <= i < |body.members| && n in Direct(store, body.members[i].ty) :: n
    case Enum(_) => {}
  }

  /** The names the first `i` of `ts` mention. */
  ghost function DirectUpTo(store: Store, ts: seq<Ty>, i: nat): (r: set<Name>)
    requires i <= |ts|
  {
    set j, n | 0 <= j < i && n in Direct(store, ts[j]) :: n
  }

  lemma {:induction false} DirectNone(store: Store, ts: seq<Ty>)
    ensures DirectUpTo(store, ts, 0) == {}
  {
  }

  lemma {:induction false} DirectStep(store: Store, ts: seq<Ty>, i: nat)
    requires i < |ts|
    ensures DirectUpTo(store, ts, i) + Direct(store, ts[i]) == DirectUpTo(store, ts, i + 1)
  {
  }

  function MemberTypes(ms: seq<Member>): (r: seq<Ty>)
    ensures |r| == |ms| && forall i :: 0 <= i < |ms| ==> r[i] == ms[i].ty
  {
    seq(|ms|, i requires 0 <= i < |ms| => ms[i].ty)
  }

  lemma {:induction false} DirectFunc(store: Store, s: Shape)
    requires s.Func?
    ensures DirectShape(store, s) == Direct(store, s.ret) + DirectUpTo(store, s.params, |s.params|)
  {
  }

  lemma {:induction false} DirectUdt(store: Store, body: UdtBody)
    ensures DirectShape(store, Udt(body)) == DirectUpTo(store, MemberTypes(body.members), |body.members|)
  {
    var ts := MemberTypes(body.members);
    assert forall i, n :: 0 <= i < |ts| && n in Direct(store, ts[i]) ==> n in Direct(store, body.members[i].ty);
    assert forall i, n :: 0 <= i < |ts| && n in Direct(store, body.members[i].ty) ==> n in Direct(store, ts[i]);
  }

  lemma {:induction false} DirectUpToWithin(store: Store, ts: seq<Ty>, i: nat)
    requires i < |ts|
    ensures Direct(store, ts[i]) <= DirectUpTo(store, ts, |ts|)
  {
  }

  /** A typedef of an unnamed struct, union or enum, with no next name to resolve it by. */
  predicate Degenerate(d: Def) {
    d.AliasOf? && (d.shape.Udt? || d.shape.Enum?)
  }

  /** The names a walk of `n`'s definition goes to. The walk does not enter a degenerate typedef. */
  function Next(store: Store, n: Name): (r: set<Name>)
    requires n in store
    ensures r <= store.Keys
  {
    match store[n]
    case Record(body) => DirectShape(store, Udt(body))
    case Enumeration(_) => {}
    case Alias(m) => Direct(store, Named(m))
    case AliasOf(s) => if Degenerate(store[n]) then {} else DirectShape(store, s)
  }

  ghost predicate LeadsIn(store: Store, a: Name, b: Name, steps: nat)
    decreases steps
  {
    && a in store
    && if steps == 0 then a == b else exists m :: m in Next(store, a) && LeadsIn(store, m, b, steps - 1)
  }

  /** `b` is reached from `a` by following definitions. */
  ghost predicate Leads(store: Store, a: Name, b: Name) {
    exists steps: nat :: LeadsIn(store, a, b, steps)
  }

  /** `n` is reached by a walk of `t`. */
  ghost predicate Reached(store: Store, t: Ty, n: Name) {
    exists m :: m in Direct(store, t) && Leads(store, m, n)
  }

  lemma {:induction false} LeadsSelf(store: Store, a: Name)
    requires a in store
    ensures Leads(store, a, a)
  {
    assert LeadsIn(store, a, a, 0);
  }

  lemma {:induction false} LeadsInThen(store: Store, a: Name, b: Name, c: Name, steps: nat)
    requires LeadsIn(store, a, b, steps) && b in store && c in Next(store, b)
    ensures LeadsIn(store, a, c, steps + 1)
    decreases steps
  {
    if steps == 0 {
      assert LeadsIn(store, c, c, 0);
    } else {
      var m :| m in Next(store, a) && LeadsIn(store, m, b, steps - 1);
      LeadsInThen(store, m, b, c, steps - 1);
    }
  }

  lemma {:induction false} LeadsThen(store: Store, a: Name, b: Name, c: Name)
    requires Leads(store, a, b) && b in store && c in Next(store, b)
    ensures Leads(store, a, c)
  {
    var steps: nat :| LeadsIn(store, a, b, steps);
    LeadsInThen(store, a, b, c, steps);
  }

  lemma {:induction false} LeadsFirst(store: Store, a: Name, b: Name, c: Name)
    requires a in store && b in Next(store, a) && Leads(store, b, c)
    ensures Leads(store, a, c)
  {
    var steps: nat :| LeadsIn(store, b, c, steps);
    assert LeadsIn(store, a, c, steps + 1);
  }

  /** A set of names holding `a` and closed under `Next` holds everything `a` leads to. */
  lemma {:induction false} ClosedHolds(store: Store, names: set<Name>, a: Name, b: Name, steps: nat)
    requires names <= store.Keys && forall n | n in names :: Next(store, n) <= names
    requires a in names && LeadsIn(store, a, b, steps)
    ensures b in names
    decreases steps
  {
    if steps > 0 {
      var m :| m in Next(store, a) && LeadsIn(store, m, b, steps - 1);
      ClosedHolds(store, names, m, b, steps - 1);
    }
  }
}
