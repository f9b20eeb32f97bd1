/**
The interning table a type walk fills: structural entries are shared, a named or anonymous aggregate
gets a placeholder first and its body later. `Rep` says what it means for a handle to stand for a type.
*/
module TypeTable {
  import opened Bytes
  import opened TypeStore

  type Handle = nat

  datatype EShape =
    | EPending
    | ELeaf(leaf: Leaf)
    | EOpaque(text: Text)
    | EPtr(to: Handle)
    | EArray(elem: Handle, len: nat)
    | EFunc(ret: Handle, params: seq<Handle>, varargs: bool)
    | EUdt(name: Option<Name>, isUnion: bool, members: seq<EMember>)
    | EEnum(name: Option<Name>, underlying: Handle, consts: seq<(Text, nat)>, bitmask: bool,
            repr: Option<ValueRepr>)
    | EAlias(alias: Name, target: Handle)

  datatype EMember = EMember(name: Text, bitOffset: nat, width: nat, repr: Option<ValueRepr>, ty: Handle)

  datatype Entry = Entry(shape: EShape, size: Option<nat>)

  /** The table, its dedup index, the handle of every name, and the placeholders still without a body. */
  datatype Builder = Builder(
    table: seq<Entry>,
    dedup: map<Entry, Handle>,
    names: map<Name, Handle>,
    pending: map<Handle, Option<Name>>)

  const EMPTY := Builder([], map[], map[], map[])

  function Intern(b: Builder, e: Entry): (Builder, Handle) {
    if e in b.dedup then (b, b.dedup[e])
    else (b.(table := b.table + [e], dedup := b.dedup[e := |b.table|]), |b.table|)
  }

  const PLACEHOLDER := Entry(EPending, None)

  function NamedRef(b: Builder, n: Name): (Builder, Handle) {
    if n in b.names then (b, b.names[n])
    else
      var h := |b.table|;
      (b.(table := b.table + [PLACEHOLDER], names := b.names[n := h], pending := b.pending[h := Some(n)]), h)
  }

  function Anon(b: Builder): (Builder, Handle) {
    var h := |b.table|;
    (b.(table := b.table + [PLACEHOLDER], pending := b.pending[h := None]), h)
  }

  /** The name a placeholder was minted under, dropped from the pending set as its body arrives. */
  function NameOf(b: Builder, h: Handle): Option<Name> {
    if h in b.pending then b.pending[h] else None
  }

  function Fill(b: Builder, h: Handle, e: Entry): Builder
    requires h < |b.table|
  {
    b.(table := b.table[h := e], pending := b.pending - {h})
  }

  // ---------------------------------------------------------------- the invariant of the table

  ghost predicate WF(b: Builder) {
    && (forall e :: e in b.dedup ==>
          b.dedup[e] < |b.table| && b.table[b.dedup[e]] == e && b.dedup[e] !in b.pending)
    && (forall h :: h in b.pending ==> h < |b.table| && b.table[h] == PLACEHOLDER)
    && (forall n :: n in b.names ==>
          b.names[n] < |b.table| && (b.names[n] in b.pending ==> b.pending[b.names[n]] == Some(n)))
    && (forall h :: h in b.pending && b.pending[h].Some? ==>
          b.pending[h].value in b.names && b.names[b.pending[h].value] == h)
  }

  /** Nothing with a body changes, no name moves. */
  ghost predicate Ext(a: Builder, b: Builder) {
    && |a.table| <= |b.table|
    && (forall h :: 0 <= h < |a.table| && h !in a.pending ==> h !in b.pending && b.table[h] == a.table[h])
    && (forall n :: n in a.names ==> n in b.names && b.names[n] == a.names[n])
  }

  lemma {:induction false} InternWF(b: Builder, e: Entry)
    requires WF(b)
    ensures var (b', h) := Intern(b, e);
            && WF(b') && Ext(b, b') && b'.pending == b.pending && b'.names == b.names
            && h < |b'.table| && h !in b'.pending && b'.table[h] == e
  {
  }

  /** An entry is shared: interning it again gives the same handle and adds nothing, whatever came between. */
  lemma {:induction false} InternShares(b: Builder, e: Entry, c: Builder)
    requires forall x :: x in Intern(b, e).0.dedup ==> x in c.dedup && c.dedup[x] == Intern(b, e).0.dedup[x]
    ensures Intern(c, e) == (c, Intern(b, e).1)
  {
    assert e in Intern(b, e).0.dedup;
  }

  /** Nothing forgets what has been shared. */
  lemma {:induction false} KeepsShared(b: Builder, e: Entry, n: Name, h: Handle, x: Entry)
    requires x in b.dedup && h < |b.table|
    ensures var c := Intern(b, e).0; x in c.dedup && c.dedup[x] == b.dedup[x]
    ensures NamedRef(b, n).0.dedup == Anon(b).0.dedup == Fill(b, h, e).dedup == b.dedup
  {
  }

  lemma {:induction false} NamedRefWF(b: Builder, n: Name)
    requires WF(b)
    ensures var (b', h) := NamedRef(b, n);
            WF(b') && Ext(b, b') && n in b'.names && b'.names[n] == h
  {
  }

  lemma {:induction false} AnonWF(b: Builder)
    requires WF(b)
    ensures var (b', h) := Anon(b); WF(b') && Ext(b, b') && b'.pending == b.pending[h := None] && h !in b.pending
  {
  }

  lemma {:induction false} FillWF(b: Builder, h: Handle, e: Entry)
    requires WF(b) && h in b.pending
    ensures WF(Fill(b, h, e)) && Ext(b, Fill(b, h, e))
  {
  }

  lemma {:induction false} ExtTrans(a: Builder, b: Builder, c: Builder)
    requires Ext(a, b) && Ext(b, c)
    ensures Ext(a, c)
  {
  }

  // ---------------------------------------------------------------- a handle stands for a type

  ghost predicate Ready(b: Builder, h: Handle) {
    h < |b.table| && h !in b.pending
  }

  ghost predicate Rep(b: Builder, store: Store, h: Handle, t: Ty)
    decreases t
  {
    match t
    case Of(s) => RepShape(b, store, h, s, None)
    case Named(n) =>
      if n in store then n in b.names && b.names[n] == h
      else Ready(b, h) && b.table[h] == Entry(EOpaque(n), None)
  }

  ghost predicate RepShape(b: Builder, store: Store, h: Handle, s: Shape, name: Option<Name>)
    decreases s
  {
    Ready(b, h) &&
    var e := b.table[h];
    match s
    case Scalar(leaf, size) => e == Entry(ELeaf(leaf), size)
    case Opaque(text) => e == Entry(EOpaque(text), None)
    case Ptr(to, size) => e.shape.EPtr? && e.size == size && Rep(b, store, e.shape.to, to)
    case Array(elem, len, size) =>
      e.shape.EArray? && e.shape.len == len && e.size == size && Rep(b, store, e.shape.elem, elem)
    case Func(ret, params, varargs) =>
      && e.shape.EFunc? && e.size == None && e.shape.varargs == varargs && Rep(b, store, e.shape.ret, ret)
      && |e.shape.params| == |params|
      && forall i :: 0 <= i < |params| ==> Rep(b, store, e.shape.params[i], params[i])
    case Udt(body) =>
      && e.shape.EUdt? && e.size == body.size && e.shape.name == name && e.shape.isUnion == body.isUnion
      && |e.shape.members| == |body.members|
      && forall i :: 0 <= i < |body.members| ==> RepMember(b, store, e.shape.members[i], body.members[i])
    case Enum(c) =>
      && EnumRecorded(b, h, c) && e.shape.name == name
      && e.shape.consts == c.consts && e.shape.bitmask == c.bitmask
      && e.shape.repr == Displayed(c.repr)
  }

  /**
  An enum's entry: the size the enum reports, if any, and an underlying integer of that many bytes, or of four if it
  reports none, signed as the enum is.
  */
  ghost predicate EnumRecorded(b: Builder, h: Handle, c: EnumBody) {
    Ready(b, h) && b.table[h].shape.EEnum? &&
    var (e, under) := (b.table[h], b.table[h].shape.underlying);
    && Ready(b, under) && b.table[under].shape.ELeaf? && b.table[under].shape.leaf.Int?
    && b.table[under].shape.leaf.signed == c.signed && b.table[under].size == e.size
    && (c.size.Some? ==> e.size == Some(c.size.value as nat) && b.table[under].shape.leaf.bytes == c.size.value)
    && (c.size.None? ==> e.size == None && b.table[under].shape.leaf.bytes == 4)
  }

  ghost predicate RepMember(b: Builder, store: Store, e: EMember, m: Member)
    decreases m
  {
    e.name == m.name && e.bitOffset == m.bitOffset && e.width == m.width && e.repr == Displayed(m.repr)
    && Rep(b, store, e.ty, m.ty)
  }

  /**
  The entry under a name stands for its definition; a degenerate typedef is an alias of itself. A
  typedef's size is left to the order of the walk.
  */
  ghost predicate RepDef(b: Builder, store: Store, n: Name)
    requires n in store && n in b.names
  {
    var h := b.names[n];
    match store[n]
    case Record(body) => RepShape(b, store, h, Udt(body), Some(n))
    case Enumeration(c) => RepShape(b, store, h, Enum(c), Some(n))
    case Alias(m) =>
      Ready(b, h) && var e := b.table[h];
      e.shape.EAlias? && e.shape.alias == n && Rep(b, store, e.shape.target, Named(m))
    case AliasOf(s) =>
      Ready(b, h) && var e := b.table[h];
      && e.shape.EAlias? && e.shape.alias == n
      && if Degenerate(store[n]) then e.shape.target == h else RepShape(b, store, e.shape.target, s, None)
  }

  lemma {:induction false} RepMono(a: Builder, b: Builder, store: Store, h: Handle, t: Ty)
    requires Ext(a, b) && Rep(a, store, h, t)
    ensures Rep(b, store, h, t)
    decreases t
  {
    if t.Of? {
      RepShapeMono(a, b, store, h, t.shape, None);
    }
  }

  lemma {:induction false} RepShapeMono(a: Builder, b: Builder, store: Store, h: Handle, s: Shape, name: Option<Name>)
    requires Ext(a, b) && RepShape(a, store, h, s, name)
    ensures RepShape(b, store, h, s, name)
    decreases s
  {
    var e := a.table[h].shape;
    match s
    case Ptr(to, _) => RepMono(a, b, store, e.to, to);
    case Array(elem, _, _) => RepMono(a, b, store, e.elem, elem);
    case Func(ret, params, _) =>
      RepMono(a, b, store, e.ret, ret);
      forall i | 0 <= i < |params| ensures Rep(b, store, e.params[i], params[i]) {
        RepMono(a, b, store, e.params[i], params[i]);
      }
    case Udt(body) =>
      forall i | 0 <= i < |body.members| ensures RepMember(b, store, e.members[i], body.members[i]) {
        RepMono(a, b, store, e.members[i].ty, body.members[i].ty);
      }
    case _ =>
  }

  lemma {:induction false} RepDefMono(a: Builder, b: Builder, store: Store, n: Name)
    requires Ext(a, b) && n in store && n in a.names && RepDef(a, store, n)
    ensures n in b.names && RepDef(b, store, n)
  {
    var h := a.names[n];
    match store[n]
    case Record(body) => RepShapeMono(a, b, store, h, Udt(body), Some(n));
    case Enumeration(c) => RepShapeMono(a, b, store, h, Enum(c), Some(n));
    case Alias(m) => RepMono(a, b, store, a.table[h].shape.target, Named(m));
    case AliasOf(s) =>
      if !Degenerate(store[n]) {
        RepShapeMono(a, b, store, a.table[h].shape.target, s, None);
      }
  }
}
