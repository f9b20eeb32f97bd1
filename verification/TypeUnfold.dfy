/**
What a finished walk guarantees: the table unfolds to the same type as the input at every depth, every
reached name has been filled exactly once, and when a typedef's recorded size can be trusted.
*/
module TypeUnfold {
  import opened Bytes
  import opened TypeStore
  import opened TypeTable
  import opened TypeWalk

  /** A table entry unfolded to depth `k`. */
  function UnfoldHandle(table: seq<Entry>, h: Handle, k: nat): Tree
    decreases k
  {
    if k == 0 then Cut else
    if h >= |table| then Hole else
    var e := table[h];
    match e.shape
    case EPending => Hole
    case ELeaf(leaf) => TLeaf(leaf, e.size)
    case EOpaque(text) => TOpaque(text)
    case EPtr(to) => TPtr(UnfoldHandle(table, to, k - 1), e.size)
    case EArray(elem, len) => TArray(UnfoldHandle(table, elem, k - 1), len, e.size)
    case EFunc(ret, params, varargs) =>
      TFunc(UnfoldHandle(table, ret, k - 1),
            seq(|params|, i requires 0 <= i < |params| => UnfoldHandle(table, params[i], k - 1)), varargs)
    case EUdt(name, isUnion, ms) =>
      TUdt(name, isUnion,
           seq(|ms|, i requires 0 <= i < |ms| =>
             TMember(ms[i].name, ms[i].bitOffset, ms[i].width, ms[i].repr, UnfoldHandle(table, ms[i].ty, k - 1))),
           e.size)
    case EEnum(name, under, consts, bitmask, repr) =>
      TEnum(name, UnfoldHandle(table, under, k - 1), consts, bitmask, repr, e.size)
    case EAlias(alias, target) => TAlias(alias, UnfoldHandle(table, target, k - 1))
  }

  /** A finished table: consistent, every name settled, nothing in progress. */
  ghost predicate Finished(b: Builder, store: Store) {
    WF(b) && Done(b, store) && b.pending == map[]
  }

  lemma {:induction false} SettledAt(b: Builder, store: Store, n: Name)
    requires Finished(b, store) && n in b.names
    ensures n in store && Ready(b, b.names[n]) && RepDef(b, store, n) && Next(store, n) <= b.names.Keys
  {
    assert Settled(b, store, n);
  }

  /** The handle and the type unfold alike at every depth. */
  ghost predicate Agree(b: Builder, store: Store, h: Handle, t: Ty) {
    forall k: nat :: UnfoldHandle(b.table, h, k) == UnfoldTy(store, t, k)
  }

  /** A set of names that no degenerate typedef is in and no definition leaves. */
  ghost predicate Sound(store: Store, names: set<Name>) {
    names <= store.Keys && forall n :: n in names ==> !Degenerate(store[n]) && Next(store, n) <= names
  }

  lemma {:induction false} SameTy(b: Builder, store: Store, names: set<Name>, h: Handle, t: Ty, k: nat)
    requires Finished(b, store) && Sound(store, names)
    requires Rep(b, store, h, t) && Direct(store, t) <= names
    ensures UnfoldHandle(b.table, h, k) == UnfoldTy(store, t, k)
    decreases k, 3
  {
    hide Finished, Sound, RepShape, RepDef;
    if k > 0 {
      if t.Of? {
        SameShape(b, store, names, h, t.shape, None, k);
      } else if t.name in store {
        SameNamed(b, store, names, t.name, k);
      }
    }
  }

  lemma {:induction false} SameNamed(b: Builder, store: Store, names: set<Name>, n: Name, k: nat)
    requires Finished(b, store) && Sound(store, names) && n in names && n in b.names && k > 0
    ensures UnfoldHandle(b.table, b.names[n], k) == UnfoldTy(store, Named(n), k)
    decreases k, 2
  {
    SettledAt(b, store, n);
    hide Finished, RepShape, UnfoldShape, DirectShape;
    var h := b.names[n];
    match store[n]
    case Record(body) => SameShape(b, store, names, h, Udt(body), Some(n), k);
    case Enumeration(c) => SameShape(b, store, names, h, Enum(c), Some(n), k);
    case _ => SameAlias(b, store, names, n, k);
  }

  lemma {:induction false} SameAlias(b: Builder, store: Store, names: set<Name>, n: Name, k: nat)
    requires Finished(b, store) && Sound(store, names) && n in names && n in b.names && k > 0
    requires store[n].Alias? || store[n].AliasOf?
    ensures UnfoldHandle(b.table, b.names[n], k) == UnfoldTy(store, Named(n), k)
    decreases k, 1
  {
    hide Finished, Direct, DirectShape, Rep, RepShape, UnfoldTy, UnfoldHandle;
    var t := if store[n].Alias? then Named(store[n].next) else Of(store[n].shape);
    AliasStands(b, store, n, t);
    assert Direct(store, t) <= names by { DirectOfTarget(store, n, t); }
    SameTy(b, store, names, b.table[b.names[n]].shape.target, t, k - 1);
    TargetStep(b, store, n, t, k - 1);
  }

  lemma {:induction false} DirectOfTarget(store: Store, n: Name, t: Ty)
    requires n in store && !Degenerate(store[n])
    requires (store[n].Alias? && t == Named(store[n].next)) || (store[n].AliasOf? && t == Of(store[n].shape))
    ensures Direct(store, t) == Next(store, n)
  {
  }

  /** A typedef's entry carries its name and the handle of its target. */
  lemma {:induction false} AliasStands(b: Builder, store: Store, n: Name, t: Ty)
    requires Finished(b, store) && n in b.names && n in store && !Degenerate(store[n])
    requires (store[n].Alias? && t == Named(store[n].next)) || (store[n].AliasOf? && t == Of(store[n].shape))
    ensures b.names[n] < |b.table| && b.table[b.names[n]].shape.EAlias? && b.table[b.names[n]].shape.alias == n
    ensures Rep(b, store, b.table[b.names[n]].shape.target, t)
  {
    hide Next, RepShape;
    SettledAt(b, store, n);
  }

  lemma {:induction false} SameShape(b: Builder, store: Store, names: set<Name>, h: Handle, s: Shape,
                                     name: Option<Name>, k: nat)
    requires Finished(b, store) && Sound(store, names) && k > 0
    requires RepShape(b, store, h, s, name) && DirectShape(store, s) <= names
    ensures UnfoldHandle(b.table, h, k) == UnfoldShape(store, s, name, k)
    decreases k, 1
  {
    hide Finished, Sound;
    var e := b.table[h].shape;
    match s
    case Ptr(to, _) => SameTy(b, store, names, e.to, to, k - 1);
    case Array(elem, _, _) => SameTy(b, store, names, e.elem, elem, k - 1);
    case Func(_, _, _) => SameFunc(b, store, names, h, s, name, k);
    case Udt(_) => SameUdt(b, store, names, h, s, name, k);
    case Enum(c) =>
      var size := if c.size.Some? then Some(c.size.value as nat) else None;
      SameTy(b, store, names, e.underlying,
             Of(Scalar(Int(if c.size.Some? then c.size.value else 4, c.signed), size)), k - 1);
    case _ =>
  }

  lemma {:induction false} SameFunc(b: Builder, store: Store, names: set<Name>, h: Handle, s: Shape,
                                    name: Option<Name>, k: nat)
    requires Finished(b, store) && Sound(store, names) && k > 0 && s.Func?
    requires RepShape(b, store, h, s, name) && DirectShape(store, s) <= names
    ensures UnfoldHandle(b.table, h, k) == UnfoldShape(store, s, name, k)
    decreases k, 0
  {
    hide Finished, Sound;
    var e := b.table[h].shape;
    SameTy(b, store, names, e.ret, s.ret, k - 1);
    forall i | 0 <= i < |s.params|
      ensures UnfoldHandle(b.table, e.params[i], k - 1) == UnfoldTy(store, s.params[i], k - 1)
    {
      SameTy(b, store, names, e.params[i], s.params[i], k - 1);
    }
    hide UnfoldTy, Rep;
    assert UnfoldHandle(b.table, h, k).params == UnfoldShape(store, s, name, k).params;
  }

  lemma {:induction false} SameUdt(b: Builder, store: Store, names: set<Name>, h: Handle, s: Shape,
                                   name: Option<Name>, k: nat)
    requires Finished(b, store) && Sound(store, names) && k > 0 && s.Udt?
    requires RepShape(b, store, h, s, name) && DirectShape(store, s) <= names
    ensures UnfoldHandle(b.table, h, k) == UnfoldShape(store, s, name, k)
    decreases k, 0
  {
    hide Finished, Sound;
    var e, ms := b.table[h].shape, s.body.members;
    forall i | 0 <= i < |ms|
      ensures UnfoldHandle(b.table, e.members[i].ty, k - 1) == UnfoldTy(store, ms[i].ty, k - 1)
    {
      assert RepMember(b, store, e.members[i], ms[i]);
      SameTy(b, store, names, e.members[i].ty, ms[i].ty, k - 1);
    }
    hide UnfoldTy, Rep;
    assert UnfoldHandle(b.table, h, k).members == UnfoldShape(store, s, name, k).members;
  }

  // ---------------------------------------------------------------- agreement passes to what is mentioned

  ghost predicate AgreeShape(b: Builder, store: Store, h: Handle, s: Shape, name: Option<Name>) {
    forall k: nat :: k > 0 ==> UnfoldHandle(b.table, h, k) == UnfoldShape(store, s, name, k)
  }

  lemma {:induction false} AgreeDirect(b: Builder, store: Store, h: Handle, t: Ty, m: Name)
    requires Finished(b, store) && Rep(b, store, h, t) && Agree(b, store, h, t) && m in Direct(store, t)
    ensures m in b.names && Agree(b, store, b.names[m], Named(m))
    decreases t, 1
  {
    if t.Of? {
      assert AgreeShape(b, store, h, t.shape, None) by {
        forall k: nat | k > 0 ensures UnfoldHandle(b.table, h, k) == UnfoldShape(store, t.shape, None, k) {
          assert UnfoldHandle(b.table, h, k) == UnfoldTy(store, t, k);
        }
      }
      AgreeDirectShape(b, store, h, t.shape, None, m);
    }
  }

  lemma {:induction false} AgreeDirectShape(b: Builder, store: Store, h: Handle, s: Shape, name: Option<Name>, m: Name)
    requires Finished(b, store) && RepShape(b, store, h, s, name) && AgreeShape(b, store, h, s, name)
    requires m in DirectShape(store, s)
    ensures m in b.names && Agree(b, store, b.names[m], Named(m))
    decreases s, 0
  {
    var e := b.table[h].shape;
    match s
    case Ptr(to, _) => AgreeChild(b, store, h, s, name, e.to, to); AgreeDirect(b, store, e.to, to, m);
    case Array(elem, _, _) => AgreeChild(b, store, h, s, name, e.elem, elem); AgreeDirect(b, store, e.elem, elem, m);
    case Func(ret, params, _) =>
      if m in Direct(store, ret) {
        AgreeChild(b, store, h, s, name, e.ret, ret);
        AgreeDirect(b, store, e.ret, ret, m);
      } else {
        var i :| 0 <= i < |params| && m in Direct(store, params[i]);
        AgreeParam(b, store, h, s, name, i);
        AgreeDirect(b, store, e.params[i], params[i], m);
      }
    case Udt(body) =>
      var i :| 0 <= i < |body.members| && m in Direct(store, body.members[i].ty);
      AgreeMember(b, store, h, s, name, i);
      assert RepMember(b, store, e.members[i], body.members[i]);
      AgreeDirect(b, store, e.members[i].ty, body.members[i].ty, m);
    case _ =>
  }

  lemma {:induction false} AgreeChild(b: Builder, store: Store, h: Handle, s: Shape, name: Option<Name>,
                                      child: Handle, t: Ty)
    requires RepShape(b, store, h, s, name) && AgreeShape(b, store, h, s, name)
    requires (s.Ptr? && t == s.to && child == b.table[h].shape.to)
          || (s.Array? && t == s.elem && child == b.table[h].shape.elem)
          || (s.Func? && t == s.ret && child == b.table[h].shape.ret)
    ensures Agree(b, store, child, t)
  {
    forall k: nat ensures UnfoldHandle(b.table, child, k) == UnfoldTy(store, t, k) {
      assert UnfoldHandle(b.table, h, k + 1) == UnfoldShape(store, s, name, k + 1);
    }
  }

  lemma {:induction false} AgreeParam(b: Builder, store: Store, h: Handle, s: Shape, name: Option<Name>, i: nat)
    requires s.Func? && i < |s.params| && RepShape(b, store, h, s, name) && AgreeShape(b, store, h, s, name)
    ensures Agree(b, store, b.table[h].shape.params[i], s.params[i])
  {
    var child, t := b.table[h].shape.params[i], s.params[i];
    forall k: nat ensures UnfoldHandle(b.table, child, k) == UnfoldTy(store, t, k) {
      assert UnfoldHandle(b.table, h, k + 1).params[i] == UnfoldShape(store, s, name, k + 1).params[i];
    }
  }

  lemma {:induction false} AgreeMember(b: Builder, store: Store, h: Handle, s: Shape, name: Option<Name>, i: nat)
    requires s.Udt? && i < |s.body.members| && RepShape(b, store, h, s, name) && AgreeShape(b, store, h, s, name)
    ensures Agree(b, store, b.table[h].shape.members[i].ty, s.body.members[i].ty)
  {
    var child, t := b.table[h].shape.members[i].ty, s.body.members[i].ty;
    forall k: nat ensures UnfoldHandle(b.table, child, k) == UnfoldTy(store, t, k) {
      assert UnfoldHandle(b.table, h, k + 1).members[i] == UnfoldShape(store, s, name, k + 1).members[i];
    }
  }

  /** Agreement at a name gives agreement at every name its definition mentions. */
  lemma {:induction false} AgreeNext(b: Builder, store: Store, n: Name, m: Name)
    requires Finished(b, store) && n in b.names && n in store && Agree(b, store, b.names[n], Named(n))
    requires m in Next(store, n)
    ensures m in b.names && Agree(b, store, b.names[m], Named(m))
  {
    var h := b.names[n];
    assert Settled(b, store, n);
    match store[n]
    case Record(body) =>
      assert AgreeShape(b, store, h, Udt(body), Some(n)) by {
        forall k: nat | k > 0 ensures UnfoldHandle(b.table, h, k) == UnfoldShape(store, Udt(body), Some(n), k) {
          assert UnfoldHandle(b.table, h, k) == UnfoldTy(store, Named(n), k);
        }
      }
      AgreeDirectShape(b, store, h, Udt(body), Some(n), m);
    case Enumeration(_) =>
    case Alias(next) =>
      AgreeTarget(b, store, n, Named(next));
      AgreeDirect(b, store, b.table[h].shape.target, Named(next), m);
    case AliasOf(s) => AgreeTarget(b, store, n, Of(s)); AgreeDirect(b, store, b.table[h].shape.target, Of(s), m);
  }

  /** One step of unfolding a typedef, in the table and in the store. */
  lemma {:induction false} TargetStep(b: Builder, store: Store, n: Name, t: Ty, k: nat)
    requires n in b.names && n in store && b.names[n] < |b.table| && b.table[b.names[n]].shape.EAlias?
    requires (store[n].Alias? && t == Named(store[n].next)) || (store[n].AliasOf? && t == Of(store[n].shape))
    ensures UnfoldHandle(b.table, b.names[n], k + 1).TAlias? && UnfoldTy(store, Named(n), k + 1).TAlias?
    ensures UnfoldHandle(b.table, b.names[n], k + 1).target
         == UnfoldHandle(b.table, b.table[b.names[n]].shape.target, k)
    ensures UnfoldTy(store, Named(n), k + 1).target == UnfoldTy(store, t, k)
    ensures UnfoldHandle(b.table, b.names[n], k + 1).alias == b.table[b.names[n]].shape.alias
    ensures UnfoldTy(store, Named(n), k + 1).alias == n
  {
    hide UnfoldShape;
  }

  lemma {:induction false} AliasEntry(b: Builder, store: Store, n: Name)
    requires Finished(b, store) && n in b.names && n in store && (store[n].Alias? || store[n].AliasOf?)
    ensures b.names[n] < |b.table| && b.table[b.names[n]].shape.EAlias?
  {
    hide Next, Rep, RepShape;
    SettledAt(b, store, n);
  }

  lemma {:induction false} AgreeTarget(b: Builder, store: Store, n: Name, t: Ty)
    requires Finished(b, store) && n in b.names && n in store && Agree(b, store, b.names[n], Named(n))
    requires (store[n].Alias? && t == Named(store[n].next)) || (store[n].AliasOf? && t == Of(store[n].shape))
    ensures b.table[b.names[n]].shape.EAlias? && Agree(b, store, b.table[b.names[n]].shape.target, t)
  {
    hide Finished, UnfoldTy, UnfoldHandle;
    AliasEntry(b, store, n);
    var child := b.table[b.names[n]].shape.target;
    forall k: nat ensures UnfoldHandle(b.table, child, k) == UnfoldTy(store, t, k) {
      TargetStep(b, store, n, t, k);
      assert UnfoldHandle(b.table, b.names[n], k + 1) == UnfoldTy(store, Named(n), k + 1);
    }
  }

  lemma {:induction false} AgreeLeads(b: Builder, store: Store, a: Name, n: Name, steps: nat)
    requires Finished(b, store) && a in b.names && Agree(b, store, b.names[a], Named(a))
    requires LeadsIn(store, a, n, steps)
    ensures n in b.names && Agree(b, store, b.names[n], Named(n))
    decreases steps
  {
    hide Agree, Finished, Next;
    if steps > 0 {
      var m :| m in Next(store, a) && LeadsIn(store, m, n, steps - 1);
      AgreeNext(b, store, a, m);
      AgreeLeads(b, store, m, n, steps - 1);
    }
  }

  /** A degenerate typedef's entry is an alias of itself, not of the shape it stands for. */
  lemma {:induction false} DegenerateDisagrees(b: Builder, store: Store, n: Name)
    requires Finished(b, store) && n in b.names && n in store && Degenerate(store[n])
    ensures !Agree(b, store, b.names[n], Named(n))
  {
    var h := b.names[n];
    assert Settled(b, store, n);
    assert UnfoldHandle(b.table, h, 2) == TAlias(n, TAlias(n, Cut));
    assert !UnfoldTy(store, Of(store[n].shape), 1).TAlias?;
    assert UnfoldHandle(b.table, h, 2) != UnfoldTy(store, Named(n), 2);
  }

  /**
  A handle a finished walk returned for `t` unfolds to `t` at every depth exactly when the walk of `t`
  reaches no typedef of an unnamed struct, union or enum.
  */
  lemma {:induction false} UnfoldsFaithfully(b: Builder, store: Store, h: Handle, t: Ty)
    requires Finished(b, store) && Rep(b, store, h, t)
    ensures Agree(b, store, h, t) <==> forall n :: n in store && Reached(store, t, n) ==> !Degenerate(store[n])
  {
    if forall n :: n in store && Reached(store, t, n) ==> !Degenerate(store[n]) {
      var names := set n | n in store && Reached(store, t, n);
      forall n, m | n in names && m in Next(store, n) ensures m in names {
        var first :| first in Direct(store, t) && Leads(store, first, n);
        LeadsThen(store, first, n, m);
      }
      forall n | n in Direct(store, t) ensures n in names {
        LeadsSelf(store, n);
      }
      forall k: nat ensures UnfoldHandle(b.table, h, k) == UnfoldTy(store, t, k) {
        SameTy(b, store, names, h, t, k);
      }
    } else {
      var n :| n in store && Reached(store, t, n) && Degenerate(store[n]);
      if Agree(b, store, h, t) {
        var first :| first in Direct(store, t) && Leads(store, first, n);
        var steps: nat :| LeadsIn(store, first, n, steps);
        AgreeDirect(b, store, h, t, first);
        AgreeLeads(b, store, first, n, steps);
        DegenerateDisagrees(b, store, n);
      }
    }
  }
}
