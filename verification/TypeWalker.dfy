/** The walker: recursive methods over one table and one set of names already seen. */
module TypeWalker {
  import opened Bytes
  import opened TypeStore
  import opened TypeTable
  import opened TypeWalk
  import opened TypeOrder

  class Walker {
    const store: Store
    var vis: Builder
    var defined: set<Name>
    /** The names whose bodies have been filled, in order. */
    ghost var fills: seq<Name>
    /** The names that have been entered, in order. */
    ghost var entered: seq<Name>

    ghost predicate Valid() reads this {
      && WF(vis) && Done(vis, store) && defined == vis.names.Keys
      && FilledAre(vis, fills) && Ordered(vis, store, fills) && Ascending(vis.names, entered)
    }

    constructor (store: Store)
      ensures Valid() && this.store == store && vis == EMPTY && defined == {} && fills == entered == []
    {
      this.store, vis, defined, fills, entered := store, EMPTY, {}, [], [];
      OrderedEmpty(store);
    }

    /** A structural entry, shared with an identical one. */
    method Interned(e: Entry) returns (h: Handle)
      requires Valid()
      modifies this`vis
      ensures Valid() && (vis, h) == Intern(old(vis), e) && vis.names == old(vis).names
      ensures After(store, {}, old(vis), vis) && Ready(vis, h) && vis.table[h] == e
    {
      InternStep(store, vis, e);
      FilledSame(vis, Intern(vis, e).0, fills);
      OrderedSame(vis, Intern(vis, e).0, store, fills);
      var (b, i) := Intern(vis, e);
      vis := b;
      h := i;
    }

    /** An interned entry over children already walked from `from`. */
    method InternedOver(e: Entry, ghost from: set<Name>, ghost start: Builder) returns (h: Handle)
      requires Valid() && WF(start) && After(store, from, start, vis)
      modifies this`vis
      ensures Valid() && After(store, from, start, vis) && Ext(old(vis), vis) && vis.names == old(vis).names
      ensures Ready(vis, h) && vis.table[h] == e
    {
      hide Ordered, Done, FilledAre, LedFrom, Ext;
      ghost var b := vis;
      h := Interned(e);
      AfterTrans(store, from, {}, start, b, vis);
      assert from + {} == from;
    }

    /** The handle a type's body will go to, minted before the body is walked. */
    method Placeholder(name: Option<Name>) returns (h: Handle, first: bool)
      requires Valid()
      requires name.Some? ==> name.value in store && (name.value in vis.names || Stacked(vis, store, {name.value}))
      modifies this`vis, this`defined, this`entered
      ensures Valid()
      ensures match name
              case None => first && (vis, h) == Anon(old(vis)) && vis.names == old(vis).names
              case Some(n) =>
                if n in old(vis).names then !first && vis == old(vis) && h == vis.names[n]
                else first && Entered(n, old(vis), vis, h)
      ensures name.Some? ==> (name.value in old(entered) <==> name.value in old(vis).names)
      ensures entered == if name.Some? && name.value !in old(entered) then old(entered) + [name.value]
                         else old(entered)
    {
      hide WF, Done, Ordered, FilledAre, Ascending, Ext, Stacked;
      SameNames(vis.names, entered);
      match name
      case None =>
        AnonStep(store, vis);
        FilledSame(vis, Anon(vis).0, fills);
        OrderedSame(vis, Anon(vis).0, store, fills);
        var (b, i) := Anon(vis);
        vis, h, first := b, i, true;
      case Some(n) =>
        if n !in vis.names {
          EnterStep(store, vis, n, fills, entered);
          entered := entered + [n];
        }
        var (b, i) := NamedRef(vis, n);
        vis, h, first := b, i, n !in defined;
        defined := defined + {n};
    }

    /** The body of a name entered at `a` and walked since `b`. */
    method FillNamed(n: Name, h: Handle, e: Entry, ghost a: Builder, ghost b: Builder)
      requires Valid() && n in store && WF(a) && Entered(n, a, b, h) && h < |vis.table|
      requires After(store, Next(store, n), b, vis) && ReadsSize(vis, store, n, e)
      requires n in vis.names && Settled(Fill(vis, h, e), store, n)
      modifies this`vis, this`fills
      ensures Valid() && After(store, {n}, a, vis) && vis == Fill(old(vis), h, e)
      ensures n in vis.names && vis.names[n] == h
    {
      hide Ordered, Done, FilledAre, RepDef, LedFrom, Next, Entered, ReadsSize, Innermost;
      EnteredWF(n, a, b, h);
      LeaveNamed(store, n, a, b, vis, h, e);
      FillWF(vis, h, e);
      FillDone(store, vis, h, e, n);
      InnermostNow(store, n, a, b, vis, h);
      OrderedFill(vis, store, fills, n, h, e);
      FilledMore(vis, fills, n, h, e);
      vis := Fill(vis, h, e);
      fills := fills + [n];
    }

    method FillAnon(h: Handle, e: Entry, ghost from: set<Name>, ghost a: Builder, ghost b: Builder)
      requires Valid() && WF(a) && (b, h) == Anon(a) && After(store, from, b, vis) && h < |vis.table|
      modifies this`vis
      ensures Valid() && After(store, from, a, vis) && vis == Fill(old(vis), h, e) && Ext(old(vis), vis)
    {
      AnonWF(a);
      LeaveAnon(store, from, a, b, vis, h, e);
      FillAnonStep(store, vis, h, e);
      FilledSame(vis, Fill(vis, h, e), fills);
      OrderedSame(vis, Fill(vis, h, e), store, fills);
      vis := Fill(vis, h, e);
    }

    /** Walks any type: a typedef is one step in its chain, everything else is structure. */
    method Ty(t: Ty) returns (h: Handle)
      requires Valid() && Stacked(vis, store, Direct(store, t))
      modifies this
      ensures Valid() && After(store, Direct(store, t), old(vis), vis) && Rep(vis, store, h, t)
      ensures entered == Visit(store, t, old(entered))
      decreases store.Keys - defined, t, 4
    {
      match t
      case Of(s) => h := Resolved(s);
      case Named(n) =>
        if n !in store {
          h := Interned(Entry(EOpaque(n), None));
        } else {
          match store[n]
          case Record(body) => h := TyUdt(Some(n), body, t);
          case Enumeration(c) => h := TyEnum(Some(n), c, t);
          case Alias(_) => h := TyTypedef(n);
          case AliasOf(_) => h := TyTypedef(n);
        }
    }

    /** Walks a shape by its kind. */
    method Resolved(s: Shape) returns (h: Handle)
      requires Valid() && Stacked(vis, store, DirectShape(store, s))
      modifies this
      ensures Valid() && After(store, DirectShape(store, s), old(vis), vis)
      ensures RepShape(vis, store, h, s, None)
      ensures entered == VisitShape(store, s, old(entered))
      decreases store.Keys - defined, Of(s), 3
    {
      hide WF, Done, Ordered, FilledAre, Ascending, Stacked, LedFrom;
      match s
      case Scalar(leaf, size) => h := Interned(Entry(ELeaf(leaf), size));
      case Opaque(text) => h := Interned(Entry(EOpaque(text), None));
      case Ptr(to, size) =>
        var inner := Ty(to);
        ghost var b := vis;
        h := InternedOver(Entry(EPtr(inner), size), Direct(store, to), old(vis));
        RepMono(b, vis, store, inner, to);
      case Array(elem, len, size) =>
        var inner := Ty(elem);
        ghost var b := vis;
        h := InternedOver(Entry(EArray(inner, len), size), Direct(store, elem), old(vis));
        RepMono(b, vis, store, inner, elem);
      case Func(_, _, _) => h := TyFunc(s);
      case Udt(body) => h := TyUdt(None, body, Of(s));
      case Enum(c) => h := TyEnum(None, c, Of(s));
    }

    /** One more type of a list, walked after those that led from `start` to here. */
    method Also(t: Ty, ghost from: set<Name>, ghost start: Builder, ghost all: set<Name>) returns (h: Handle)
      requires Valid() && WF(start) && After(store, from, start, vis)
      requires Stacked(start, store, all) && Direct(store, t) <= all
      modifies this
      ensures Valid() && After(store, from + Direct(store, t), start, vis) && Ext(old(vis), vis)
      ensures Rep(vis, store, h, t) && old(defined) <= defined
      ensures entered == Visit(store, t, old(entered))
      decreases store.Keys - defined, t, 5
    {
      ghost var b := vis;
      StackedSub(start, vis, store, all, Direct(store, t));
      h := Ty(t);
      AfterTrans(store, from, Direct(store, t), start, b, vis);
    }

    method TyFunc(s: Shape) returns (h: Handle)
      requires s.Func? && Valid() && Stacked(vis, store, DirectShape(store, s))
      modifies this
      ensures Valid() && After(store, DirectShape(store, s), old(vis), vis)
      ensures RepShape(vis, store, h, s, None)
      ensures entered == VisitShape(store, s, old(entered))
      decreases store.Keys - defined, Of(s), 2
    {
      hide WF, Done, Ext, After, FilledAre, Ordered, Ascending, Stacked, Direct, DirectShape, Rep, DirectUpTo;
      hide Visit, VisitShape, VisitParams, VisitMembers;
      ghost var start, all := vis, DirectShape(store, s);
      DirectFunc(store, s);
      DirectNone(store, s.params);
      AfterNothing(store, vis, vis);
      VisitFunc(store, s, entered);
      var ret := Also(s.ret, {}, start, all);
      ghost var from := {} + Direct(store, s.ret);
      var params: seq<Handle> := [];
      for i := 0 to |s.params|
        invariant Valid() && After(store, from, start, vis) && old(defined) <= defined
        invariant from == Direct(store, s.ret) + DirectUpTo(store, s.params, i)
        invariant entered == VisitParams(store, s, i, old(entered))
        invariant Reps(vis, store, [ret] + params, [s.ret] + s.params[..i])
      {
        ghost var b := vis;
        DirectUpToWithin(store, s.params, i);
        NextParam(store, s, i, old(entered));
        var p := Also(s.params[i], from, start, all);
        DirectStep(store, s.params, i);
        from := from + Direct(store, s.params[i]);
        RepsMore(b, vis, store, [ret] + params, [s.ret] + s.params[..i], p, s.params[i]);
        params := params + [p];
        assert [s.ret] + s.params[..i] + [s.params[i]] == [s.ret] + s.params[..i + 1];
        assert [ret] + (params[..|params| - 1] + [p]) == [ret] + params[..|params| - 1] + [p];
      }
      assert s.params[..|s.params|] == s.params;
      ghost var b := vis;
      h := InternedOver(Entry(EFunc(ret, params, s.varargs), None), from, start);
      RepFunc(b, vis, store, h, s, ret, params);
    }

    /** A struct's or union's members in order. */
    method Members(body: UdtBody) returns (ms: seq<EMember>)
      requires Valid() && Stacked(vis, store, DirectShape(store, Udt(body)))
      modifies this
      ensures Valid() && After(store, DirectShape(store, Udt(body)), old(vis), vis)
      ensures RepMembers(vis, store, ms, body.members)
      ensures entered == VisitMembers(store, body, |body.members|, old(entered))
      decreases store.Keys - defined, Of(Udt(body)), 1
    {
      hide WF, Done, Ext, After, FilledAre, Ordered, Ascending, Stacked, Direct, DirectShape, Rep, DirectUpTo;
      hide Visit, VisitShape, VisitParams, VisitMembers;
      ghost var start, all, ts := vis, DirectShape(store, Udt(body)), MemberTypes(body.members);
      DirectUdt(store, body);
      DirectNone(store, ts);
      NoMembers(store, body, entered);
      AfterNothing(store, vis, vis);
      ghost var from := DirectUpTo(store, ts, 0);
      ms := [];
      for i := 0 to |body.members|
        invariant Valid() && After(store, from, start, vis) && old(defined) <= defined
        invariant from == DirectUpTo(store, ts, i)
        invariant entered == VisitMembers(store, body, i, old(entered))
        invariant RepMembers(vis, store, ms, body.members[..i])
      {
        ghost var b := vis;
        var m := body.members[i];
        DirectUpToWithin(store, ts, i);
        NextMember(store, body, i, old(entered));
        var h := Also(m.ty, from, start, all);
        DirectStep(store, ts, i);
        RepMembersMono(b, vis, store, ms, body.members[..i]);
        from := from + Direct(store, m.ty);
        ms := ms + [EMember(m.name, m.bitOffset, m.width, Received(Sent(m.repr)), h)];
        assert body.members[..i + 1] == body.members[..i] + [m];
      }
      assert body.members[..|body.members|] == body.members;
    }

    /** A struct or union: its placeholder, then on first sight its members and its body. */
    method TyUdt(name: Option<Name>, body: UdtBody, ghost t: Ty) returns (h: Handle)
      requires name == None ==> t == Of(Udt(body))
      requires name.Some? ==> t == Named(name.value) && name.value in store && store[name.value] == Record(body)
      requires Valid() && Stacked(vis, store, Direct(store, t))
      modifies this
      ensures Valid() && After(store, Direct(store, t), old(vis), vis) && Rep(vis, store, h, t)
      ensures entered == Visit(store, t, old(entered))
      decreases store.Keys - defined, t, 2
    {
      hide Ext, Done, FilledAre, LedFrom, Settled, RepMembers, Ordered, Ascending, Stacked, Next;
      ghost var a := vis;
      var first;
      h, first := Placeholder(name);
      if first {
        ghost var b := vis;
        if name.Some? {
          EnteredWF(name.value, a, b, h);
          StackedBelow(store, name.value, a, b, h);
          NextUdt(store, name.value, body);
        } else {
          AnonWF(a);
          StackedAnon(store, a, b, h, Direct(store, t));
        }
        var ms := Members(body);
        var e := Entry(EUdt(NameOf(vis, h), body.isUnion, ms), body.size);
        UdtFilled(store, vis, h, ms, body, name);
        if name.Some? {
          FillNamed(name.value, h, e, a, b);
        } else {
          FillAnon(h, e, Direct(store, t), a, b);
        }
      } else {
        AfterSame(store, {name.value}, vis);
      }
    }

    /** An enum: its placeholder, then on first sight its underlying integer and its body. */
    method TyEnum(name: Option<Name>, c: EnumBody, ghost t: Ty) returns (h: Handle)
      requires name == None ==> t == Of(Enum(c))
      requires name.Some? ==> t == Named(name.value) && name.value in store && store[name.value] == Enumeration(c)
      requires Valid() && Stacked(vis, store, Direct(store, t))
      modifies this
      ensures Valid() && After(store, Direct(store, t), old(vis), vis) && Rep(vis, store, h, t)
      ensures entered == Visit(store, t, old(entered))
    {
      hide Ext, Done, FilledAre, LedFrom, Settled, Ordered, Ascending, Stacked;
      ghost var a := vis;
      var first;
      h, first := Placeholder(name);
      if first {
        ghost var b := vis;
        var under := Interned(Entry(ELeaf(Underlying(c)), EnumSize(c)));
        var e := Entry(EEnum(NameOf(vis, h), under, c.consts, c.bitmask, Received(Sent(c.repr))), EnumSize(c));
        if name.Some? {
          EnteredWF(name.value, a, b, h);
          EnumFilled(store, vis, h, under, c, name);
          FillNamed(name.value, h, e, a, b);
        } else {
          AnonWF(a);
          EnumFilled(store, vis, h, under, c, name);
          FillAnon(h, e, {}, a, b);
        }
      } else {
        AfterSame(store, {name.value}, vis);
      }
    }

    /** A typedef: its placeholder, then on first sight the next type in its chain and its target's size. */
    method TyTypedef(n: Name) returns (h: Handle)
      requires n in store && (store[n].Alias? || store[n].AliasOf?)
      requires Valid() && Stacked(vis, store, {n})
      modifies this
      ensures Valid() && After(store, {n}, old(vis), vis) && Rep(vis, store, h, Named(n))
      ensures entered == Visit(store, Named(n), old(entered))
      decreases store.Keys - defined, Named(n), 2
    {
      hide Ext, Done, FilledAre, LedFrom, Settled, Ordered, Ascending, Stacked, ReadsSize;
      ghost var a := vis;
      var first;
      h, first := Placeholder(Some(n));
      if first {
        ghost var b := vis;
        EnteredWF(n, a, b, h);
        StackedBelow(store, n, a, b, h);
        var under;
        match store[n] {
          case Alias(m) => under := Ty(Named(m));
          case AliasOf(s) =>
            if Degenerate(store[n]) {
              AfterNothing(store, vis, vis);
              var again;
              under, again := Placeholder(Some(n));
            } else {
              under := Resolved(s);
            }
        }
        var e := Entry(EAlias(n, under), vis.table[under].size);
        AliasSettled(store, n, a, b, vis, h, under);
        FillNamed(n, h, e, a, b);
      } else {
        AfterSame(store, {n}, vis);
      }
    }
  }

  /** At the end of a name's own walk it is the innermost name left. */
  lemma {:induction false} InnermostNow(store: Store, n: Name, a: Builder, b: Builder, c: Builder, h: Handle)
    requires WF(a) && Entered(n, a, b, h) && c.pending == b.pending && Ext(b, c)
    ensures Innermost(c, n, h)
  {
  }

  lemma {:induction false} MentionsKept(a: Builder, b: Builder, store: Store, k: Handle, all: set<Name>,
                                        some: set<Name>)
    requires Mentions(a, store, k, all) && some <= all
    requires k in a.pending && a.pending[k].Some? ==> k in b.pending && b.pending[k] == a.pending[k]
    ensures Mentions(b, store, k, some)
  {
    hide Next;
  }

  lemma {:induction false} StackedSub(a: Builder, b: Builder, store: Store, all: set<Name>, some: set<Name>)
    requires Stacked(a, store, all) && b.pending == a.pending && some <= all
    ensures Stacked(b, store, some)
  {
    hide Next, Mentions;
    forall h | h in b.pending && b.pending[h].Some? ensures exists k :: h <= k && Mentions(b, store, k, some) {
      var k :| h <= k && Mentions(a, store, k, all);
      MentionsKept(a, b, store, k, all, some);
    }
  }

  lemma {:induction false} StackedAnon(store: Store, a: Builder, b: Builder, h: Handle, to: set<Name>)
    requires Stacked(a, store, to) && h !in a.pending && b.pending == a.pending[h := None]
    ensures Stacked(b, store, to)
  {
    hide Next, Mentions;
    forall i | i in b.pending && b.pending[i].Some? ensures exists k :: i <= k && Mentions(b, store, k, to) {
      assert i in a.pending && a.pending[i].Some?;
      var k :| i <= k && Mentions(a, store, k, to);
      MentionsKept(a, b, store, k, to, to);
    }
  }

  lemma {:induction false} NextUdt(store: Store, n: Name, body: UdtBody)
    requires n in store && store[n] == Record(body)
    ensures Next(store, n) == DirectShape(store, Udt(body))
  {
  }

  ghost predicate RepMembers(b: Builder, store: Store, es: seq<EMember>, ms: seq<Member>) {
    |es| == |ms| && forall i :: 0 <= i < |ms| ==> RepMember(b, store, es[i], ms[i])
  }

  lemma {:induction false} RepMembersMono(a: Builder, b: Builder, store: Store, es: seq<EMember>, ms: seq<Member>)
    requires Ext(a, b) && RepMembers(a, store, es, ms)
    ensures RepMembers(b, store, es, ms)
  {
    forall i | 0 <= i < |ms| ensures RepMember(b, store, es[i], ms[i]) {
      RepMono(a, b, store, es[i].ty, ms[i].ty);
    }
  }

  ghost predicate Reps(b: Builder, store: Store, hs: seq<Handle>, ts: seq<Ty>) {
    |hs| == |ts| && forall i :: 0 <= i < |ts| ==> Rep(b, store, hs[i], ts[i])
  }

  lemma {:induction false} RepsMono(a: Builder, b: Builder, store: Store, hs: seq<Handle>, ts: seq<Ty>)
    requires Ext(a, b) && Reps(a, store, hs, ts)
    ensures Reps(b, store, hs, ts)
  {
    forall i | 0 <= i < |ts| ensures Rep(b, store, hs[i], ts[i]) {
      RepMono(a, b, store, hs[i], ts[i]);
    }
  }

  lemma {:induction false} RepsMore(a: Builder, b: Builder, store: Store, hs: seq<Handle>, ts: seq<Ty>, h: Handle,
                                    t: Ty)
    requires Ext(a, b) && Reps(a, store, hs, ts) && Rep(b, store, h, t)
    ensures Reps(b, store, hs + [h], ts + [t])
  {
    RepsMono(a, b, store, hs, ts);
  }

  lemma {:induction false} RepFunc(a: Builder, b: Builder, store: Store, h: Handle, s: Shape, ret: Handle,
                                   params: seq<Handle>)
    requires s.Func? && Ext(a, b) && Reps(a, store, [ret] + params, [s.ret] + s.params)
    requires Ready(b, h) && b.table[h] == Entry(EFunc(ret, params, s.varargs), None)
    ensures RepShape(b, store, h, s, None)
  {
    RepsMono(a, b, store, [ret] + params, [s.ret] + s.params);
    assert ([ret] + params)[0] == ret && ([s.ret] + s.params)[0] == s.ret;
    forall i | 0 <= i < |params| ensures Rep(b, store, params[i], s.params[i]) {
      assert ([ret] + params)[i + 1] == params[i] && ([s.ret] + s.params)[i + 1] == s.params[i];
    }
  }

  lemma {:induction false} SameNames(names: Names, entered: seq<Name>)
    requires Ascending(names, entered)
    ensures forall n :: n in entered <==> n in names
  {
  }

  /** The first sight of a name, and what it keeps. */
  lemma {:induction false} EnterStep(store: Store, b: Builder, n: Name, fills: seq<Name>, entered: seq<Name>)
    requires WF(b) && Done(b, store) && FilledAre(b, fills) && Ordered(b, store, fills) && Ascending(b.names, entered)
    requires n in store && n !in b.names && Stacked(b, store, {n})
    ensures var d := NamedRef(b, n).0;
            WF(d) && Done(d, store) && FilledAre(d, fills) && Ordered(d, store, fills)
            && Ascending(d.names, entered + [n])
    ensures NamedRef(b, n).0.names.Keys == b.names.Keys + {n}
  {
    hide Ordered, Ascending, Stacked, Done, FilledAre;
    NamedRefWF(b, n);
    NamedRefDone(store, b, n, fills);
    OrderedEnter(b, NamedRef(b, n).0, store, fills, n);
    AscendingMore(b, entered, n);
  }

  lemma {:induction false} NamedRefDone(store: Store, b: Builder, n: Name, fills: seq<Name>)
    requires WF(b) && Done(b, store) && FilledAre(b, fills) && n in store
    ensures Done(NamedRef(b, n).0, store) && FilledAre(NamedRef(b, n).0, fills)
  {
    NamedRefWF(b, n);
    var d := NamedRef(b, n).0;
    forall m | m in d.names && Ready(d, d.names[m]) ensures Settled(d, store, m) && m in fills {
      assert n !in b.names ==> m != n;
      SettledMono(b, d, store, m);
    }
  }

  /** A body over members that stand for a struct's or union's members stands for it. */
  lemma {:induction false} UdtFilled(store: Store, b: Builder, h: Handle, ms: seq<EMember>, body: UdtBody,
                                     name: Option<Name>)
    requires WF(b) && h in b.pending && b.pending[h] == name && RepMembers(b, store, ms, body.members)
    ensures h < |b.table|
    ensures var d := Fill(b, h, Entry(EUdt(NameOf(b, h), body.isUnion, ms), body.size));
            && RepShape(d, store, h, Udt(body), name)
            && (name.Some? && name.value in store && store[name.value] == Record(body)
                && Next(store, name.value) <= b.names.Keys ==>
                name.value in d.names && Settled(d, store, name.value))
  {
    var d := Fill(b, h, Entry(EUdt(NameOf(b, h), body.isUnion, ms), body.size));
    FillWF(b, h, d.table[h]);
    RepMembersMono(b, d, store, ms, body.members);
  }

  /** An enum's body over its underlying integer stands for the enum. */
  lemma {:induction false} EnumFilled(store: Store, b: Builder, h: Handle, under: Handle, c: EnumBody,
                                      name: Option<Name>)
    requires WF(b) && h in b.pending && b.pending[h] == name
    requires Ready(b, under) && b.table[under] == Entry(ELeaf(Underlying(c)), EnumSize(c))
    ensures h < |b.table|
    ensures var e := EEnum(NameOf(b, h), under, c.consts, c.bitmask, Received(Sent(c.repr)));
            var d := Fill(b, h, Entry(e, EnumSize(c)));
            && RepShape(d, store, h, Enum(c), name)
            && (name.Some? && name.value in store && store[name.value] == Enumeration(c) ==>
                name.value in d.names && Settled(d, store, name.value))
  {
  }

  /** Filling a typedef with the size its target has at that moment settles it. */
  lemma {:induction false} AliasSettled(store: Store, n: Name, a: Builder, b: Builder, c: Builder, h: Handle,
                                        under: Handle)
    requires n in store && (store[n].Alias? || store[n].AliasOf?)
    requires WF(a) && WF(c) && Entered(n, a, b, h)
    requires After(store, Next(store, n), b, c) && under < |c.table| && h < |c.table|
    requires store[n].Alias? ==> Rep(c, store, under, Named(store[n].next))
    requires Degenerate(store[n]) ==> under == h
    requires store[n].AliasOf? && !Degenerate(store[n]) ==> RepShape(c, store, under, store[n].shape, None)
    ensures n in c.names && c.names[n] == h
    ensures Settled(Fill(c, h, Entry(EAlias(n, under), c.table[under].size)), store, n)
    ensures ReadsSize(c, store, n, Entry(EAlias(n, under), c.table[under].size))
  {
    EnteredWF(n, a, b, h);
    assert c.names[n] == h;
    var e := Entry(EAlias(n, under), c.table[under].size);
    var d := Fill(c, h, e);
    FillWF(c, h, e);
    match store[n]
    case Alias(m) =>
      RepMono(c, d, store, under, Named(m));
    case AliasOf(s) =>
      if !Degenerate(store[n]) {
        RepShapeMono(c, d, store, under, s, None);
      }
  }
}
