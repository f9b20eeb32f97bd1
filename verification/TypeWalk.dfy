/**
The depth-first walk of a possibly self-referential type into an interning table. A named type gets a
placeholder before its body is entered, and the set of names already seen stops the recursion.
*/
module TypeWalk {
  import opened Bytes
  import opened TypeStore
  import opened TypeTable

  // ---------------------------------------------------------------- what one call of the walk does

  /**
  Some name without a body, entered no earlier than any other such, mentions all of `to`: the innermost
  frame of the walk's call stack.
  */
  ghost predicate Stacked(b: Builder, store: Store, to: set<Name>) {
    forall h :: h in b.pending && b.pending[h].Some? ==> exists k :: h <= k && Mentions(b, store, k, to)
  }

  ghost predicate Mentions(b: Builder, store: Store, k: Handle, to: set<Name>) {
    k in b.pending && b.pending[k].Some? && b.pending[k].value in store && to <= Next(store, b.pending[k].value)
  }

  ghost predicate LedFrom(store: Store, from: set<Name>, n: Name) {
    exists m :: m in from && Leads(store, m, n)
  }

  /**
  A call that walks something mentioning the names `from` takes table `a` to table `b`: it only adds,
  leaves exactly the placeholders it found, and enters only names it is led to.
  */
  ghost predicate After(store: Store, from: set<Name>, a: Builder, b: Builder) {
    && Ext(a, b) && b.pending == a.pending
    && from <= b.names.Keys
    && (forall n :: n in b.names && n !in a.names ==> LedFrom(store, from, n))
  }

  /** Every name that has a body stands for its definition, and the names it mentions are in the table. */
  ghost predicate Done(b: Builder, store: Store) {
    forall n :: n in b.names ==>
      n in store && (Ready(b, b.names[n]) ==> Settled(b, store, n))
  }

  ghost predicate Settled(b: Builder, store: Store, n: Name)
    requires n in store && n in b.names
  {
    RepDef(b, store, n) && Next(store, n) <= b.names.Keys
  }

  lemma {:induction false} SettledMono(a: Builder, b: Builder, store: Store, n: Name)
    requires Ext(a, b) && n in store && n in a.names && Ready(a, a.names[n]) && Settled(a, store, n)
    ensures n in b.names && Ready(b, b.names[n]) && Settled(b, store, n)
  {
    RepDefMono(a, b, store, n);
  }

  lemma {:induction false} AfterTrans(store: Store, f: set<Name>, g: set<Name>, a: Builder, b: Builder, c: Builder)
    requires After(store, f, a, b) && After(store, g, b, c)
    ensures After(store, f + g, a, c)
  {
    forall n | n in c.names && n !in a.names ensures LedFrom(store, f + g, n) {
      if n in b.names {
        var m :| m in f && Leads(store, m, n);
        assert m in f + g;
      } else {
        var m :| m in g && Leads(store, m, n);
        assert m in f + g;
      }
    }
  }

  lemma {:induction false} AfterSame(store: Store, from: set<Name>, b: Builder)
    requires from <= b.names.Keys
    ensures After(store, from, b, b)
  {
  }

  lemma {:induction false} AfterNothing(store: Store, a: Builder, b: Builder)
    requires Ext(a, b) && b.pending == a.pending && b.names == a.names
    ensures After(store, {}, a, b)
  {
  }

  /** Entering a name makes it the innermost one. */
  lemma {:induction false} StackedBelow(store: Store, n: Name, a: Builder, b: Builder, h: Handle)
    requires n in store && WF(a) && h == |a.table| && b.pending == a.pending[h := Some(n)]
    ensures Stacked(b, store, Next(store, n))
  {
    assert Mentions(b, store, h, Next(store, n));
  }

  /** The builder after a first sight of `n`: one more placeholder, under its name. */
  ghost predicate Entered(n: Name, a: Builder, b: Builder, h: Handle) {
    n !in a.names && (b, h) == NamedRef(a, n)
  }

  lemma {:induction false} EnteredWF(n: Name, a: Builder, b: Builder, h: Handle)
    requires WF(a) && Entered(n, a, b, h)
    ensures WF(b) && Ext(a, b) && b.names == a.names[n := h]
    ensures h !in a.pending && b.pending == a.pending[h := Some(n)]
  {
    NamedRefWF(a, n);
  }

  /** Minting a placeholder, working, and filling it leaves the placeholders there were before. */
  lemma {:induction false} FillBack(a: Builder, b: Builder, c: Builder, h: Handle, e: Entry)
    requires WF(c) && Ext(a, b) && Ext(b, c)
    requires h !in a.pending && b.pending.Keys == a.pending.Keys + {h} && c.pending == b.pending
    requires forall k :: k in a.pending ==> b.pending[k] == a.pending[k]
    ensures h in c.pending && Ext(a, Fill(c, h, e)) && Ext(c, Fill(c, h, e))
    ensures Fill(c, h, e).pending == a.pending
  {
    FillWF(c, h, e);
    ExtTrans(a, b, c);
    ExtTrans(a, c, Fill(c, h, e));
  }

  /** Leaving a name whose body `e` has been filled in. */
  lemma {:induction false} LeaveNamed(store: Store, n: Name, a: Builder, b: Builder, c: Builder, h: Handle, e: Entry)
    requires n in store && WF(a) && WF(b) && WF(c) && Entered(n, a, b, h)
    requires After(store, Next(store, n), b, c)
    ensures h in c.pending && c.pending[h] == Some(n) && n in c.names && c.names[n] == h
    ensures After(store, {n}, a, Fill(c, h, e))
  {
    EnteredWF(n, a, b, h);
    assert b.names[n] == h && h < |b.table|;
    assert n in c.names && c.names[n] == h && h < |c.table|;
    FillBack(a, b, c, h, e);
    var d := Fill(c, h, e);
    hide Ext, WF, Entered;
    forall m | m in d.names && m !in a.names ensures LedFrom(store, {n}, m) {
      assert n in {n};
      LeadsSelf(store, n);
      if m != n {
        var p :| p in Next(store, n) && Leads(store, p, m);
        LeadsFirst(store, n, p, m);
      }
    }
  }

  /** Filling a placeholder that carries no name changes nothing a name's entry says. */
  lemma {:induction false} LeaveAnon(store: Store, from: set<Name>, a: Builder, b: Builder, c: Builder, h: Handle,
                                     e: Entry)
    requires WF(a) && WF(b) && WF(c) && (b, h) == Anon(a)
    requires After(store, from, b, c)
    ensures h in c.pending && After(store, from, a, Fill(c, h, e))
  {
    AnonWF(a);
    FillBack(a, b, c, h, e);
  }

  /** Filling one name's body leaves every other settled name settled. */
  lemma {:induction false} FillDone(store: Store, b: Builder, h: Handle, e: Entry, n: Name)
    requires WF(b) && Done(b, store) && h in b.pending && b.pending[h] == Some(n) && n in store
    requires n in b.names && b.names[n] == h
    requires WF(Fill(b, h, e)) && Ext(b, Fill(b, h, e)) && Settled(Fill(b, h, e), store, n)
    ensures Done(Fill(b, h, e), store)
  {
    var d := Fill(b, h, e);
    forall m | m in d.names && m != n ensures m in store && (Ready(d, d.names[m]) ==> Settled(d, store, m)) {
      if Ready(d, d.names[m]) {
        SettledMono(b, d, store, m);
      }
    }
  }

  /** Interning a structural entry is a step that enters no name. */
  lemma {:induction false} InternStep(store: Store, b: Builder, e: Entry)
    requires WF(b) && Done(b, store)
    ensures var (b', h) := Intern(b, e);
            && WF(b') && Done(b', store) && After(store, {}, b, b')
            && b'.names == b.names && Ready(b', h) && b'.table[h] == e
  {
    InternWF(b, e);
    ExtDone(store, b, Intern(b, e).0);
  }

  lemma {:induction false} AnonStep(store: Store, b: Builder)
    requires WF(b) && Done(b, store)
    ensures var (b', h) := Anon(b);
            && WF(b') && Done(b', store) && Ext(b, b') && b'.names == b.names
            && h !in b.pending && b'.pending == b.pending[h := None]
  {
    AnonWF(b);
    ExtDone(store, b, Anon(b).0);
  }

  lemma {:induction false} FillAnonStep(store: Store, b: Builder, h: Handle, e: Entry)
    requires WF(b) && Done(b, store) && h in b.pending && b.pending[h] == None
    ensures WF(Fill(b, h, e)) && Done(Fill(b, h, e), store) && Ext(b, Fill(b, h, e))
  {
    FillWF(b, h, e);
    ExtDone(store, b, Fill(b, h, e));
  }

  lemma {:induction false} ExtDone(store: Store, a: Builder, b: Builder)
    requires WF(a) && WF(b) && Done(a, store) && Ext(a, b) && b.names == a.names
    requires forall n :: n in a.names && Ready(b, b.names[n]) ==> Ready(a, a.names[n])
    ensures Done(b, store)
  {
    forall m | m in b.names && Ready(b, b.names[m]) ensures Settled(b, store, m) {
      SettledMono(a, b, store, m);
    }
  }
}
