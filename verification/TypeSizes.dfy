/**
When a typedef has recorded its target's size: exactly when, for every typedef in any sequence of walks.
*/
module TypeSizes {
  import opened Bytes
  import opened TypeStore
  import opened TypeTable
  import opened TypeOrder
  import opened TypeUnfold
  import opened TypeSession

  ghost predicate KeepsSize(b: Builder, n: Name, m: Name) {
    && n in b.names && m in b.names && Ready(b, b.names[n]) && Ready(b, b.names[m])
    && b.table[b.names[n]].size == b.table[b.names[m]].size
  }

  ghost predicate SizeIs(b: Builder, n: Name, size: Option<nat>) {
    n in b.names && b.names[n] < |b.table| && b.table[b.names[n]].size == size
  }

  /** The name an entry carries. */
  function NameIn(s: EShape): Option<Name> {
    match s
    case EUdt(name, _, _) => name
    case EEnum(name, _, _, _, _) => name
    case EAlias(alias, _) => Some(alias)
    case _ => None
  }

  lemma {:induction false} OwnName(b: Builder, store: Store, n: Name)
    requires Finished(b, store) && n in b.names
    ensures b.names[n] < |b.table| && NameIn(b.table[b.names[n]].shape) == Some(n)
  {
    SettledAt(b, store, n);
  }

  lemma {:induction false} WalkedFilled(b: Builder, store: Store, fills: seq<Name>)
    requires Finished(b, store) && FilledAre(b, fills)
    ensures AllFilled(b.names, store, fills)
  {
    hide Finished, FilledAre;
    forall n | n in b.names ensures n in store && n in fills {
      SettledAt(b, store, n);
      InFills(b, fills, n);
    }
    forall m, n | m in b.names && n in b.names && b.names[m] == b.names[n] ensures m == n {
      OwnName(b, store, m);
      OwnName(b, store, n);
    }
  }

  lemma {:induction false} InFills(b: Builder, fills: seq<Name>, n: Name)
    requires FilledAre(b, fills) && n in b.names && Ready(b, b.names[n])
    ensures n in fills
  {
  }

  /** What a typedef's entry holds: its target's size, or none if the target was filled later or is itself. */
  lemma {:induction false} SizeHeld(b: Builder, store: Store, fills: seq<Name>, order: seq<Name>, n: Name)
    requires Walked(b, store, fills, order) && n in b.names && n in store && Typedef(store[n])
    ensures Ready(b, b.names[n])
    ensures var e := b.table[b.names[n]];
            && e.shape.EAlias? && e.shape.target < |b.table|
            && (store[n].Alias? && store[n].next in store ==>
                  store[n].next in b.names && e.shape.target == b.names[store[n].next])
            && e.size == if TooEarly(store, fills, n) || e.shape.target == b.names[n] then None
                         else b.table[e.shape.target].size
  {
    hide Rank, TooEarly;
    SettledAt(b, store, n);
    InFills(b, fills, n);
    assert SizeRead(b, store, fills, n);
    if store[n].Alias? && store[n].next in store {
      SettledAt(b, store, store[n].next);
    } else {
      assert !TooEarly(store, fills, n) by { NotEarly(store, fills, n); }
    }
  }

  lemma {:induction false} NotEarly(store: Store, fills: seq<Name>, n: Name)
    requires n in store && !(store[n].Alias? && store[n].next in store)
    ensures !TooEarly(store, fills, n)
  {
  }

  /**
  For any typedef of another stored name, after any walks: it has its target's size if and only if the
  target has none or the typedef was not entered between the target's entry and its fill. If not, it has none.
  */
  lemma {:induction false} SizeExactly(b: Builder, store: Store, fills: seq<Name>, order: seq<Name>, n: Name, m: Name)
    requires Walked(b, store, fills, order) && n in b.names && n in store
    requires store[n] == Alias(m) && m in store && m != n
    ensures m in b.names && Ready(b, b.names[m]) && Ready(b, b.names[n])
    ensures KeepsSize(b, n, m) <==> b.table[b.names[m]].size == None || !EnteredWithin(b.names, fills, m, n)
    ensures !KeepsSize(b, n, m) ==> b.table[b.names[n]].size == None
  {
    hide Rank, Next, Ordered, FilledAre, Finished;
    SizeHeld(b, store, fills, order, n);
    WalkedFilled(b, store, fills);
    SettledAt(b, store, m);
    NextOfAlias(store, n, m);
    Follows(b, store, fills);
    EarlyIsWithin(b.names, store, fills, n, m);
  }

  lemma {:induction false} NextOfAlias(store: Store, n: Name, m: Name)
    requires n in store && store[n] == Alias(m) && m in store
    ensures m in Next(store, n)
  {
  }

  lemma {:induction false} Follows(b: Builder, store: Store, fills: seq<Name>)
    requires Ordered(b, store, fills)
    ensures Nested(b.names, fills) && Followed(b.names, store, fills) && Led(b.names, store, fills)
  {
  }

  // ---------------------------------------------------------------- as a caller can check it

  /** Definitions lead from `a` to `n` through names that come no earlier than `m` in `order`. */
  ghost predicate PathAfter(store: Store, order: seq<Name>, m: Name, a: Name, n: Name, steps: nat)
    decreases steps
  {
    && a in store && a in order && Rank(order, m) <= Rank(order, a)
    && if steps == 0 then a == n
       else exists q :: q in Next(store, a) && PathAfter(store, order, m, q, n, steps - 1)
  }

  lemma {:induction false} RankAt(order: seq<Name>, x: Name)
    requires x in order
    ensures Rank(order, x) < |order| && order[Rank(order, x)] == x
    decreases |order|
  {
    assert order == [order[0]] + order[1..];
    if order[0] != x {
      RankAt(order[1..], x);
    }
  }

  lemma {:induction false} AscendingRank(names: Names, order: seq<Name>, x: Name, y: Name)
    requires Ascending(names, order) && x in names && y in names
    ensures x in order && y in order && (names[x] <= names[y] <==> Rank(order, x) <= Rank(order, y))
  {
    hide Rank;
    RankAt(order, x);
    RankAt(order, y);
  }

  lemma {:induction false} SamePath(names: Names, store: Store, order: seq<Name>, m: Name, a: Name, n: Name, steps: nat)
    requires Ascending(names, order) && m in names
    ensures LaterIn(names, store, m, a, n, steps) <==> PathAfter(store, order, m, a, n, steps)
    decreases steps
  {
    hide Rank, Next, Ascending;
    InOrder(names, order, a);
    if a in names {
      AscendingRank(names, order, m, a);
      if steps > 0 {
        forall q | a in store && q in Next(store, a)
          ensures LaterIn(names, store, m, q, n, steps - 1) <==> PathAfter(store, order, m, q, n, steps - 1)
        {
          SamePath(names, store, order, m, q, n, steps - 1);
        }
      }
    }
  }

  lemma {:induction false} InOrder(names: Names, order: seq<Name>, a: Name)
    requires Ascending(names, order)
    ensures a in names <==> a in order
  {
  }

  /** Definitions lead from `m` to its typedef `n` through names none of which comes before `m` in `order`. */
  ghost predicate Lost(store: Store, order: seq<Name>, m: Name, n: Name) {
    exists steps: nat :: PathAfter(store, order, m, m, n, steps)
  }

  /** The fill order, told by the order of entry: a target is filled after its typedef exactly at a lost link. */
  lemma {:induction false} EarlyIsLost(b: Builder, store: Store, fills: seq<Name>, order: seq<Name>, n: Name, m: Name)
    requires Walked(b, store, fills, order) && n in b.names && n in store
    requires store[n] == Alias(m) && m in store && m != n
    ensures m in b.names && m in fills && n in fills
    ensures Lost(store, order, m, n) <==> Rank(fills, n) < Rank(fills, m)
    ensures Lost(store, order, m, n) <==> EnteredWithin(b.names, fills, m, n)
    ensures !Lost(store, order, m, n) ==> Rank(fills, m) < Rank(fills, n)
  {
    hide Rank, Next, Ordered, FilledAre, Finished, Ascending, EnteredWithin, LaterIn, PathAfter;
    WalkedFilled(b, store, fills);
    Follows(b, store, fills);
    NextOfAlias(store, n, m);
    EarlyIsWithin(b.names, store, fills, n, m);
    WithinIsPath(b.names, store, fills, m, n);
    Apart(b.names, store, fills, m, n);
    if exists steps: nat :: LaterIn(b.names, store, m, m, n, steps) {
      var steps: nat :| LaterIn(b.names, store, m, m, n, steps);
      SamePath(b.names, store, order, m, m, n, steps);
    }
    if exists steps: nat :: PathAfter(store, order, m, m, n, steps) {
      var steps: nat :| PathAfter(store, order, m, m, n, steps);
      SamePath(b.names, store, order, m, m, n, steps);
    }
  }

  /** The size a shape has of its own. */
  function OwnSize(s: Shape): Option<nat> {
    match s
    case Scalar(_, size) => size
    case Ptr(_, size) => size
    case Array(_, _, size) => size
    case Udt(body) => body.size
    case Enum(c) => EnumSize(c)
    case _ => None
  }

  /**
  The size recorded under a name, over the definitions and the order of entry alone: the next names are
  followed to a definition with a size of its own, and there is none if a link on the way is lost, leads out of
  the store or leads a typedef to itself. `seen` are the typedefs followed so far.
  */
  ghost function SizeFrom(store: Store, order: seq<Name>, n: Name, seen: set<Name>): Option<nat>
    requires n in store
    decreases store.Keys - seen
  {
    match store[n]
    case Record(body) => body.size
    case Enumeration(c) => EnumSize(c)
    case AliasOf(s) => if Degenerate(store[n]) then None else OwnSize(s)
    case Alias(m) =>
      if m !in store || m == n || n in seen || Lost(store, order, m, n) then None
      else
        assert n in store.Keys - seen && n !in store.Keys - (seen + {n});
        SizeFrom(store, order, m, seen + {n})
  }

  ghost function RecordedSize(store: Store, order: seq<Name>, n: Name): Option<nat>
    requires n in store
  {
    SizeFrom(store, order, n, {})
  }

  /** A struct, union or enum, or a typedef of something unnamed, records its own size; a typedef of itself none. */
  lemma {:induction false} OwnRecorded(b: Builder, store: Store, fills: seq<Name>, order: seq<Name>, n: Name,
                                       seen: set<Name>)
    requires Walked(b, store, fills, order) && n in b.names && n in store
    requires store[n].Alias? ==> store[n].next !in store || store[n].next == n
    ensures SizeIs(b, n, SizeFrom(store, order, n, seen))
  {
    hide Ordered, FilledAre, Ascending, Finished, Lost, TooEarly;
    SettledAt(b, store, n);
    if Typedef(store[n]) {
      SizeHeld(b, store, fills, order, n);
      assert !TooEarly(store, fills, n) by {
        if !(store[n].Alias? && store[n].next == n) {
          NotEarly(store, fills, n);
        } else {
          NotBeforeItself(store, fills, n);
        }
      }
    }
  }

  lemma {:induction false} NotBeforeItself(store: Store, fills: seq<Name>, n: Name)
    requires n in store && store[n] == Alias(n)
    ensures !TooEarly(store, fills, n)
  {
  }

  /** Everything followed so far was filled after `n`, so following never comes round. */
  lemma {:induction false} SizeFollows(b: Builder, store: Store, fills: seq<Name>, order: seq<Name>, n: Name,
                                       seen: set<Name>)
    requires Walked(b, store, fills, order) && n in b.names && n in store
    requires forall x :: x in seen ==> Rank(fills, n) < Rank(fills, x)
    ensures SizeIs(b, n, SizeFrom(store, order, n, seen))
    decreases Rank(fills, n)
  {
    hide Rank, Walked, Lost, TooEarly, SizeIs, Next;
    if store[n].Alias? && store[n].next in store && store[n].next != n {
      var m := store[n].next;
      EarlyIsLost(b, store, fills, order, n, m);
      LinkHolds(b, store, fills, order, n, m);
      if !Lost(store, order, m, n) {
        SizeFollows(b, store, fills, order, m, seen + {n});
        SizePasses(b, n, m, SizeFrom(store, order, m, seen + {n}));
      }
    } else {
      OwnRecorded(b, store, fills, order, n, seen);
    }
  }

  lemma {:induction false} SizePasses(b: Builder, n: Name, m: Name, size: Option<nat>)
    requires KeepsSize(b, n, m) && SizeIs(b, m, size)
    ensures SizeIs(b, n, size)
  {
  }

  /** One link: nothing is recorded if it is lost, the target's size if not. */
  lemma {:induction false} LinkHolds(b: Builder, store: Store, fills: seq<Name>, order: seq<Name>, n: Name, m: Name)
    requires Walked(b, store, fills, order) && n in b.names && n in store
    requires store[n] == Alias(m) && m in store && m != n
    ensures m in b.names && Ready(b, b.names[m]) && Ready(b, b.names[n])
    ensures if Lost(store, order, m, n) then SizeIs(b, n, None) else KeepsSize(b, n, m)
  {
    hide Rank, Next, Ordered, FilledAre, Ascending, Lost, Finished, EnteredWithin;
    EarlyIsLost(b, store, fills, order, n, m);
    SizeExactly(b, store, fills, order, n, m);
    SizeHeld(b, store, fills, order, n);
  }

  /**
  The size every entry under a name records, after any walks and over the input alone: with `order` the
  depth-first order of entry, its own size, or for a typedef that of the definition its next names lead to, and
  none past the first lost link. A typedef of itself records none.
  */
  lemma {:induction false} SizeRecorded(b: Builder, store: Store, fills: seq<Name>, order: seq<Name>, n: Name)
    requires Walked(b, store, fills, order) && n in b.names
    ensures n in store && SizeIs(b, n, RecordedSize(store, order, n))
    ensures store[n] == Alias(n) ==> SizeIs(b, n, None)
  {
    hide Rank, Lost, SizeIs, Ordered, FilledAre, Ascending;
    SettledAt(b, store, n);
    SizeFollows(b, store, fills, order, n, {});
  }

  /**
  So a typedef of another stored name fails to adopt its target's size if and only if the target records one
  and some chain of definitions leads from the target to the typedef through names none of which comes before
  the target; it then records none.
  */
  lemma {:induction false} SizeByOrder(b: Builder, store: Store, fills: seq<Name>, order: seq<Name>, n: Name, m: Name)
    requires Walked(b, store, fills, order) && n in b.names && n in store
    requires store[n] == Alias(m) && m in store && m != n
    ensures m in b.names && Ready(b, b.names[m]) && Ready(b, b.names[n])
    ensures KeepsSize(b, n, m) <==> RecordedSize(store, order, m) == None || !Lost(store, order, m, n)
    ensures !KeepsSize(b, n, m) ==> SizeIs(b, n, None)
  {
    hide Rank, Next, Ordered, FilledAre, Ascending, Finished, EnteredWithin, Lost, RecordedSize;
    EarlyIsLost(b, store, fills, order, n, m);
    SizeExactly(b, store, fills, order, n, m);
    SizeRecorded(b, store, fills, order, m);
  }

  /** Past a lost link a typedef agrees with its target: both have no size. */
  lemma {:induction false} LostForGood(b: Builder, store: Store, fills: seq<Name>, order: seq<Name>, n: Name, m: Name,
                                       s: Name)
    requires Walked(b, store, fills, order) && n in b.names && n in store && store[n] == Alias(m) && m != n
    requires m in store && store[m] == Alias(s) && s in store && s != m && m in b.names && !KeepsSize(b, m, s)
    ensures SizeIs(b, n, None) && KeepsSize(b, n, m)
  {
    hide Rank, Ordered, FilledAre, Ascending, Finished, Lost, EnteredWithin;
    SizeByOrder(b, store, fills, order, m, s);
    SizeByOrder(b, store, fills, order, n, m);
    SizeRecorded(b, store, fills, order, m);
  }

  /** Any other typedef has its target's size; one whose target is itself, none. */
  lemma {:induction false} OtherTypedefs(b: Builder, store: Store, fills: seq<Name>, order: seq<Name>, n: Name)
    requires Walked(b, store, fills, order) && n in b.names && n in store && Typedef(store[n])
    requires store[n].Alias? ==> store[n].next !in store || store[n].next == n
    ensures var e := b.table[b.names[n]];
            && e.shape.EAlias? && e.shape.target < |b.table| && e.size == b.table[e.shape.target].size
            && (e.shape.target == b.names[n] <==> store[n] == Alias(n) || Degenerate(store[n]))
            && (e.shape.target == b.names[n] ==> e.size == None)
  {
    SizeHeld(b, store, fills, order, n);
    SettledAt(b, store, n);
  }

  /** A typedef whose target does not lead back to it has recorded its target's size. */
  lemma {:induction false} SizeTrusted(b: Builder, store: Store, fills: seq<Name>, order: seq<Name>, n: Name)
    requires Walked(b, store, fills, order) && n in b.names && n in store && store[n].Alias?
    requires !Leads(store, store[n].next, n)
    ensures var e := b.table[b.names[n]];
            e.shape.EAlias? && Ready(b, e.shape.target) && e.size == b.table[e.shape.target].size
  {
    hide Rank, Next, Ordered, FilledAre, Ascending, LeadsIn, PathAfter, TooEarly, EnteredWithin;
    var m := store[n].next;
    SettledAt(b, store, n);
    if m !in store {
      OtherTypedefs(b, store, fills, order, n);
    } else {
      LeadsSelf(store, n);
      LinkHolds(b, store, fills, order, n, m);
      SizeHeld(b, store, fills, order, n);
      forall steps: nat ensures PathAfter(store, order, m, m, n, steps) ==> LeadsIn(store, m, n, steps) {
        if PathAfter(store, order, m, m, n, steps) {
          PathLeads(store, order, m, m, n, steps);
        }
      }
    }
  }

  lemma {:induction false} PathLeads(store: Store, order: seq<Name>, m: Name, a: Name, n: Name, steps: nat)
    requires PathAfter(store, order, m, a, n, steps)
    ensures LeadsIn(store, a, n, steps)
    decreases steps
  {
    hide Rank, Next;
    if steps > 0 {
      var q :| q in Next(store, a) && PathAfter(store, order, m, q, n, steps - 1);
      PathLeads(store, order, m, q, n, steps - 1);
    }
  }

  // ---------------------------------------------------------------- whichever comes first

  /** If every name met comes after `m`, whatever `m` leads to is walked inside it. */
  lemma {:induction false} LeadsPath(b: Builder, store: Store, order: seq<Name>, m: Name, a: Name, n: Name, steps: nat)
    requires Finished(b, store) && Ascending(b.names, order) && Rank(order, m) == 0
    requires a in b.names && LeadsIn(store, a, n, steps)
    ensures n in b.names && PathAfter(store, order, m, a, n, steps)
    decreases steps
  {
    hide Finished, Rank, Next, Ascending;
    InOrder(b.names, order, a);
    if steps > 0 {
      SettledAt(b, store, a);
      var q :| q in Next(store, a) && LeadsIn(store, q, n, steps - 1);
      LeadsPath(b, store, order, m, q, n, steps - 1);
    }
  }

  lemma {:induction false} LostBy(store: Store, order: seq<Name>, m: Name, n: Name, steps: nat)
    requires PathAfter(store, order, m, m, n, steps)
    ensures Lost(store, order, m, n)
  {
  }

  lemma {:induction false} NoneKept(b: Builder, n: Name, m: Name)
    requires SizeIs(b, n, None) && m in b.names && Ready(b, b.names[m]) && Ready(b, b.names[n])
    ensures KeepsSize(b, n, m) <==> b.table[b.names[m]].size == None
  {
  }

  lemma {:induction false} FirstOfAll(store: Store, n: Name)
    requires n in store
    ensures n in VisitEach(store, [Named(n)], 1) && Rank(VisitEach(store, [Named(n)], 1), n) == 0
  {
    var order := VisitEach(store, [Named(n)], 1);
    assert VisitEach(store, [Named(n)], 0) == [];
    assert order == Visit(store, Named(n), []);
    assert [] + [n] == [n] <= order;
    assert order[0] == n;
  }

  /**
  When the target does lead back, the order decides. Entering the target first loses the size of every
  typedef of it the walk meets, unless it has none to lose.
  */
  method WalkTargetFirst(store: Store, m: Name) returns (b: Builder, h: Handle)
    requires m in store
    ensures Finished(b, store) && m in b.names && b.names[m] == h && h < |b.table|
    ensures forall n :: n in b.names && n in store && store[n] == Alias(m) && n != m ==>
              SizeIs(b, n, None) && (KeepsSize(b, n, m) <==> b.table[h].size == None)
  {
    hide Rank, Next, Ordered, Finished, Ascending, FilledAre, KeepsSize, Lost, PathAfter, Visit;
    var ts := [Named(m)];
    ghost var fills;
    var hs;
    b, hs, fills := WalkEach(store, ts);
    ghost var order := VisitEach(store, ts, 1);
    h := hs[0];
    assert Rep(b, store, h, ts[0]);
    FirstOfAll(store, m);
    SettledAt(b, store, m);
    forall n | n in b.names && n in store && store[n] == Alias(m) && n != m
      ensures SizeIs(b, n, None) && (KeepsSize(b, n, m) <==> b.table[h].size == None)
    {
      var i :| 0 <= i < 1 && Reached(store, ts[i], n);
      var steps: nat :| LeadsIn(store, m, n, steps);
      LeadsPath(b, store, order, m, m, n, steps);
      LostBy(store, order, m, n, steps);
      LinkHolds(b, store, fills, order, n, m);
      NoneKept(b, n, m);
    }
  }

  /** Entering the typedef first keeps it. */
  method WalkTypedefFirst(store: Store, n: Name) returns (b: Builder, h: Handle)
    requires n in store && store[n].Alias? && store[n].next in store && store[n].next != n
    ensures Finished(b, store) && n in b.names && b.names[n] == h && KeepsSize(b, n, store[n].next)
  {
    hide Next, Ordered, Finished, Ascending, FilledAre, KeepsSize, Visit;
    var ts := [Named(n)];
    ghost var fills;
    var hs;
    b, hs, fills := WalkEach(store, ts);
    ghost var order := VisitEach(store, ts, 1);
    h := hs[0];
    assert Rep(b, store, h, ts[0]);
    FirstOfAll(store, n);
    ghost var m := store[n].next;
    SizeExactly(b, store, fills, order, n, m);
    AscendingRank(b.names, order, n, m);
  }

  // ---------------------------------------------------------------- a linked-list node and its typedef

  const PLAIN := RawRepr(0, false, false)

  function PointerTo(n: Name): Ty {
    Of(Ptr(Named(n), Some(8)))
  }

  function PointersTo(ns: seq<Name>): UdtBody {
    UdtBody(false, seq(|ns|, i requires 0 <= i < |ns| => Member([], 64 * i, 0, PLAIN, PointerTo(ns[i]))),
            Some(8 * |ns|))
  }

  /** A node that points to its own typedef, the everyday shape on which the two orders differ. */
  function NodeStore(node: Name, alias: Name): Store {
    map[node := Record(PointersTo([alias])), alias := Alias(node)]
  }

  lemma {:induction false} NodeLeads(store: Store, node: Name, alias: Name)
    requires node in store && alias in store && store[node] == Record(PointersTo([alias]))
    ensures alias in Next(store, node) && LeadsIn(store, node, alias, 1)
  {
    var m := store[node].body.members[0];
    assert Direct(store, m.ty) == DirectShape(store, m.ty.shape) == Direct(store, Named(alias)) == {alias};
    assert LeadsIn(store, alias, alias, 0);
  }

  method NodeFirst(node: Name, alias: Name) returns (size: Option<nat>)
    requires node != alias
    ensures size == None
  {
    hide Finished, KeepsSize, Next;
    var store := NodeStore(node, alias);
    var b, h := WalkTargetFirst(store, node);
    NodeLeads(store, node, alias);
    SettledAt(b, store, node);
    size := b.table[b.names[alias]].size;
  }

  method TypedefFirst(node: Name, alias: Name) returns (size: Option<nat>)
    requires node != alias
    ensures size == Some(8)
  {
    hide Finished, Next;
    var store := NodeStore(node, alias);
    var b, h := WalkTypedefFirst(store, alias);
    SettledAt(b, store, node);
    size := b.table[b.names[alias]].size;
  }

  /** Walking the node first loses the typedef's size, walking the typedef first keeps it. */
  method OrderMatters(node: Name, alias: Name) returns (nodeFirst: Option<nat>, typedefFirst: Option<nat>)
    requires node != alias
    ensures nodeFirst == None && typedefFirst == Some(8)
  {
    nodeFirst := NodeFirst(node, alias);
    typedefFirst := TypedefFirst(node, alias);
  }

  /** The node and its typedef, and a third type with a pointer to each. */
  function PairStore(pair: Name, node: Name, alias: Name, members: seq<Name>): Store {
    NodeStore(node, alias)[pair := Record(PointersTo(members))]
  }

  lemma {:induction false} VisitPointer(store: Store, n: Name, seen: seq<Name>)
    ensures Visit(store, PointerTo(n), seen) == Visit(store, Named(n), seen)
  {
  }

  lemma {:induction false} VisitPointers(store: Store, ns: seq<Name>, i: nat, seen: seq<Name>)
    requires i < |ns|
    ensures VisitMembers(store, PointersTo(ns), 0, seen) == seen
    ensures VisitMembers(store, PointersTo(ns), i + 1, seen)
         == Visit(store, Named(ns[i]), VisitMembers(store, PointersTo(ns), i, seen))
  {
    hide Visit;
    VisitPointer(store, ns[i], VisitMembers(store, PointersTo(ns), i, seen));
  }

  /** Entering the node or the typedef enters the other one right after. */
  lemma {:induction false} VisitNode(store: Store, node: Name, alias: Name, seen: seq<Name>)
    requires node in store && alias in store && node != alias && node !in seen && alias !in seen
    requires store[node] == Record(PointersTo([alias])) && store[alias] == Alias(node)
    ensures Visit(store, Named(node), seen) == seen + [node, alias]
    ensures Visit(store, Named(alias), seen) == seen + [alias, node]
  {
    hide VisitMembers;
    VisitPointers(store, [alias], 0, seen + [node]);
    VisitPointers(store, [alias], 0, seen + [alias] + [node]);
    assert seen + [node] + [alias] == seen + [node, alias];
    assert seen + [alias] + [node] == seen + [alias, node];
  }

  lemma {:induction false} PairOrder(store: Store, pair: Name, node: Name, alias: Name, members: seq<Name>)
    requires node != alias && pair != node && pair != alias && store == PairStore(pair, node, alias, members)
    requires members == [node, alias] || members == [alias, node]
    ensures VisitEach(store, [Named(pair)], 1) == [pair] + members
  {
    hide VisitMembers, Visit;
    VisitPointers(store, members, 0, [pair]);
    VisitPointers(store, members, 1, [pair]);
    VisitNode(store, node, alias, [pair]);
    VisitPair(store, pair, members);
    var order := [pair] + members;
    assert VisitEach(store, [Named(pair)], 0) == [];
    SeenAlready(store, members[1], order);
  }

  lemma {:induction false} VisitPair(store: Store, pair: Name, members: seq<Name>)
    requires pair in store && store[pair] == Record(PointersTo(members))
    ensures Visit(store, Named(pair), []) == VisitMembers(store, PointersTo(members), |members|, [pair])
  {
    hide VisitMembers;
    assert [] + [pair] == [pair];
  }

  lemma {:induction false} SeenAlready(store: Store, n: Name, seen: seq<Name>)
    requires n in seen
    ensures Visit(store, Named(n), seen) == seen
  {
  }

  /** The places of the pair's members in the order of entry. */
  lemma {:induction false} PairRanks(pair: Name, x: Name, y: Name, order: seq<Name>)
    requires pair != x && pair != y && x != y && order == [pair] + [x, y]
    ensures Rank(order, x) == 1 && Rank(order, y) == 2 && x in order && y in order
  {
    assert order[1..] == [x, y] && order[1..][1..] == [y];
  }

  lemma {:induction false} PathEnds(store: Store, order: seq<Name>, m: Name, a: Name, n: Name, steps: nat)
    requires PathAfter(store, order, m, a, n, steps)
    ensures Rank(order, m) <= Rank(order, n)
    decreases steps
  {
    hide Rank, Next;
    if steps > 0 {
      var q :| q in Next(store, a) && PathAfter(store, order, m, q, n, steps - 1);
      PathEnds(store, order, m, q, n, steps - 1);
    }
  }

  lemma {:induction false} PairPath(store: Store, pair: Name, node: Name, alias: Name, members: seq<Name>,
                                    order: seq<Name>)
    requires node != alias && pair != node && pair != alias && store == PairStore(pair, node, alias, members)
    requires members == [node, alias] || members == [alias, node]
    requires order == [pair] + members
    ensures Lost(store, order, node, alias) <==> members == [node, alias]
  {
    hide Next, Rank;
    PairRanks(pair, members[0], members[1], order);
    if members == [node, alias] {
      NodeLeads(store, node, alias);
      assert PathAfter(store, order, node, alias, alias, 0);
      assert PathAfter(store, order, node, node, alias, 1);
    } else {
      forall steps: nat ensures !PathAfter(store, order, node, node, alias, steps) {
        if PathAfter(store, order, node, node, alias, steps) {
          PathEnds(store, order, node, node, alias, steps);
        }
      }
    }
  }

  method PairSize(pair: Name, node: Name, alias: Name, members: seq<Name>) returns (size: Option<nat>)
    requires node != alias && pair != node && pair != alias
    requires members == [node, alias] || members == [alias, node]
    ensures size == if members == [node, alias] then None else Some(8)
  {
    hide Ordered, Ascending, FilledAre, Finished, Next, Visit, Lost, Rank;
    var store := PairStore(pair, node, alias, members);
    var b, hs;
    ghost var fills;
    b, hs, fills := WalkEach(store, [Named(pair)]);
    ghost var order := VisitEach(store, [Named(pair)], 1);
    PairOrder(store, pair, node, alias, members);
    InOrder(b.names, order, alias);
    LinkHolds(b, store, fills, order, alias, node);
    PairPath(store, pair, node, alias, members, order);
    SettledAt(b, store, node);
    size := b.table[b.names[alias]].size;
  }

  /** Swapping two members of a third type decides whether the typedef's size is there. */
  method MemberOrderMatters(pair: Name, node: Name, alias: Name)
    returns (nodeFirst: Option<nat>, typedefFirst: Option<nat>)
    requires node != alias && pair != node && pair != alias
    ensures nodeFirst == None && typedefFirst == Some(8)
  {
    assert [node, alias] != [alias, node] by { assert [node, alias][0] != [alias, node][0]; }
    nodeFirst := PairSize(pair, node, alias, [node, alias]);
    typedefFirst := PairSize(pair, node, alias, [alias, node]);
  }
}
