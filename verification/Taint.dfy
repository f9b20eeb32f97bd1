/** The taint pass over an extracted tree: which locals it marks, when it stops, and what it counts. */
module Taint {
  import opened Bytes
  import opened Ctree

  const SOURCES: seq<string> := ["recv", "read", "fgets", "getenv", "scanf", "gets"]
  const SINKS: seq<string> :=
    ["memcpy", "memmove", "strcpy", "strcat", "sprintf", "system", "malloc", "alloca", "exec"]

  predicate OccursAt(name: Text, word: string, i: nat) {
    i + |word| <= |name| && forall j :: 0 <= j < |word| ==> name[i + j] == word[j] as int
  }

  predicate Matches(name: Text, words: seq<string>) {
    exists w, i | 0 <= w < |words| && 0 <= i <= |name| :: OccursAt(name, words[w], i)
  }

  /** The name a call goes to, if its callee is a named global or a helper. */
  function CalleeName(es: Exprs, h: nat): Option<Text>
    requires h < |es| && ChildFirst(es)
  {
    if !es[h].head.Call? || es[h].kids == [] then None
    else
      match es[es[h].kids[0]].head
      case Obj(_, name) => if name == [] then None else Some(name)
      case Helper(name) => Some(name)
      case _ => None
  }

  predicate CallOf(es: Exprs, h: nat, words: seq<string>)
    requires h < |es| && ChildFirst(es)
  {
    CalleeName(es, h).Some? && Matches(CalleeName(es, h).value, words)
  }

  /** The callee is a global with this name, or the helper of this name. */
  predicate Named(callee: Head, name: Text) {
    (callee.Obj? && callee.name == name && name != []) || (callee.Helper? && callee.helper == name)
  }

  /** `word` occurs in `name`. */
  predicate Contains(name: Text, word: string) {
    exists i :: 0 <= i <= |name| - |word| && Spells(name[i..][..|word|], word)
  }

  lemma {:induction false} OccursMeans(name: Text, word: string, i: nat)
    requires i + |word| <= |name|
    ensures OccursAt(name, word, i) <==> Spells(name[i..][..|word|], word)
  {
    var t := name[i..][..|word|];
    assert forall j :: 0 <= j < |word| ==> t[j] == name[i + j];
  }

  lemma {:induction false} MatchesMeans(name: Text, words: seq<string>)
    ensures Matches(name, words) <==> exists w :: w in words && Contains(name, w)
  {
    hide Spells;
    if Matches(name, words) {
      var w, i :| 0 <= w < |words| && 0 <= i <= |name| && OccursAt(name, words[w], i);
      OccursMeans(name, words[w], i);
      assert words[w] in words && Contains(name, words[w]);
    }
    if word :| word in words && Contains(name, word) {
      var w :| 0 <= w < |words| && words[w] == word;
      var i :| 0 <= i <= |name| - |word| && Spells(name[i..][..|word|], word);
      OccursMeans(name, word, i);
      assert OccursAt(name, words[w], i);
    }
  }

  /** A call is of a kind exactly if its callee has a name and one of the words occurs in it. */
  lemma {:induction false} CallMeans(es: Exprs, h: nat, words: seq<string>)
    requires h < |es| && ChildFirst(es)
    ensures CallOf(es, h, words) <==>
              && es[h].head.Call? && es[h].kids != []
              && exists name :: Named(es[es[h].kids[0]].head, name) && exists w :: w in words && Contains(name, w)
  {
    hide Matches, Contains;
    if es[h].head.Call? && es[h].kids != [] {
      var callee := es[es[h].kids[0]].head;
      forall name | Named(callee, name) ensures CalleeName(es, h) == Some(name) {
        MatchesMeans(name, words);
      }
      if CalleeName(es, h).Some? {
        MatchesMeans(CalleeName(es, h).value, words);
        assert Named(callee, CalleeName(es, h).value);
      }
    }
  }

  /** Whether the subtree at `h` reads a tainted local or calls a source. */
  predicate Tainted(es: Exprs, h: nat, tainted: set<nat>)
    requires h < |es| && ChildFirst(es)
    decreases h
  {
    || (if es[h].head.Var? then es[h].head.index in tainted else CallOf(es, h, SOURCES))
    || exists i :: 0 <= i < |es[h].kids| && Tainted(es, es[h].kids[i], tainted)
  }

  /** A definition: the local assigned and the handle of the value. */
  datatype Def = Def(local: nat, rhs: nat)

  predicate IsAssign(n: Node) {
    n.head.Op? && 2 <= n.head.ctype <= 15 && |n.kids| == 2
  }

  /** The definitions among the first `n` nodes, in order. */
  function Defs(es: Exprs, n: nat): (r: seq<Def>)
    requires n <= |es| && ChildFirst(es)
    ensures forall d :: d in r ==> d.rhs < |es|
  {
    if n == 0 then []
    else
      var node := es[n - 1];
      Defs(es, n - 1) +
      if IsAssign(node) && es[node.kids[0]].head.Var?
      then [Def(es[node.kids[0]].head.index, node.kids[1])] else []
  }

  /** Node `h` assigns the value at `d.rhs` to the local `d.local`. */
  predicate Assigns(es: Exprs, h: nat, d: Def)
    requires h < |es| && ChildFirst(es)
  {
    && es[h].head.Op? && es[h].head.ctype in {2, 3, 4, 5, 6, 7, 8, 9, 10, 11, 12, 13, 14, 15}
    && |es[h].kids| == 2 && es[es[h].kids[0]].head == Var(d.local) && es[h].kids[1] == d.rhs
  }

  /** The definitions of a tree are its assignments to locals, and nothing else. */
  lemma {:induction false} DefsAreAssignments(es: Exprs, n: nat, d: Def)
    requires n <= |es| && ChildFirst(es)
    ensures d in Defs(es, n) <==> exists h :: 0 <= h < n && Assigns(es, h, d)
  {
    if n > 0 {
      DefsAreAssignments(es, n - 1, d);
      var was := Defs(es, n - 1);
      var node := es[n - 1];
      if Assigns(es, n - 1, d) {
        assert Defs(es, n) == was + [d];
        assert (was + [d])[|was|] == d;
      } else if exists h :: 0 <= h < n - 1 && Assigns(es, h, d) {
        assert was <= Defs(es, n);
      }
    }
  }

  function Locals(defs: seq<Def>): set<nat> {
    set d | d in defs :: d.local
  }

  predicate Fits(es: Exprs, defs: seq<Def>) {
    ChildFirst(es) && forall d :: d in defs ==> d.rhs < |es|
  }

  // ---------------------------------------------------------------- what the pass should find

  predicate Closed(es: Exprs, defs: seq<Def>, u: set<nat>)
    requires Fits(es, defs)
  {
    forall d :: d in defs && Tainted(es, d.rhs, u) ==> d.local in u
  }

  ghost predicate LeastClosed(es: Exprs, defs: seq<Def>, u: set<nat>)
    requires Fits(es, defs)
  {
    Closed(es, defs, u) && forall v :: Closed(es, defs, v) ==> u <= v
  }

  /** The subtree at `h` reads local `m`. */
  predicate Reads(es: Exprs, h: nat, m: nat)
    requires h < |es| && ChildFirst(es)
    decreases h
  {
    es[h].head == Var(m) || exists i :: 0 <= i < |es[h].kids| && Reads(es, es[h].kids[i], m)
  }

  /** The subtree at `h` calls a source itself. */
  predicate CallsSource(es: Exprs, h: nat)
    requires h < |es| && ChildFirst(es)
    decreases h
  {
    CallOf(es, h, SOURCES) || exists i :: 0 <= i < |es[h].kids| && CallsSource(es, es[h].kids[i])
  }

  /** A chain of definitions ending at `ds`' first local: the last calls a source, each other reads the next. */
  predicate Chain(es: Exprs, defs: seq<Def>, ds: seq<Def>)
    requires Fits(es, defs)
    decreases |ds|
  {
    && ds != [] && ds[0] in defs
    && (if |ds| == 1 then CallsSource(es, ds[0].rhs)
        else Reads(es, ds[0].rhs, ds[1].local) && Chain(es, defs, ds[1..]))
  }

  /** A finite chain of definitions leads from a source call to `l`. */
  ghost predicate Fed(es: Exprs, defs: seq<Def>, l: nat)
    requires Fits(es, defs)
  {
    exists ds: seq<Def> :: Chain(es, defs, ds) && ds[0].local == l
  }

  /** A tainted subtree calls a source itself or reads a tainted local. */
  lemma {:induction false} TaintedMeans(es: Exprs, h: nat, u: set<nat>)
    requires h < |es| && ChildFirst(es)
    ensures Tainted(es, h, u) <==> CallsSource(es, h) || exists m :: m in u && Reads(es, h, m)
    decreases h
  {
    hide CallOf;
    VarIsNoCall(es, h);
    forall i | 0 <= i < |es[h].kids|
      ensures var k := es[h].kids[i];
              Tainted(es, k, u) <==> CallsSource(es, k) || exists m :: m in u && Reads(es, k, m)
    {
      TaintedMeans(es, es[h].kids[i], u);
    }
  }

  lemma {:induction false} VarIsNoCall(es: Exprs, h: nat)
    requires h < |es| && ChildFirst(es)
    ensures es[h].head.Var? ==> !CallOf(es, h, SOURCES)
  {
  }

  lemma {:induction false} TaintedGrows(es: Exprs, h: nat, u: set<nat>, v: set<nat>)
    requires h < |es| && ChildFirst(es) && u <= v && Tainted(es, h, u)
    ensures Tainted(es, h, v)
  {
    TaintedMeans(es, h, u);
    TaintedMeans(es, h, v);
  }

  /** Every chain ends inside every closed set. */
  lemma {:induction false} ChainInClosed(es: Exprs, defs: seq<Def>, ds: seq<Def>, u: set<nat>)
    requires Fits(es, defs) && Chain(es, defs, ds) && Closed(es, defs, u)
    ensures ds[0].local in u
    decreases |ds|
  {
    hide Reads, CallsSource, Tainted;
    if |ds| > 1 {
      ChainInClosed(es, defs, ds[1..], u);
    }
    TaintedMeans(es, ds[0].rhs, u);
  }

  /** A definition fed by a fed local, or by a source call, feeds its own local. */
  lemma {:induction false} FedStep(es: Exprs, defs: seq<Def>, d: Def, u: set<nat>)
    requires Fits(es, defs) && d in defs && Tainted(es, d.rhs, u) && forall m :: m in u ==> Fed(es, defs, m)
    ensures Fed(es, defs, d.local)
  {
    hide Reads, CallsSource, Tainted;
    TaintedMeans(es, d.rhs, u);
    if CallsSource(es, d.rhs) {
      assert Chain(es, defs, [d]);
    } else {
      var m :| m in u && Reads(es, d.rhs, m);
      var ds: seq<Def> :| Chain(es, defs, ds) && ds[0].local == m;
      assert ([d] + ds)[1..] == ds;
      assert Chain(es, defs, [d] + ds);
    }
  }

  /** The least closed set is exactly the locals a finite chain of definitions feeds from a source. */
  lemma {:induction false} LeastIsFed(es: Exprs, defs: seq<Def>, u: set<nat>, l: nat)
    requires Fits(es, defs) && LeastClosed(es, defs, u)
    ensures l in u <==> Fed(es, defs, l)
  {
    if Fed(es, defs, l) {
      var ds: seq<Def> :| Chain(es, defs, ds) && ds[0].local == l;
      ChainInClosed(es, defs, ds, u);
    }
    var fed := set m | m in u && Fed(es, defs, m);
    forall d | d in defs && Tainted(es, d.rhs, fed) ensures d.local in fed {
      FedStep(es, defs, d, fed);
      TaintedGrows(es, d.rhs, fed, u);
    }
    assert Closed(es, defs, fed);
  }

  /** The set found depends only on which definitions there are, not on their order or number. */
  lemma {:induction false} OrderIrrelevant(es: Exprs, defs: seq<Def>, defs': seq<Def>, u: set<nat>, u': set<nat>)
    requires Fits(es, defs) && Fits(es, defs') && forall d :: d in defs <==> d in defs'
    requires LeastClosed(es, defs, u) && LeastClosed(es, defs', u')
    ensures u == u'
  {
    hide Tainted;
    assert Closed(es, defs, u') && Closed(es, defs', u);
  }

  // ---------------------------------------------------------------- flows

  /** A call to a sink with a tainted argument. */
  predicate Flow(es: Exprs, h: nat, u: set<nat>)
    requires h < |es| && ChildFirst(es)
  {
    CallOf(es, h, SINKS) && exists i :: 1 <= i < |es[h].kids| && Tainted(es, es[h].kids[i], u)
  }

  function Flows(es: Exprs, u: set<nat>): (r: set<nat>)
    requires ChildFirst(es)
  {
    set h | 0 <= h < |es| && Flow(es, h, u)
  }

  // ---------------------------------------------------------------- the pass

  method CollectDefs(es: Exprs) returns (defs: seq<Def>)
    requires ChildFirst(es)
    ensures defs == Defs(es, |es|)
  {
    defs := [];
    for n := 0 to |es|
      invariant defs == Defs(es, n)
    {
      var node := es[n];
      if IsAssign(node) {
        match es[node.kids[0]].head {
          case Var(i) => defs := defs + [Def(i, node.kids[1])];
          case _ =>
        }
      }
    }
  }

  /** What one sweep over the definitions marks, each seeing the marks the earlier ones made. */
  function Sweep(es: Exprs, defs: seq<Def>, u: set<nat>): set<nat>
    requires Fits(es, defs)
    decreases |defs|
  {
    if defs == [] then u
    else
      var n := |defs| - 1;
      var before := Sweep(es, defs[..n], u);
      if Tainted(es, defs[n].rhs, before) then before + {defs[n].local} else before
  }

  function Sweeps(es: Exprs, defs: seq<Def>, k: nat): set<nat>
    requires Fits(es, defs)
  {
    if k == 0 then {} else Sweep(es, defs, Sweeps(es, defs, k - 1))
  }

  /**
  Marks locals until a pass over the definitions adds none: at most one pass for each distinct defined local
  and one more, ending at the least closed set.
  */
  method Fixpoint(es: Exprs, defs: seq<Def>) returns (tainted: set<nat>, passes: nat)
    requires Fits(es, defs)
    ensures LeastClosed(es, defs, tainted) && tainted <= Locals(defs)
    ensures 0 < passes <= |Locals(defs)| + 1
    ensures tainted == Sweeps(es, defs, passes) == Sweeps(es, defs, passes - 1)
    ensures forall k :: 0 < k < passes ==> Sweeps(es, defs, k) != Sweeps(es, defs, k - 1)
  {
    hide Tainted, Sweep;
    tainted, passes := {}, 0;
    while true
      invariant tainted <= Locals(defs) && passes <= |tainted| && tainted == Sweeps(es, defs, passes)
      invariant forall k :: 0 < k <= passes ==> Sweeps(es, defs, k) != Sweeps(es, defs, k - 1)
      invariant forall v :: Closed(es, defs, v) ==> tainted <= v
      decreases |Locals(defs)| - |tainted|
    {
      SubsetSize(tainted, Locals(defs));
      var before := |tainted|;
      ghost var was := tainted;
      tainted := OnePass(es, defs, tainted);
      passes := passes + 1;
      SubsetSize(was, tainted);
      SubsetSize(tainted, Locals(defs));
      if |tainted| == before {
        return;
      }
    }
  }

  /** One sweep over the definitions, each seeing the marks the earlier ones made. */
  method OnePass(es: Exprs, defs: seq<Def>, start: set<nat>) returns (tainted: set<nat>)
    requires Fits(es, defs) && start <= Locals(defs)
    ensures start <= tainted <= Locals(defs) && tainted == Sweep(es, defs, start)
    ensures tainted == start ==> Closed(es, defs, start)
    ensures forall v :: Closed(es, defs, v) && start <= v ==> tainted <= v
  {
    hide Tainted;
    tainted := start;
    for i := 0 to |defs|
      invariant start <= tainted <= Locals(defs) && tainted == Sweep(es, defs[..i], start)
      invariant tainted == start ==>
        forall j :: 0 <= j < i && Tainted(es, defs[j].rhs, start) ==> defs[j].local in start
      invariant forall v :: Closed(es, defs, v) && start <= v ==> tainted <= v
    {
      var d := defs[i];
      assert defs[..i + 1][..i] == defs[..i];
      if d.local !in tainted && Tainted(es, d.rhs, tainted) {
        forall v | Closed(es, defs, v) && start <= v ensures d.local in v {
          TaintedGrows(es, d.rhs, tainted, v);
        }
        tainted := tainted + {d.local};
      }
    }
    assert defs[..|defs|] == defs;
  }

  lemma {:induction false} SubsetSize(a: set<nat>, b: set<nat>)
    requires a <= b
    ensures |a| <= |b| && (|a| == |b| ==> a == b)
  {
    assert b == a + (b - a);
  }

  /** The number of source-to-sink flows. */
  method Analyze(es: Exprs) returns (flows: nat)
    requires ChildFirst(es)
    ensures exists u :: LeastClosed(es, Defs(es, |es|), u)
    ensures forall u :: LeastClosed(es, Defs(es, |es|), u) ==> flows == |Flows(es, u)|
  {
    hide Tainted, Flow, Closed;
    var defs := CollectDefs(es);
    var marked, passes := Fixpoint(es, defs);
    flows := 0;
    ghost var seen: set<nat> := {};
    for h := 0 to |es|
      invariant seen == (set k | 0 <= k < h && Flow(es, k, marked)) && flows == |seen|
    {
      if Flow(es, h, marked) {
        flows := flows + 1;
        seen := seen + {h};
      }
    }
    assert seen == Flows(es, marked);
    forall u | LeastClosed(es, defs, u) ensures u == marked {
      OrderIrrelevant(es, defs, defs, u, marked);
    }
  }

  /**
  A call counts as a flow exactly when it goes to a sink and some argument calls a source, or reads a local
  that a finite chain of definitions feeds from one.
  */
  lemma {:induction false} FlowMeans(es: Exprs, u: set<nat>, h: nat)
    requires ChildFirst(es) && h < |es| && LeastClosed(es, Defs(es, |es|), u)
    ensures h in Flows(es, u) <==>
      CallOf(es, h, SINKS) && exists i ::
        1 <= i < |es[h].kids|
        && (var k := es[h].kids[i];
            CallsSource(es, k) || exists m :: Fed(es, Defs(es, |es|), m) && Reads(es, k, m))
  {
    hide Tainted, Reads, CallsSource, CallOf, Fed, LeastClosed;
    var defs := Defs(es, |es|);
    forall m ensures m in u <==> Fed(es, defs, m) {
      LeastIsFed(es, defs, u, m);
    }
    forall i | 1 <= i < |es[h].kids|
      ensures var k := es[h].kids[i];
              Tainted(es, k, u) <==> CallsSource(es, k) || exists m :: Fed(es, defs, m) && Reads(es, k, m)
    {
      TaintedMeans(es, es[h].kids[i], u);
    }
  }
}
