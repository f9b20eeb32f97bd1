/** Coalesced eviction of cached decompilations: one sweep when a write cursor is dropped. */
module Invalidation {

  /** Ordered by breadth: each level evicts at least what the one before does. */
  datatype Level = Nothing | SelfOnly | Dependents

  function Rank(l: Level): nat {
    match l case Nothing => 0 case SelfOnly => 1 case Dependents => 2
  }

  function Max(a: Level, b: Level): Level {
    if Rank(a) >= Rank(b) then a else b
  }

  /** The references to each address, and the function each address is in, if any. */
  datatype Program = Program(xrefsTo: map<nat, seq<nat>>, functionOf: map<nat, nat>)

  function XrefsTo(p: Program, entry: nat): seq<nat> {
    if entry in p.xrefsTo then p.xrefsTo[entry] else []
  }

  /** The functions that refer to `entry` directly. */
  function Referrers(p: Program, xrefs: seq<nat>): set<nat> {
    set x | x in xrefs && x in p.functionOf :: p.functionOf[x]
  }

  /** What a write of this level at `address` makes stale. */
  function Affected(p: Program, address: nat, l: Level): set<nat> {
    match l
    case Nothing => {}
    case SelfOnly => {address}
    case Dependents => {address} + Referrers(p, XrefsTo(p, address))
  }

  /** `a` is `entry`, or the function that some reference to it lies in. */
  predicate Renders(p: Program, entry: nat, a: nat) {
    || a == entry
    || (entry in p.xrefsTo
        && exists x :: x in p.xrefsTo[entry] && x in p.functionOf && p.functionOf[x] == a)
  }

  /** Which addresses a write makes stale: its own for the narrow level, for the wide one all that render it. */
  lemma {:induction false} AffectedMeans(p: Program, address: nat, l: Level)
    ensures forall a :: a in Affected(p, address, Nothing) <==> false
    ensures forall a :: a in Affected(p, address, SelfOnly) <==> a == address
    ensures forall a :: a in Affected(p, address, Dependents) <==> Renders(p, address, a)
  {
    var xrefs := XrefsTo(p, address);
    forall a | a in Referrers(p, xrefs) ensures Renders(p, address, a) {
      var x :| x in xrefs && x in p.functionOf && p.functionOf[x] == a;
    }
    forall a | Renders(p, address, a) && a != address ensures a in Referrers(p, xrefs) {
      var x :| x in xrefs && x in p.functionOf && p.functionOf[x] == a;
    }
  }

  datatype Step = Write(ok: bool, level: Level) | Toggle(on: bool)

  // ---------------------------------------------------------------- the reference: evicting at once

  /** The widest level a successful write asked for while eviction was on, starting from `on`. */
  function EagerLevel(steps: seq<Step>, on: bool): Level {
    if steps == [] then Nothing
    else match steps[0]
      case Toggle(now) => EagerLevel(steps[1..], now)
      case Write(ok, l) => Max(if ok && on then l else Nothing, EagerLevel(steps[1..], on))
  }

  /** The cache after evicting for each successful write as it happens. */
  function Eager(p: Program, address: nat, cached: set<nat>, steps: seq<Step>, on: bool): set<nat> {
    if steps == [] then cached
    else match steps[0]
      case Toggle(now) => Eager(p, address, cached, steps[1..], now)
      case Write(ok, l) =>
        Eager(p, address, if ok && on then cached - Affected(p, address, l) else cached, steps[1..], on)
  }

  lemma {:induction false} AffectedGrows(p: Program, address: nat, a: Level, b: Level)
    ensures Affected(p, address, Max(a, b)) == Affected(p, address, a) + Affected(p, address, b)
  {
  }

  lemma {:induction false} EagerIsOneSweep(p: Program, address: nat, cached: set<nat>, steps: seq<Step>, on: bool)
    ensures Eager(p, address, cached, steps, on) == cached - Affected(p, address, EagerLevel(steps, on))
  {
    hide Affected, Max;
    if steps == [] {
      NothingAffected(p, address);
    } else {
      match steps[0]
      case Toggle(now) => EagerIsOneSweep(p, address, cached, steps[1..], now);
      case Write(ok, l) =>
        var now := if ok && on then l else Nothing;
        NothingAffected(p, address);
        var after := cached - Affected(p, address, now);
        EagerIsOneSweep(p, address, after, steps[1..], on);
        AffectedGrows(p, address, now, EagerLevel(steps[1..], on));
        assert cached - Affected(p, address, Nothing) == cached;
    }
  }

  lemma {:induction false} NothingAffected(p: Program, address: nat)
    ensures Affected(p, address, Nothing) == {}
  {
  }

  // ---------------------------------------------------------------- the cursor's accounting

  /** The widest level of any successful write, whether or not eviction was on. */
  function QueuedLevel(steps: seq<Step>): Level {
    if steps == [] then Nothing
    else
      var n := |steps| - 1;
      var before := QueuedLevel(steps[..n]);
      match steps[n]
      case Toggle(_) => before
      case Write(ok, l) => if ok then Max(before, l) else before
  }

  function LastSetting(steps: seq<Step>, on: bool): bool {
    if steps == [] then on
    else match steps[|steps| - 1]
      case Toggle(now) => now
      case Write(_, _) => LastSetting(steps[..|steps| - 1], on)
  }

  /** What is evicted when the cursor is dropped. */
  function DropLevel(steps: seq<Step>): Level {
    if LastSetting(steps, true) then QueuedLevel(steps) else Nothing
  }

  predicate NeverToggled(steps: seq<Step>) {
    forall i :: 0 <= i < |steps| ==> steps[i].Write?
  }

  lemma {:induction false} EagerLevelAppend(a: seq<Step>, b: Step, on: bool)
    ensures EagerLevel(a + [b], on)
         == Max(EagerLevel(a, on), EagerLevel([b], LastSetting(a, on)))
    decreases |a|
  {
    if a == [] {
      assert a + [b] == [b];
    } else {
      assert (a + [b])[1..] == a[1..] + [b];
      EagerLevelAppend(a[1..], b, if a[0].Toggle? then a[0].on else on);
      LastSettingHead(a, on);
    }
  }

  lemma {:induction false} LastSettingHead(a: seq<Step>, on: bool)
    requires a != []
    ensures LastSetting(a, on) == LastSetting(a[1..], if a[0].Toggle? then a[0].on else on)
    decreases |a|
  {
    var n := |a| - 1;
    if n > 0 {
      assert a[1..][..n - 1] == a[..n][1..];
      LastSettingHead(a[..n], on);
    } else {
      assert a[..0] == [] && a[1..] == [];
    }
  }

  /** Coalescing never evicts less than evicting at once, unless eviction is switched off at the end. */
  lemma {:induction false} QueuedCoversEager(steps: seq<Step>)
    ensures Rank(EagerLevel(steps, true)) <= Rank(QueuedLevel(steps))
    ensures NeverToggled(steps) ==> EagerLevel(steps, true) == QueuedLevel(steps) && LastSetting(steps, true)
    decreases |steps|
  {
    if steps != [] {
      var n := |steps| - 1;
      QueuedCoversEager(steps[..n]);
      EagerLevelAppend(steps[..n], steps[n], true);
      assert steps == steps[..n] + [steps[n]];
      assert [steps[n]][1..] == [];
    }
  }

  // ---------------------------------------------------------------- the code

  class Database {
    const program: Program
    const hexraysReady: bool
    var cached: set<nat>

    constructor (program: Program, hexraysReady: bool, cached: set<nat>)
      ensures this.program == program && this.hexraysReady == hexraysReady && this.cached == cached
    {
      this.program := program;
      this.hexraysReady := hexraysReady;
      this.cached := cached;
    }

    method MarkDirty(address: nat)
      modifies this
      ensures cached == old(cached) - {address}
    {
      cached := cached - {address};
    }

    method InvalidateDecompilation(address: nat)
      modifies this
      ensures cached == if hexraysReady then old(cached) - Affected(program, address, SelfOnly) else old(cached)
    {
      if hexraysReady {
        MarkDirty(address);
      }
    }

    /** The function at `entry`, and once each every function a reference to it comes from. */
    method InvalidateDependents(entry: nat)
      modifies this
      ensures cached == if hexraysReady then old(cached) - Affected(program, entry, Dependents) else old(cached)
      ensures forall a :: a in cached <==> a in old(cached) && !(hexraysReady && Renders(program, entry, a))
    {
      AffectedMeans(program, entry, Dependents);
      if !hexraysReady {
        return;
      }
      MarkDirty(entry);
      var seen := {entry};
      var xrefs := XrefsTo(program, entry);
      for i := 0 to |xrefs|
        invariant seen == {entry} + Referrers(program, xrefs[..i])
        invariant cached == old(cached) - seen
      {
        assert xrefs[..i + 1] == xrefs[..i] + [xrefs[i]];
        if xrefs[i] in program.functionOf {
          var referrer := program.functionOf[xrefs[i]];
          if referrer !in seen {
            seen := seen + {referrer};
            MarkDirty(referrer);
          }
        }
      }
      assert xrefs[..|xrefs|] == xrefs;
    }
  }

  class Cursor {
    const db: Database
    const address: nat
    var autoInvalidate: bool
    var pending: Level

    constructor (db: Database, address: nat)
      ensures this.db == db && this.address == address && autoInvalidate && pending == Nothing
    {
      this.db := db;
      this.address := address;
      autoInvalidate := true;
      pending := Nothing;
    }

    method AutoInvalidate(on: bool)
      modifies this`autoInvalidate
      ensures autoInvalidate == on
    {
      autoInvalidate := on;
    }

    /** A failed write queues nothing; a successful one can only widen what is queued. */
    method Queued(ok: bool, level: Level)
      modifies this`pending
      ensures pending == if ok then Max(old(pending), level) else old(pending)
    {
      if ok {
        pending := Max(pending, level);
      }
    }

    method Drop()
      modifies db
      ensures db.cached == if db.hexraysReady && autoInvalidate
                           then old(db.cached) - Affected(db.program, address, pending) else old(db.cached)
    {
      if !autoInvalidate {
        return;
      }
      match pending {
        case Nothing =>
        case SelfOnly => db.InvalidateDecompilation(address);
        case Dependents => db.InvalidateDependents(address);
      }
    }
  }

  /**
  A whole cursor's life. With eviction left on, the one sweep at the end leaves exactly the cache that evicting
  after every write would have left, and nothing any successful write made stale.
  */
  method Session(db: Database, address: nat, steps: seq<Step>)
    modifies db
    ensures !db.hexraysReady ==> db.cached == old(db.cached)
    ensures db.hexraysReady ==> db.cached == old(db.cached) - Affected(db.program, address, DropLevel(steps))
    ensures db.hexraysReady && NeverToggled(steps) ==>
      db.cached == Eager(db.program, address, old(db.cached), steps, true)
    ensures db.hexraysReady && LastSetting(steps, true) ==>
      forall i :: 0 <= i < |steps| && steps[i].Write? && steps[i].ok ==>
        db.cached !! Affected(db.program, address, steps[i].level)
  {
    hide Affected, Eager;
    var cursor := new Cursor(db, address);
    assert steps[..0] == [];
    for i := 0 to |steps|
      invariant cursor.db == db && cursor.address == address && db.cached == old(db.cached)
      invariant cursor.pending == QueuedLevel(steps[..i]) && cursor.autoInvalidate == LastSetting(steps[..i], true)
    {
      assert steps[..i + 1][..i] == steps[..i];
      match steps[i] {
        case Toggle(on) => cursor.AutoInvalidate(on);
        case Write(ok, level) => cursor.Queued(ok, level);
      }
    }
    assert steps[..|steps|] == steps;
    cursor.Drop();
    NothingAffected(db.program, address);
    QueuedCoversEager(steps);
    EagerIsOneSweep(db.program, address, old(db.cached), steps, true);
    forall i | 0 <= i < |steps| && steps[i].Write? && steps[i].ok
      ensures Affected(db.program, address, steps[i].level) <= Affected(db.program, address, QueuedLevel(steps))
    {
      WriteQueued(steps, i);
      AffectedGrows(db.program, address, QueuedLevel(steps), steps[i].level);
    }
  }

  lemma {:induction false} WriteQueued(steps: seq<Step>, i: nat)
    requires i < |steps| && steps[i].Write? && steps[i].ok
    ensures Max(QueuedLevel(steps), steps[i].level) == QueuedLevel(steps)
    decreases |steps|
  {
    if i < |steps| - 1 {
      WriteQueued(steps[..|steps| - 1], i);
    }
  }

  /** The setting that counts is the last one: switching off before the drop discards what was queued. */
  lemma {:induction false} SwitchedOffDiscards(p: Program, address: nat)
    ensures var steps := [Write(true, SelfOnly), Toggle(false)];
            var cached := {address};
            && cached - Affected(p, address, DropLevel(steps)) == {address}
            && Eager(p, address, cached, steps, true) == {}
  {
    var steps := [Write(true, SelfOnly), Toggle(false)];
    EagerIsOneSweep(p, address, {address}, steps, true);
    assert steps[1..] == [Toggle(false)] && steps[1..][1..] == [];
  }

  // ---------------------------------------------------------------- exactly when the two agree

  /** Step `i` is a successful write made while the setting was on, or while it was off. */
  predicate WroteOn(steps: seq<Step>, i: nat) {
    i < |steps| && steps[i].Write? && steps[i].ok && LastSetting(steps[..i], true)
  }

  predicate WroteOff(steps: seq<Step>, i: nat) {
    i < |steps| && steps[i].Write? && steps[i].ok && !LastSetting(steps[..i], true)
  }

  /** Some successful write made while on was at least this wide. */
  predicate Covered(steps: seq<Step>, l: Level) {
    l == Nothing || exists j: nat :: j < |steps| && WroteOn(steps, j) && Rank(steps[j].level) >= Rank(l)
  }

  /**
  What a caller of the cursor can read off its own steps: with eviction on at the end, nothing written while it
  was off was wider than everything written while it was on; with it off, nothing that evicts was written while on.
  */
  predicate SwitchedHarmlessly(steps: seq<Step>) {
    if LastSetting(steps, true)
    then forall i: nat :: i < |steps| && WroteOff(steps, i) ==> Covered(steps, steps[i].level)
    else forall i: nat :: i < |steps| && WroteOn(steps, i) ==> steps[i].level == Nothing
  }

  lemma {:induction false} EagerLevelIs(steps: seq<Step>)
    ensures forall i: nat :: WroteOn(steps, i) ==> Rank(steps[i].level) <= Rank(EagerLevel(steps, true))
    ensures Covered(steps, EagerLevel(steps, true))
    decreases |steps|
  {
    if steps != [] {
      var n := |steps| - 1;
      var (init, last) := (steps[..n], steps[n]);
      EagerLevelIs(init);
      EagerLevelAppend(init, last, true);
      assert steps == init + [last] && [last][1..] == [];
      forall i: nat | WroteOn(steps, i) ensures Rank(steps[i].level) <= Rank(EagerLevel(steps, true)) {
        if i < n {
          assert steps[..i] == init[..i];
          assert WroteOn(init, i);
        }
      }
      if EagerLevel(steps, true) == EagerLevel(init, true) {
        if EagerLevel(init, true) != Nothing {
          var j: nat :| j < |init| && WroteOn(init, j) && Rank(init[j].level) >= Rank(EagerLevel(init, true));
          assert steps[..j] == init[..j];
          assert WroteOn(steps, j);
        }
      } else {
        assert WroteOn(steps, n);
      }
    }
  }

  lemma {:induction false} QueuedLevelIs(steps: seq<Step>)
    ensures forall i: nat :: i < |steps| && steps[i].Write? && steps[i].ok ==>
      Rank(steps[i].level) <= Rank(QueuedLevel(steps))
    ensures QueuedLevel(steps) == Nothing ||
      exists i: nat :: i < |steps| && steps[i].Write? && steps[i].ok && steps[i].level == QueuedLevel(steps)
    decreases |steps|
  {
    if steps != [] {
      var n := |steps| - 1;
      QueuedLevelIs(steps[..n]);
      if QueuedLevel(steps) != QueuedLevel(steps[..n]) {
        assert steps[n].level == QueuedLevel(steps);
      } else if QueuedLevel(steps) != Nothing {
        var i: nat :| i < n && steps[..n][i].Write? && steps[..n][i].ok
                   && steps[..n][i].level == QueuedLevel(steps);
        assert steps[i] == steps[..n][i];
      }
    }
  }

  /** The two end at the same level exactly when switching was harmless. */
  lemma {:induction false} SameLevel(steps: seq<Step>)
    ensures DropLevel(steps) == EagerLevel(steps, true) <==> SwitchedHarmlessly(steps)
  {
    EagerLevelIs(steps);
    QueuedLevelIs(steps);
    QueuedCoversEager(steps);
    var (queued, eager) := (QueuedLevel(steps), EagerLevel(steps, true));
    if LastSetting(steps, true) {
      if SwitchedHarmlessly(steps) && queued != Nothing {
        var i: nat :| i < |steps| && steps[i].Write? && steps[i].ok && steps[i].level == queued;
        assert WroteOn(steps, i) || WroteOff(steps, i);
        assert Covered(steps, queued);
      } else if queued == eager {
        forall i: nat | i < |steps| && WroteOff(steps, i) ensures Covered(steps, steps[i].level) {
          assert Rank(steps[i].level) <= Rank(queued);
        }
      }
    }
  }

  /** A program in which the three levels affect different addresses. */
  const TELLING := Program(map[0 := [1]], map[1 := 1])

  lemma {:induction false} LevelsTold(a: Level, b: Level)
    requires Affected(TELLING, 0, a) == Affected(TELLING, 0, b)
    ensures a == b
  {
    assert XrefsTo(TELLING, 0) == [1];
    var xrefs: seq<nat> := [1];
    assert xrefs[0] == 1 && 1 in xrefs && TELLING.functionOf[1] == 1;
    assert 1 in Referrers(TELLING, xrefs) && 1 in Affected(TELLING, 0, Dependents);
    assert 1 !in Affected(TELLING, 0, SelfOnly) && 0 in Affected(TELLING, 0, SelfOnly);
  }

  /**
  Whatever the program, the address and the cache, the one eviction at the end leaves what evicting after every
  write would have left: exactly when switching was harmless.
  */
  lemma {:induction false} AgreeExactly(steps: seq<Step>)
    ensures (forall p, address, cached ::
               cached - Affected(p, address, DropLevel(steps)) == Eager(p, address, cached, steps, true))
       <==> SwitchedHarmlessly(steps)
  {
    hide Affected, EagerLevel, QueuedLevel, SwitchedHarmlessly;
    var (d, e) := (DropLevel(steps), EagerLevel(steps, true));
    SameLevel(steps);
    forall p, address, cached ensures Eager(p, address, cached, steps, true) == cached - Affected(p, address, e) {
      EagerIsOneSweep(p, address, cached, steps, true);
    }
    var (x, y) := (Affected(TELLING, 0, d), Affected(TELLING, 0, e));
    if x == y {
      LevelsTold(d, e);
    } else {
      var both := x + y;
      assert both - x != both - y;
      assert both - Affected(TELLING, 0, d) != Eager(TELLING, 0, both, steps, true);
    }
  }
}
