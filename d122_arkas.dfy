/**
 * Two components of the Arkas encounter (second boss of the Aetherfont):
 * the void zone that shrinks the circular arena while it is active, and the
 * forked-fissures bookkeeping that queues charge telegraphs in batches of
 * 16 from fixed pattern tables and drops the oldest one per finished cast.
 *
 * Pattern-table coordinates are opaque: a `Point` names table entry `i` of
 * the start or end table of the pattern an env-control index selects. A
 * queued charge keeps the start and end it was built from; its length and
 * direction are computed from them by float geometry not modelled here.
 * An out-of-range list index (an exception in the program) ends a handler
 * with `ok == false`, keeping what the handler did before it.
 */
module ArkasModel {
  import opened Common

  // ---------------------------------------------------------------------------
  // Void zone

  /** The env-control states the components react to. */
  const VoidzoneOn: uint32 := 0x0002_0001
  const VoidzoneOff: uint32 := 0x0008_0004
  const FissuresA: uint32 := 0x0020_0010
  const FissuresB: uint32 := 0x0002_0001

  /** The action id of a forked-fissures charge. */
  const ForkedFissuresAID: uint32 := 33361

  /**
   * The flag after an env-control event: index 0 with the "on" state sets
   * it, and the "off" state clears it whatever the index (in the program the
   * second test is not guarded by the index check).
   */
  function VoidzoneControlled(active: bool, index: uint8, state: uint32): (r: bool)
    ensures state == VoidzoneOff ==> !r
    ensures index == 0 && state == VoidzoneOn ==> r
    ensures state != VoidzoneOff && !(index == 0 && state == VoidzoneOn) ==> r == active
  {
    var a := if index == 0 && state == VoidzoneOn then true else active;
    if state == VoidzoneOff then false else a
  }

  /** A circular arena: centre (x, z) and radius. */
  datatype ArenaBounds = Circle(x: real, z: real, radius: real)

  /** The bounds the encounter starts with. */
  const InitialBounds: ArenaBounds := Circle(425.0, -440.0, 14.5)

  /** The arena of the running module, its bounds replaced by the components. */
  class Arena {
    var bounds: ArenaBounds

    constructor ()
      ensures bounds == InitialBounds
    {
      bounds := InitialBounds;
    }
  }

  class Voidzone {
    var active: bool

    constructor ()
      ensures !active
    {
      active := false;
    }

    method OnEventEnvControl(index: uint8, state: uint32)
      modifies this
      ensures active == VoidzoneControlled(old(active), index, state)
    {
      if index == 0 {
        if state == VoidzoneOn {
          active := true;
        }
      }
      if state == VoidzoneOff {
        active := false;
      }
    }

    /** Sets the arena to the small circle while active and to the full one otherwise. */
    method Update(arena: Arena)
      modifies arena
      ensures arena.bounds == BoundsFor(active)
    {
      if !active {
        arena.bounds := Circle(425.0, -440.0, 14.5);
      }
      if active {
        arena.bounds := Circle(425.0, -440.0, 10.0);
      }
    }
  }

  /** The bounds `Update` chooses: same centre, radius 10 while active and 14.5 otherwise. */
  function BoundsFor(active: bool): (b: ArenaBounds)
    ensures b.x == InitialBounds.x && b.z == InitialBounds.z
    ensures active <==> b.radius < InitialBounds.radius
  {
    if active then Circle(425.0, -440.0, 10.0) else InitialBounds
  }

  /** Activation shrinks the arena, and the "off" state on any index restores the initial bounds. */
  lemma VoidzoneCycle(active: bool, index: uint8)
    ensures BoundsFor(VoidzoneControlled(active, 0, VoidzoneOn)).radius == 10.0
    ensures BoundsFor(VoidzoneControlled(active, index, VoidzoneOff)) == InitialBounds
  {
  }

  // ---------------------------------------------------------------------------
  // Forked fissures: the pattern and caster lists

  /** Entry `i` of the start (or end) table of the pattern for env-control index `pattern`. */
  datatype Point = Point(pattern: uint8, isEnd: bool, i: nat)

  /** A queued charge telegraph, built from a pattern start and end. */
  datatype Caster = Caster(start: Point, end: Point)

  /** Every pattern table holds 16 points. */
  const BatchSize: nat := 16

  function Table(pattern: uint8, isEnd: bool): (t: seq<Point>)
    ensures |t| == BatchSize
  {
    seq(BatchSize, i requires 0 <= i < BatchSize => Point(pattern, isEnd, i))
  }

  /** The env-control events that append a pattern: index 4 or 3 with state A, index 2 or 1 with state B. */
  predicate AddsPattern(index: uint8, state: uint32)
  {
    (state == FissuresA && (index == 4 || index == 3)) || (state == FissuresB && (index == 2 || index == 1))
  }

  /** The three lists of the component, as values. */
  datatype Fissures = Fissures(patternStart: seq<Point>, patternEnd: seq<Point>, casters: seq<Caster>)

  /** The outcome of a handler: the lists after it, and false when it ended on an out-of-range index. */
  datatype Step = Step(after: Fissures, ok: bool)

  const NoFissures: Fissures := Fissures([], [], [])

  /** The casters built from pattern entries `from` up to (excluding) `to`. */
  function Batch(ps: seq<Point>, pe: seq<Point>, from: nat, to: nat): (r: seq<Caster>)
    requires from <= to <= |ps| && to <= |pe|
    ensures |r| == to - from
    ensures forall k :: 0 <= k < |r| ==> r[k] == Caster(ps[from + k], pe[from + k])
  {
    seq(to - from, k requires 0 <= k < to - from => Caster(ps[from + k], pe[from + k]))
  }

  /** The lists after the pattern tables an env-control event selects are appended. */
  function PatternAdded(f: Fissures, index: uint8, state: uint32): (r: Fissures)
    ensures r.casters == f.casters
    ensures AddsPattern(index, state) ==>
      r.patternStart == f.patternStart + Table(index, false) && r.patternEnd == f.patternEnd + Table(index, true)
    ensures !AddsPattern(index, state) ==> r == f
  {
    if AddsPattern(index, state) then
      f.(patternStart := f.patternStart + Table(index, false), patternEnd := f.patternEnd + Table(index, true))
    else f
  }

  /**
   * Appending entries `from` .. `to`-1 as casters; when a pattern list is
   * shorter, the casters up to its length are appended and the step fails.
   */
  function BatchAdded(f: Fissures, from: nat, to: nat): (r: Step)
    requires from <= to && from <= |f.patternStart| && from <= |f.patternEnd|
    ensures r.after.patternStart == f.patternStart && r.after.patternEnd == f.patternEnd
    ensures r.ok <==> to <= |f.patternStart| && to <= |f.patternEnd|
    ensures r.after.casters == f.casters + Batch(f.patternStart, f.patternEnd, from,
                                                 Min(to, Min(|f.patternStart|, |f.patternEnd|)))
  {
    var n := Min(to, Min(|f.patternStart|, |f.patternEnd|));
    Step(f.(casters := f.casters + Batch(f.patternStart, f.patternEnd, from, n)), n == to)
  }

  /**
   * The two batch rules: entries 0..15 when fewer than 16 casters are queued
   * and the patterns are non-empty; then entries 16..31 when at least 16 are
   * queued and the patterns have more than 16 entries.
   */
  function CastersAdded(f: Fissures): Step
  {
    var first := |f.casters| < BatchSize && |f.patternStart| > 0 && |f.patternEnd| > 0;
    var s1 := if first then BatchAdded(f, 0, BatchSize) else Step(f, true);
    if !s1.ok then s1
    else
      var g := s1.after;
      if |g.casters| >= BatchSize && |g.patternStart| > BatchSize && |g.patternEnd| > BatchSize
      then BatchAdded(g, BatchSize, 2 * BatchSize)
      else s1
  }

  /** The whole env-control handler: for either fissures state, append the selected pattern and then the casters. */
  function EnvControl(f: Fissures, index: uint8, state: uint32): Step
  {
    if state == FissuresA || state == FissuresB then CastersAdded(PatternAdded(f, index, state)) else Step(f, true)
  }

  /** A finished cast: a forked-fissures charge drops the head of all three lists, when all are non-empty. */
  function CastFinished(f: Fissures, actionID: uint32): (r: Fissures)
    ensures (actionID == ForkedFissuresAID && |f.casters| > 0 && |f.patternStart| > 0 && |f.patternEnd| > 0)
            ==> r == Fissures(f.patternStart[1..], f.patternEnd[1..], f.casters[1..])
    ensures !(actionID == ForkedFissuresAID && |f.casters| > 0 && |f.patternStart| > 0 && |f.patternEnd| > 0) ==> r == f
  {
    if actionID == ForkedFissuresAID && |f.casters| > 0 && |f.patternStart| > 0 && |f.patternEnd| > 0 then
      Fissures(f.patternStart[1..], f.patternEnd[1..], f.casters[1..])
    else f
  }

  /** A telegraph the component reports: the charge and when it lands. */
  datatype AOEInstance = AOEInstance(caster: Caster, activation: int)

  /** How long after a pattern event the charges land, in milliseconds. */
  const ActivationDelay: int := 6000

  class ForkedFissures {
    var activation: int
    var patternStart: seq<Point>
    var patternEnd: seq<Point>
    var casters: seq<Caster>

    function State(): Fissures
      reads this
    {
      Fissures(patternStart, patternEnd, casters)
    }

    constructor ()
      ensures State() == NoFissures && activation == 0
    {
      activation := 0;
      patternStart := [];
      patternEnd := [];
      casters := [];
    }

    /**
     * The charges in flight: none while the queue is empty, otherwise the
     * first 16 queued; with fewer than 16 queued the enumeration fails after
     * yielding all of them.
     */
    method ActiveAOEs() returns (aoes: seq<AOEInstance>, ok: bool)
      ensures casters == [] ==> aoes == [] && ok
      ensures casters != [] ==> ok == (|casters| >= BatchSize)
      ensures |aoes| == Min(|casters|, BatchSize)
      ensures forall k :: 0 <= k < |aoes| ==> aoes[k] == AOEInstance(casters[k], activation)
    {
      aoes := [];
      ok := true;
      if |casters| > 0 {
        for i := 0 to BatchSize
          invariant |aoes| == i <= |casters|
          invariant forall k :: 0 <= k < i ==> aoes[k] == AOEInstance(casters[k], activation)
        {
          if i >= |casters| {
            ok := false;
            return;
          }
          aoes := aoes + [AOEInstance(casters[i], activation)];
        }
      }
    }

    /** Appends the casters built from pattern entries `from` .. `to`-1, one at a time. */
    method AddBatch(from: nat, to: nat) returns (ok: bool)
      requires from <= to && from <= |patternStart| && from <= |patternEnd|
      modifies this`casters
      ensures var r := BatchAdded(old(State()), from, to);
        State() == r.after && ok == r.ok
    {
      for i := from to to
        invariant i <= |patternStart| && i <= |patternEnd|
        invariant casters == old(casters) + Batch(patternStart, patternEnd, from, i)
      {
        if i >= |patternStart| || i >= |patternEnd| {
          return false;
        }
        casters := casters + [Caster(patternStart[i], patternEnd[i])];
      }
      return true;
    }

    /** The two batch rules of the env-control handler. */
    method AddCasters() returns (ok: bool)
      modifies this`casters
      ensures var r := CastersAdded(old(State()));
        State() == r.after && ok == r.ok
    {
      ok := true;
      if |casters| < BatchSize && |patternStart| > 0 && |patternEnd| > 0 {
        ok := AddBatch(0, BatchSize);
        if !ok {
          return;
        }
      }
      if |casters| >= BatchSize && |patternStart| > BatchSize && |patternEnd| > BatchSize {
        ok := AddBatch(BatchSize, 2 * BatchSize);
      }
    }

    method OnEventEnvControl(index: uint8, state: uint32, now: int) returns (ok: bool)
      modifies this
      ensures var r := EnvControl(old(State()), index, state);
        State() == r.after && ok == r.ok
      ensures activation == if state == FissuresA || state == FissuresB then now + ActivationDelay else old(activation)
    {
      ok := true;
      if state == FissuresA {
        activation := now + ActivationDelay;
        if index == 4 {
          patternStart := patternStart + Table(4, false);
          patternEnd := patternEnd + Table(4, true);
        }
        if index == 3 {
          patternStart := patternStart + Table(3, false);
          patternEnd := patternEnd + Table(3, true);
        }
        ok := AddCasters();
      }
      if state == FissuresB {
        activation := now + ActivationDelay;
        if index == 2 {
          patternStart := patternStart + Table(2, false);
          patternEnd := patternEnd + Table(2, true);
        }
        if index == 1 {
          patternStart := patternStart + Table(1, false);
          patternEnd := patternEnd + Table(1, true);
        }
        ok := AddCasters();
      }
    }

    method OnCastFinished(actionID: uint32)
      modifies this
      ensures State() == CastFinished(old(State()), actionID)
      ensures activation == old(activation)
    {
      if actionID == ForkedFissuresAID && |casters| > 0 && |patternStart| > 0 && |patternEnd| > 0 {
        casters := casters[1..];
        patternStart := patternStart[1..];
        patternEnd := patternEnd[1..];
      }
    }
  }

  // ---------------------------------------------------------------------------
  // What the bookkeeping keeps

  /** The start and end lists have the same length. */
  predicate Aligned(f: Fissures)
  {
    |f.patternStart| == |f.patternEnd|
  }

  /** An env-control event grows both pattern lists by one table or not at all, and only appends casters. */
  lemma EnvControlGrowth(f: Fissures, index: uint8, state: uint32)
    ensures var r := EnvControl(f, index, state).after;
      && |r.patternStart| == |f.patternStart| + (if AddsPattern(index, state) then BatchSize else 0)
      && |r.patternEnd| == |f.patternEnd| + (if AddsPattern(index, state) then BatchSize else 0)
      && f.patternStart <= r.patternStart && f.patternEnd <= r.patternEnd
      && f.casters <= r.casters
      && |r.casters| <= |f.casters| + 2 * BatchSize
  {
  }

  /** The two pattern lists stay the same length through every event. */
  lemma AlignedKept(f: Fissures, index: uint8, state: uint32, actionID: uint32)
    requires Aligned(f)
    ensures Aligned(EnvControl(f, index, state).after)
    ensures Aligned(CastFinished(f, actionID))
  {
    EnvControlGrowth(f, index, state);
  }

  /**
   * While both pattern lists hold whole tables (equal lengths, a multiple of
   * 16), no env-control event fails: every entry a batch reads exists.
   */
  lemma EnvControlInRange(f: Fissures, index: uint8, state: uint32)
    requires Aligned(f) && |f.patternStart| % BatchSize == 0
    ensures EnvControl(f, index, state).ok
  {
    var g := PatternAdded(f, index, state);
    assert |g.patternStart| % BatchSize == 0 && |g.patternStart| == |g.patternEnd|;
  }

  /** Once the head has been dropped, a queue shorter than 16 makes the next pattern event fail part-way. */
  lemma ShortPatternsFail(f: Fissures, state: uint32)
    requires Aligned(f) && 0 < |f.patternStart| < BatchSize && |f.casters| < BatchSize
    requires state == FissuresA || state == FissuresB
    ensures var r := EnvControl(f, 0, state);
      && !r.ok
      && r.after.casters == f.casters + Batch(f.patternStart, f.patternEnd, 0, |f.patternStart|)
  {
    assert !AddsPattern(0, state);
  }

  /** A forked-fissures cast drops exactly the oldest caster and the oldest pattern entries. */
  lemma CastDropsHead(f: Fissures)
    requires Aligned(f) && |f.casters| > 0 && |f.patternStart| > 0
    ensures var r := CastFinished(f, ForkedFissuresAID);
      && [f.casters[0]] + r.casters == f.casters
      && [f.patternStart[0]] + r.patternStart == f.patternStart
      && [f.patternEnd[0]] + r.patternEnd == f.patternEnd
  {
  }

  /**
   * The opening of the mechanic: a first pattern queues its 16 charges, and
   * a second pattern arriving before any charge lands queues its 16 after
   * them.
   */
  lemma TwoPatternsQueued()
    ensures var s1 := EnvControl(NoFissures, 4, FissuresA);
      var s2 := EnvControl(s1.after, 3, FissuresA);
      && s1.ok && s2.ok
      && s1.after.casters == Batch(Table(4, false), Table(4, true), 0, BatchSize)
      && s2.after.patternStart == Table(4, false) + Table(3, false)
      && s2.after.casters == Batch(Table(4, false) + Table(3, false), Table(4, true) + Table(3, true), 0, 2 * BatchSize)
  {
    var s1 := EnvControl(NoFissures, 4, FissuresA);
    var ps := Table(4, false) + Table(3, false);
    var pe := Table(4, true) + Table(3, true);
    assert s1.after == Fissures(Table(4, false), Table(4, true), Batch(Table(4, false), Table(4, true), 0, BatchSize));
    var g := PatternAdded(s1.after, 3, FissuresA);
    assert g == Fissures(ps, pe, s1.after.casters);
    assert Batch(ps, pe, 0, 2 * BatchSize) == s1.after.casters + Batch(ps, pe, BatchSize, 2 * BatchSize);
  }
}
