/**
 * The timing retrofit a replay timeline performs before drawing: gather the
 * boss state machine into a lookup from state id to (state, graph predecessor),
 * then replay the recorded state sequence, giving every visited state the gap
 * between consecutive exit times and zeroing the skipped states on the
 * predecessor chain, and finally derive the per-phase durations and branch
 * offsets the same telescoping way.
 *
 * States live in a node table and are referred to by index; an edge always
 * leads to a larger index (the state graph is acyclic, which the recursive
 * walk needs in order to end), and state ids are unique. Times are integer
 * ticks.
 */
module ReplayTimeline {
  import opened Common

  // ---------------------------------------------------------------------------
  // The state graph

  /** One state of the machine: its id and where it can go next. */
  datatype StateNode = StateNode(id: uint32, next: Option<nat>, successors: Option<seq<nat>>)

  ghost predicate EdgesForward(nodes: seq<StateNode>, i: nat)
    requires i < |nodes|
  {
    && (nodes[i].next.Some? ==> i < nodes[i].next.value < |nodes|)
    && (nodes[i].successors.Some? ==>
          forall j :: 0 <= j < |nodes[i].successors.value| ==> i < nodes[i].successors.value[j] < |nodes|)
  }

  ghost predicate SameId(nodes: seq<StateNode>, i: nat, j: nat)
    requires i < |nodes| && j < |nodes|
  {
    nodes[i].id == nodes[j].id
  }

  /**
   * Every edge leads forward inside the table, and no two states share an
   * id (used through `IdsUnique`).
   */
  ghost predicate ValidGraph(nodes: seq<StateNode>)
  {
    && (forall i :: 0 <= i < |nodes| ==> EdgesForward(nodes, i))
    && (forall i, j {:trigger SameId(nodes, i, j)} :: 0 <= i < |nodes| && 0 <= j < |nodes| && SameId(nodes, i, j) ==> i == j)
  }

  /** Two states of a valid table with the same id are the same state. */
  lemma IdsUnique(nodes: seq<StateNode>, i: nat, j: nat)
    requires ValidGraph(nodes) && i < |nodes| && j < |nodes|
    ensures nodes[i].id == nodes[j].id ==> i == j
  {
    assert nodes[i].id == nodes[j].id ==> SameId(nodes, i, j);
  }

  /** `t` is the `Next` of `p` or one of its potential successors. */
  ghost predicate IsEdge(nodes: seq<StateNode>, p: nat, t: nat)
    requires p < |nodes|
  {
    nodes[p].next == Some(t) || (nodes[p].successors.Some? && t in nodes[p].successors.value)
  }

  /** A lookup entry: the state stored under an id and the state it was reached from. */
  datatype Entry = Entry(state: nat, pred: Option<nat>)

  /**
   * Each entry holds the state carrying its key, and its predecessor, when
   * there is one, has an edge into it and is itself in the lookup.
   */
  ghost predicate EntriesValid(nodes: seq<StateNode>, m: map<uint32, Entry>)
  {
    forall id {:trigger m[id]} :: id in m ==>
      && m[id].state < |nodes|
      && nodes[m[id].state].id == id
      && (m[id].pred.Some? ==>
            m[id].pred.value < |nodes| && IsEdge(nodes, m[id].pred.value, m[id].state) && nodes[m[id].pred.value].id in m)
  }

  // ---------------------------------------------------------------------------
  // Reachability, the reference for what the walk records

  /** The states reachable from `s` through `Next` and the potential successors, `s` included. */
  function Reach(nodes: seq<StateNode>, s: nat): (r: set<nat>)
    requires ValidGraph(nodes) && s < |nodes|
    ensures s in r
    ensures forall t :: t in r ==> s <= t < |nodes|
    decreases |nodes| - s, 1, 0
  {
    assert EdgesForward(nodes, s);
    {s}
    + (if nodes[s].next.Some? then Reach(nodes, nodes[s].next.value) else {})
    + (if nodes[s].successors.Some? then ReachFrom(nodes, s, 0) else {})
  }

  /** The states reachable from the potential successors of `s` numbered `k` and above. */
  function ReachFrom(nodes: seq<StateNode>, s: nat, k: nat): (r: set<nat>)
    requires ValidGraph(nodes) && s < |nodes| && nodes[s].successors.Some?
    requires k <= |nodes[s].successors.value|
    ensures forall t :: t in r ==> s < t < |nodes|
    decreases |nodes| - s, 0, |nodes[s].successors.value| - k
  {
    var succs := nodes[s].successors.value;
    assert EdgesForward(nodes, s);
    if k == |succs| then {} else Reach(nodes, succs[k]) + ReachFrom(nodes, s, k + 1)
  }

  function Ids(nodes: seq<StateNode>, ts: set<nat>): set<uint32>
    requires forall t :: t in ts ==> t < |nodes|
  {
    set t | t in ts :: nodes[t].id
  }

  // ---------------------------------------------------------------------------
  // The walk

  /**
   * The lookup after recording `s` with predecessor `pred`, then walking its
   * `Next`, then walking each potential successor other than `Next`, each
   * reached from `s`; a later visit of an id overwrites the earlier entry.
   */
  function Gather(nodes: seq<StateNode>, res: map<uint32, Entry>, s: nat, pred: Option<nat>): map<uint32, Entry>
    requires ValidGraph(nodes) && s < |nodes|
    decreases |nodes| - s, 1, 0
  {
    assert EdgesForward(nodes, s);
    var withS := res[nodes[s].id := Entry(s, pred)];
    var afterNext := if nodes[s].next.Some? then Gather(nodes, withS, nodes[s].next.value, Some(s)) else withS;
    if nodes[s].successors.Some? then GatherSuccessors(nodes, afterNext, s, 0) else afterNext
  }

  /** The lookup after walking the potential successors of `s` numbered `k` and above. */
  function GatherSuccessors(nodes: seq<StateNode>, res: map<uint32, Entry>, s: nat, k: nat): map<uint32, Entry>
    requires ValidGraph(nodes) && s < |nodes| && nodes[s].successors.Some?
    requires k <= |nodes[s].successors.value|
    decreases |nodes| - s, 0, |nodes[s].successors.value| - k
  {
    var succs := nodes[s].successors.value;
    assert EdgesForward(nodes, s);
    if k == |succs| then res
    else
      var res' := if Some(succs[k]) != nodes[s].next then Gather(nodes, res, succs[k], Some(s)) else res;
      GatherSuccessors(nodes, res', s, k + 1)
  }

  /** A state with a larger index than `s` never carries the id of `s`. */
  lemma IdsAbove(nodes: seq<StateNode>, s: nat, ts: set<nat>)
    requires ValidGraph(nodes) && s < |nodes|
    requires forall t :: t in ts ==> s < t < |nodes|
    ensures nodes[s].id !in Ids(nodes, ts)
  {
    forall t | t in ts
      ensures nodes[t].id != nodes[s].id
    {
      IdsUnique(nodes, t, s);
    }
  }

  lemma IdsUnion(nodes: seq<StateNode>, a: set<nat>, b: set<nat>)
    requires forall t :: t in a + b ==> t < |nodes|
    ensures Ids(nodes, a + b) == Ids(nodes, a) + Ids(nodes, b)
  {
  }

  /** The states reachable through `Next`, if `s` has one. */
  function NextReach(nodes: seq<StateNode>, s: nat): (r: set<nat>)
    requires ValidGraph(nodes) && s < |nodes|
    ensures forall t :: t in r ==> s < t < |nodes|
  {
    assert EdgesForward(nodes, s);
    if nodes[s].next.Some? then Reach(nodes, nodes[s].next.value) else {}
  }

  /** The states reachable through the potential successors, if `s` has them. */
  function SuccReach(nodes: seq<StateNode>, s: nat): (r: set<nat>)
    requires ValidGraph(nodes) && s < |nodes|
    ensures forall t :: t in r ==> s < t < |nodes|
  {
    if nodes[s].successors.Some? then ReachFrom(nodes, s, 0) else {}
  }

  lemma ReachSplit(nodes: seq<StateNode>, s: nat)
    requires ValidGraph(nodes) && s < |nodes|
    ensures Ids(nodes, Reach(nodes, s)) == {nodes[s].id} + Ids(nodes, NextReach(nodes, s)) + Ids(nodes, SuccReach(nodes, s))
  {
    assert Reach(nodes, s) == {s} + NextReach(nodes, s) + SuccReach(nodes, s);
    IdsUnion(nodes, {s} + NextReach(nodes, s), SuccReach(nodes, s));
    IdsUnion(nodes, {s}, NextReach(nodes, s));
    assert Ids(nodes, {s}) == {nodes[s].id};
  }

  /**
   * Walking from `s` adds exactly the ids of the states reachable from `s`,
   * leaves every other entry as it was, and stores `s` itself with `pred`.
   */
  lemma {:induction false} GatherSpec(nodes: seq<StateNode>, res: map<uint32, Entry>, s: nat, pred: Option<nat>)
    requires ValidGraph(nodes) && s < |nodes|
    ensures var r := Gather(nodes, res, s, pred);
      && r.Keys == res.Keys + Ids(nodes, Reach(nodes, s))
      && (forall id :: id in res && id !in Ids(nodes, Reach(nodes, s)) ==> r[id] == res[id])
      && r[nodes[s].id] == Entry(s, pred)
    decreases |nodes| - s, 1, 0
  {
    assert EdgesForward(nodes, s);
    var id := nodes[s].id;
    var withS := res[id := Entry(s, pred)];
    var afterNext := if nodes[s].next.Some? then Gather(nodes, withS, nodes[s].next.value, Some(s)) else withS;
    ReachSplit(nodes, s);
    IdsAbove(nodes, s, NextReach(nodes, s));
    IdsAbove(nodes, s, SuccReach(nodes, s));
    if nodes[s].next.Some? {
      GatherSpec(nodes, withS, nodes[s].next.value, Some(s));
    }
    assert afterNext.Keys == withS.Keys + Ids(nodes, NextReach(nodes, s));
    var r := Gather(nodes, res, s, pred);
    if nodes[s].successors.Some? {
      assert r == GatherSuccessors(nodes, afterNext, s, 0);
      GatherSuccessorsSpec(nodes, afterNext, s, 0);
      assert SuccReach(nodes, s) == ReachFrom(nodes, s, 0);
    } else {
      assert r == afterNext;
      assert SuccReach(nodes, s) == {};
    }
    GatherCombine(res, withS, afterNext, r, id, Entry(s, pred), Ids(nodes, NextReach(nodes, s)), Ids(nodes, SuccReach(nodes, s)));
  }

  /** How the two stages of one walk step compose, on the lookups alone. */
  lemma GatherCombine(res: map<uint32, Entry>, withS: map<uint32, Entry>, afterNext: map<uint32, Entry>, r: map<uint32, Entry>,
                      id: uint32, e: Entry, nextIds: set<uint32>, succIds: set<uint32>)
    requires withS == res[id := e] && id !in nextIds && id !in succIds
    requires afterNext.Keys == withS.Keys + nextIds
    requires forall i :: i in withS && i !in nextIds ==> afterNext[i] == withS[i]
    requires r.Keys == afterNext.Keys + succIds
    requires forall i :: i in afterNext && i !in succIds ==> r[i] == afterNext[i]
    ensures r.Keys == res.Keys + ({id} + nextIds + succIds)
    ensures forall i :: i in res && i !in {id} + nextIds + succIds ==> r[i] == res[i]
    ensures id in r && r[id] == e
  {
  }

  /** The same facts for the walk over the potential successors numbered `k` and above. */
  lemma {:induction false} GatherSuccessorsSpec(nodes: seq<StateNode>, res: map<uint32, Entry>, s: nat, k: nat)
    requires ValidGraph(nodes) && s < |nodes| && nodes[s].successors.Some?
    requires k <= |nodes[s].successors.value|
    ensures var r := GatherSuccessors(nodes, res, s, k);
      && res.Keys <= r.Keys <= res.Keys + Ids(nodes, ReachFrom(nodes, s, k))
      && (Ids(nodes, NextReach(nodes, s)) <= res.Keys ==> r.Keys == res.Keys + Ids(nodes, ReachFrom(nodes, s, k)))
      && (forall id :: id in res && id !in Ids(nodes, ReachFrom(nodes, s, k)) ==> r[id] == res[id])
    decreases |nodes| - s, 0, |nodes[s].successors.value| - k
  {
    var succs := nodes[s].successors.value;
    assert EdgesForward(nodes, s);
    if k < |succs| {
      var here := Reach(nodes, succs[k]);
      var rest := ReachFrom(nodes, s, k + 1);
      assert ReachFrom(nodes, s, k) == here + rest;
      IdsUnion(nodes, here, rest);
      var skip := Some(succs[k]) == nodes[s].next;
      var res' := if !skip then Gather(nodes, res, succs[k], Some(s)) else res;
      if !skip {
        GatherSpec(nodes, res, succs[k], Some(s));
      } else {
        assert here == NextReach(nodes, s);
      }
      GatherSuccessorsSpec(nodes, res', s, k + 1);
      assert GatherSuccessors(nodes, res, s, k) == GatherSuccessors(nodes, res', s, k + 1);
      SuccessorsCombine(res, res', GatherSuccessors(nodes, res', s, k + 1), skip,
                        Ids(nodes, here), Ids(nodes, rest), Ids(nodes, NextReach(nodes, s)));
    }
  }

  /** How walking one potential successor composes with walking the rest, on the lookups alone. */
  lemma SuccessorsCombine(res: map<uint32, Entry>, res': map<uint32, Entry>, r: map<uint32, Entry>, skip: bool,
                          here: set<uint32>, rest: set<uint32>, nextIds: set<uint32>)
    requires skip ==> res' == res && here == nextIds
    requires !skip ==> res'.Keys == res.Keys + here && forall i :: i in res && i !in here ==> res'[i] == res[i]
    requires res'.Keys <= r.Keys <= res'.Keys + rest
    requires nextIds <= res'.Keys ==> r.Keys == res'.Keys + rest
    requires forall i :: i in res' && i !in rest ==> r[i] == res'[i]
    ensures res.Keys <= r.Keys <= res.Keys + (here + rest)
    ensures nextIds <= res.Keys ==> r.Keys == res.Keys + (here + rest)
    ensures forall i :: i in res && i !in here + rest ==> r[i] == res[i]
  {
  }

  /** Walking from `s` keeps the lookup valid when `pred`, if any, is listed and has an edge into `s`. */
  lemma {:induction false} GatherValid(nodes: seq<StateNode>, res: map<uint32, Entry>, s: nat, pred: Option<nat>)
    requires ValidGraph(nodes) && s < |nodes| && EntriesValid(nodes, res)
    requires pred.Some? ==> pred.value < |nodes| && IsEdge(nodes, pred.value, s) && nodes[pred.value].id in res
    ensures EntriesValid(nodes, Gather(nodes, res, s, pred))
    decreases |nodes| - s, 1, 0
  {
    assert EdgesForward(nodes, s);
    var withS := res[nodes[s].id := Entry(s, pred)];
    assert EntriesValid(nodes, withS);
    var afterNext := if nodes[s].next.Some? then Gather(nodes, withS, nodes[s].next.value, Some(s)) else withS;
    if nodes[s].next.Some? {
      GatherValid(nodes, withS, nodes[s].next.value, Some(s));
      GatherSpec(nodes, withS, nodes[s].next.value, Some(s));
    }
    assert nodes[s].id in afterNext;
    if nodes[s].successors.Some? {
      GatherSuccessorsValid(nodes, afterNext, s, 0);
    }
  }

  lemma {:induction false} GatherSuccessorsValid(nodes: seq<StateNode>, res: map<uint32, Entry>, s: nat, k: nat)
    requires ValidGraph(nodes) && s < |nodes| && nodes[s].successors.Some?
    requires k <= |nodes[s].successors.value|
    requires EntriesValid(nodes, res) && nodes[s].id in res
    ensures EntriesValid(nodes, GatherSuccessors(nodes, res, s, k))
    decreases |nodes| - s, 0, |nodes[s].successors.value| - k
  {
    var succs := nodes[s].successors.value;
    assert EdgesForward(nodes, s);
    if k < |succs| {
      var res' := if Some(succs[k]) != nodes[s].next then Gather(nodes, res, succs[k], Some(s)) else res;
      if Some(succs[k]) != nodes[s].next {
        assert IsEdge(nodes, s, succs[k]);
        GatherValid(nodes, res, succs[k], Some(s));
        GatherSpec(nodes, res, succs[k], Some(s));
      }
      GatherSuccessorsValid(nodes, res', s, k + 1);
    }
  }

  /** The dictionary the walk fills in; several walks share it. */
  class StateLookup {
    var entries: map<uint32, Entry>

    constructor ()
      ensures entries == map[]
    {
      entries := map[];
    }
  }

  /** Records `s` and walks on from it, rewriting the entries of `res` in place. */
  method GatherStates(res: StateLookup, nodes: seq<StateNode>, s: nat, pred: Option<nat>)
    requires ValidGraph(nodes) && s < |nodes|
    modifies res
    ensures res.entries == Gather(nodes, old(res.entries), s, pred)
    decreases |nodes| - s
  {
    assert EdgesForward(nodes, s);
    res.entries := res.entries[nodes[s].id := Entry(s, pred)];
    if nodes[s].next.Some? {
      GatherStates(res, nodes, nodes[s].next.value, Some(s));
    }
    if nodes[s].successors.Some? {
      var succs := nodes[s].successors.value;
      for k := 0 to |succs|
        invariant GatherSuccessors(nodes, res.entries, s, k) == Gather(nodes, old(res.entries), s, pred)
      {
        if Some(succs[k]) != nodes[s].next {
          GatherStates(res, nodes, succs[k], Some(s));
        }
      }
    }
  }

  // ---------------------------------------------------------------------------
  // Walking every phase

  /** The lookup after walking the initial state of every phase, in order, each with no predecessor. */
  function GatherAll(nodes: seq<StateNode>, res: map<uint32, Entry>, initials: seq<nat>): map<uint32, Entry>
    requires ValidGraph(nodes) && forall i :: 0 <= i < |initials| ==> initials[i] < |nodes|
    decreases |initials|
  {
    if initials == [] then res else GatherAll(nodes, Gather(nodes, res, initials[0], None), initials[1..])
  }

  /** The states reachable from any of the `initials`. */
  function ReachAll(nodes: seq<StateNode>, initials: seq<nat>): (r: set<nat>)
    requires ValidGraph(nodes) && forall i :: 0 <= i < |initials| ==> initials[i] < |nodes|
    ensures forall t :: t in r ==> t < |nodes|
    decreases |initials|
  {
    if initials == [] then {} else Reach(nodes, initials[0]) + ReachAll(nodes, initials[1..])
  }

  /**
   * Walking every phase records exactly the states reachable from some
   * initial state and leaves other entries alone.
   */
  lemma {:induction false} GatherAllSpec(nodes: seq<StateNode>, res: map<uint32, Entry>, initials: seq<nat>)
    requires ValidGraph(nodes) && forall i :: 0 <= i < |initials| ==> initials[i] < |nodes|
    ensures var r := GatherAll(nodes, res, initials);
      && r.Keys == res.Keys + Ids(nodes, ReachAll(nodes, initials))
      && (forall id :: id in res && id !in Ids(nodes, ReachAll(nodes, initials)) ==> r[id] == res[id])
    decreases |initials|
  {
    if initials != [] {
      GatherSpec(nodes, res, initials[0], None);
      var res' := Gather(nodes, res, initials[0], None);
      GatherAllSpec(nodes, res', initials[1..]);
      IdsUnion(nodes, Reach(nodes, initials[0]), ReachAll(nodes, initials[1..]));
    }
  }

  /** Walking every phase, each from no predecessor, keeps the lookup valid. */
  lemma {:induction false} GatherAllValid(nodes: seq<StateNode>, res: map<uint32, Entry>, initials: seq<nat>)
    requires ValidGraph(nodes) && forall i :: 0 <= i < |initials| ==> initials[i] < |nodes|
    requires EntriesValid(nodes, res)
    ensures EntriesValid(nodes, GatherAll(nodes, res, initials))
    decreases |initials|
  {
    if initials != [] {
      GatherValid(nodes, res, initials[0], None);
      GatherAllValid(nodes, Gather(nodes, res, initials[0], None), initials[1..]);
    }
  }

  /**
   * A phase's initial state that no later phase reaches keeps the entry its
   * own walk gave it: itself, with no predecessor.
   */
  lemma {:induction false} InitialHasNoPred(nodes: seq<StateNode>, res: map<uint32, Entry>, initials: seq<nat>, i: nat)
    requires ValidGraph(nodes) && forall j :: 0 <= j < |initials| ==> initials[j] < |nodes|
    requires i < |initials|
    requires forall j :: i < j < |initials| ==> initials[i] !in Reach(nodes, initials[j])
    ensures nodes[initials[i]].id in GatherAll(nodes, res, initials)
    ensures GatherAll(nodes, res, initials)[nodes[initials[i]].id] == Entry(initials[i], None)
    decreases |initials|
  {
    var res' := Gather(nodes, res, initials[0], None);
    GatherSpec(nodes, res, initials[0], None);
    if i == 0 {
      NotReachedKeepsEntry(nodes, res', initials[1..], initials[0]);
    } else {
      InitialHasNoPred(nodes, res', initials[1..], i - 1);
    }
  }

  /** A state none of the `initials` reaches keeps its entry through the walks. */
  lemma {:induction false} NotReachedKeepsEntry(nodes: seq<StateNode>, res: map<uint32, Entry>, initials: seq<nat>, s: nat)
    requires ValidGraph(nodes) && forall j :: 0 <= j < |initials| ==> initials[j] < |nodes|
    requires s < |nodes| && nodes[s].id in res
    requires forall j :: 0 <= j < |initials| ==> s !in Reach(nodes, initials[j])
    ensures nodes[s].id in GatherAll(nodes, res, initials)
    ensures GatherAll(nodes, res, initials)[nodes[s].id] == res[nodes[s].id]
    decreases |initials|
  {
    if initials != [] {
      GatherSpec(nodes, res, initials[0], None);
      var res' := Gather(nodes, res, initials[0], None);
      forall t | t in Reach(nodes, initials[0])
        ensures nodes[t].id != nodes[s].id
      {
        IdsUnique(nodes, t, s);
      }
      NotReachedKeepsEntry(nodes, res', initials[1..], s);
    }
  }

  // ---------------------------------------------------------------------------
  // The machine whose state durations are retrofitted

  /** A boss state machine: its state table, each phase's initial state, and each state's duration. */
  class Machine {
    const nodes: seq<StateNode>
    const initials: seq<nat>
    const durations: array<int>

    ghost predicate Valid()
    {
      && ValidGraph(nodes)
      && durations.Length == |nodes|
      && (forall i :: 0 <= i < |initials| ==> initials[i] < |nodes|)
    }

    constructor (nodes: seq<StateNode>, initials: seq<nat>, durations: seq<int>)
      requires ValidGraph(nodes) && |durations| == |nodes|
      requires forall i :: 0 <= i < |initials| ==> initials[i] < |nodes|
      ensures Valid() && fresh(this.durations)
      ensures this.nodes == nodes && this.initials == initials && this.durations[..] == durations
    {
      this.nodes := nodes;
      this.initials := initials;
      this.durations := new int[|durations|](i requires 0 <= i < |durations| => durations[i]);
    }
  }

  /** Walks every phase of `m` into a fresh lookup. */
  method GatherPhases(m: Machine) returns (lookup: StateLookup)
    requires m.Valid()
    ensures fresh(lookup)
    ensures lookup.entries == GatherAll(m.nodes, map[], m.initials)
  {
    lookup := new StateLookup();
    for i := 0 to |m.initials|
      invariant fresh(lookup)
      invariant GatherAll(m.nodes, lookup.entries, m.initials[i..]) == GatherAll(m.nodes, map[], m.initials)
    {
      assert m.initials[i..][1..] == m.initials[i + 1..];
      GatherStates(lookup, m.nodes, m.initials[i], None);
    }
  }

  // ---------------------------------------------------------------------------
  // The duration retrofit

  /** One recorded state of the encounter: its id and its exit time. */
  datatype Recorded = Recorded(id: uint32, exit: int)

  /** The duration writes of a replay, and the id whose lookup failed, if one did. */
  datatype Writes = Writes(w: map<nat, int>, missing: Option<uint32>)

  /** The durations after applying `w`: a written state takes the written value, every other keeps its own. */
  function Overlay(d: seq<int>, w: map<nat, int>): (r: seq<int>)
    ensures |r| == |d|
    ensures forall t :: 0 <= t < |d| ==> r[t] == (if t in w then w[t] else d[t])
  {
    seq(|d|, t requires 0 <= t < |d| => if t in w then w[t] else d[t])
  }

  /** The entry under the id of `p` holds `p`, and the state `p` was reached from has a smaller index. */
  lemma EntryPredBelow(nodes: seq<StateNode>, lookup: map<uint32, Entry>, p: nat)
    requires ValidGraph(nodes) && EntriesValid(nodes, lookup)
    requires p < |nodes| && nodes[p].id in lookup
    ensures lookup[nodes[p].id].state == p
    ensures lookup[nodes[p].id].pred.Some? ==> lookup[nodes[p].id].pred.value < p
  {
    var e := lookup[nodes[p].id];
    IdsUnique(nodes, e.state, p);
    if e.pred.Some? {
      var q := e.pred.value;
      assert EdgesForward(nodes, q);
      if nodes[q].next != Some(p) {
        var succs := nodes[q].successors.value;
        var j :| 0 <= j < |succs| && succs[j] == p;
      }
    }
  }

  /**
   * The zero writes of walking back from `p` along the lookup's predecessors
   * until the chain reaches `stop` or runs out; the lookup of a zeroed state's
   * own entry can fail after its write.
   */
  function ChainWrites(nodes: seq<StateNode>, lookup: map<uint32, Entry>, p: Option<nat>, stop: Option<nat>): (r: Writes)
    requires ValidGraph(nodes) && EntriesValid(nodes, lookup)
    requires p.Some? ==> p.value < |nodes|
    ensures forall t :: t in r.w ==> r.w[t] == 0 && p.Some? && t <= p.value && Some(t) != stop
    decreases if p.Some? then p.value + 1 else 0
  {
    if p.None? || p == stop then Writes(map[], None)
    else
      var id := nodes[p.value].id;
      if id !in lookup then Writes(map[p.value := 0], Some(id))
      else
        EntryPredBelow(nodes, lookup, p.value);
        var rest := ChainWrites(nodes, lookup, lookup[id].pred, stop);
        Writes(rest.w[p.value := 0], rest.missing)
  }

  /**
   * The writes of one replay step on top of `w`: recorded state `rec`, the
   * previous exit being `enter` and the previously recorded state `prev`.
   * The recorded id is looked up first and a miss stops the step before any
   * write; otherwise the chain from the recorded state's predecessor back to
   * `prev` is zeroed, and then the recorded state gets the time since `enter`.
   */
  function StepWrites(nodes: seq<StateNode>, lookup: map<uint32, Entry>, enter: int, prev: Option<nat>,
                      rec: Recorded, w: map<nat, int>): (r: Writes)
    requires ValidGraph(nodes) && EntriesValid(nodes, lookup)
    ensures r.missing.None? ==> rec.id in lookup
  {
    if rec.id !in lookup then Writes(w, Some(rec.id))
    else
      var cur := lookup[rec.id];
      var chain := ChainWrites(nodes, lookup, cur.pred, prev);
      if chain.missing.Some? then Writes(w + chain.w, chain.missing)
      else Writes((w + chain.w)[cur.state := rec.exit - enter], None)
  }

  /**
   * The writes of replaying `recs` from time `enter`, the previously recorded
   * state being `prev`, on top of the writes `w` already made; the first step
   * that fails ends the replay.
   */
  function Retro(nodes: seq<StateNode>, lookup: map<uint32, Entry>, enter: int, prev: Option<nat>,
                 recs: seq<Recorded>, w: map<nat, int>): Writes
    requires ValidGraph(nodes) && EntriesValid(nodes, lookup)
    decreases |recs|
  {
    if recs == [] then Writes(w, None)
    else
      var st := StepWrites(nodes, lookup, enter, prev, recs[0], w);
      if st.missing.Some? then st
      else Retro(nodes, lookup, recs[0].exit, Some(lookup[recs[0].id].state), recs[1..], st.w)
  }

  lemma OverlayWrite(d: seq<int>, w: map<nat, int>, t: nat, v: int)
    requires t < |d|
    ensures Overlay(d, w)[t := v] == Overlay(d, w[t := v])
  {
  }

  /** Applying `w1` and then `w2` is applying their union, `w2` winning. */
  lemma OverlayCompose(d: seq<int>, w1: map<nat, int>, w2: map<nat, int>)
    ensures Overlay(Overlay(d, w1), w2) == Overlay(d, w1 + w2)
  {
  }

  /** One step back along the chain, as the walk in `ZeroChain` takes it. */
  lemma ChainStep(nodes: seq<StateNode>, lookup: map<uint32, Entry>, p: nat, stop: Option<nat>)
    requires ValidGraph(nodes) && EntriesValid(nodes, lookup)
    requires p < |nodes| && Some(p) != stop
    ensures var c := ChainWrites(nodes, lookup, Some(p), stop);
      var id := nodes[p].id;
      if id !in lookup then c == Writes(map[p := 0], Some(id))
      else
        var q := lookup[id].pred;
        && (q.Some? ==> q.value < p)
        && var rest := ChainWrites(nodes, lookup, q, stop);
        && p !in rest.w
        && c == Writes(rest.w[p := 0], rest.missing)
  {
    if nodes[p].id in lookup {
      EntryPredBelow(nodes, lookup, p);
    }
  }

  lemma MapShift(cw: map<nat, int>, rest: map<nat, int>, p: nat, v: int)
    requires p !in rest
    ensures cw + rest[p := v] == cw[p := v] + rest
  {
  }

  /** The bookkeeping of one iteration of `ZeroChain`: `cw` holds the writes made so far. */
  lemma ChainAdvance(nodes: seq<StateNode>, lookup: map<uint32, Entry>, cw: map<nat, int>, p: nat, stop: Option<nat>)
    requires ValidGraph(nodes) && EntriesValid(nodes, lookup)
    requires p < |nodes| && Some(p) != stop
    ensures var c := ChainWrites(nodes, lookup, Some(p), stop);
      var id := nodes[p].id;
      if id !in lookup then c.missing == Some(id) && cw + c.w == cw[p := 0]
      else
        var q := lookup[id].pred;
        && (q.Some? ==> q.value < p)
        && var rest := ChainWrites(nodes, lookup, q, stop);
        && cw + c.w == cw[p := 0] + rest.w
        && c.missing == rest.missing
  {
    ChainStep(nodes, lookup, p, stop);
    var id := nodes[p].id;
    if id in lookup {
      MapShift(cw, ChainWrites(nodes, lookup, lookup[id].pred, stop).w, p, 0);
    } else {
      calc {
        cw + ChainWrites(nodes, lookup, Some(p), stop).w;
        cw + map[p := 0];
        cw[p := 0];
      }
    }
  }

  /**
   * The inner loop of one replay step: walking back from `p0`, zero each
   * state on the chain until `stop` or the end of the chain, looking up the
   * next predecessor after each write.
   */
  method ZeroChain(m: Machine, lookup: map<uint32, Entry>, p0: Option<nat>, stop: Option<nat>)
    returns (missing: Option<uint32>)
    requires m.Valid() && EntriesValid(m.nodes, lookup)
    requires p0.Some? ==> p0.value < |m.nodes|
    modifies m.durations
    ensures var c := ChainWrites(m.nodes, lookup, p0, stop);
      m.durations[..] == Overlay(old(m.durations[..]), c.w) && missing == c.missing
  {
    ghost var d0 := m.durations[..];
    ghost var cw: map<nat, int> := map[];
    var p: Option<nat> := p0;
    while p != stop && p.Some?
      invariant p.Some? ==> p.value < |m.nodes|
      invariant ChainWrites(m.nodes, lookup, p0, stop).w == cw + ChainWrites(m.nodes, lookup, p, stop).w
      invariant ChainWrites(m.nodes, lookup, p0, stop).missing == ChainWrites(m.nodes, lookup, p, stop).missing
      invariant m.durations[..] == Overlay(d0, cw)
      decreases if p.Some? then p.value + 1 else 0
    {
      ChainAdvance(m.nodes, lookup, cw, p.value, stop);
      OverlayWrite(d0, cw, p.value, 0);
      m.durations[p.value] := 0;
      cw := cw[p.value := 0];
      var id := m.nodes[p.value].id;
      if id !in lookup {
        return Some(id);
      }
      p := lookup[id].pred;
    }
    missing := None;
  }

  /**
   * The body of the replay loop for one recorded state, on the durations of
   * `m`; `reached` is the state whose duration it set.
   */
  method ReplayStep(m: Machine, lookup: map<uint32, Entry>, enter: int, prev: Option<nat>, rec: Recorded,
                    ghost d0: seq<int>, ghost w: map<nat, int>)
    returns (missing: Option<uint32>, reached: nat)
    requires m.Valid() && EntriesValid(m.nodes, lookup)
    requires m.durations[..] == Overlay(d0, w)
    modifies m.durations
    ensures var st := StepWrites(m.nodes, lookup, enter, prev, rec, w);
      && m.durations[..] == Overlay(d0, st.w) && missing == st.missing
      && (missing.None? ==> reached == lookup[rec.id].state && reached < |m.nodes|)
  {
    ghost var st := StepWrites(m.nodes, lookup, enter, prev, rec, w);
    if rec.id !in lookup {
      return Some(rec.id), 0;
    }
    var cur := lookup[rec.id];
    ghost var chain := ChainWrites(m.nodes, lookup, cur.pred, prev);
    assert st == if chain.missing.Some? then Writes(w + chain.w, chain.missing)
                 else Writes((w + chain.w)[cur.state := rec.exit - enter], None);
    missing := ZeroChain(m, lookup, cur.pred, prev);
    OverlayCompose(d0, w, chain.w);
    assert m.durations[..] == Overlay(d0, w + chain.w);
    reached := cur.state;
    if missing.Some? {
      return;
    }
    OverlayWrite(d0, w + chain.w, cur.state, rec.exit - enter);
    m.durations[cur.state] := rec.exit - enter;
  }

  /**
   * Replays the recorded states, writing the durations of `m` in place; the
   * result is the id whose lookup failed, if one did, with the writes made
   * before the failure kept.
   */
  method RetrofitDurations(m: Machine, lookup: map<uint32, Entry>, start: int, recs: seq<Recorded>)
    returns (err: Option<uint32>)
    requires m.Valid() && EntriesValid(m.nodes, lookup)
    modifies m.durations
    ensures var r := Retro(m.nodes, lookup, start, None, recs, map[]);
      m.durations[..] == Overlay(old(m.durations[..]), r.w) && err == r.missing
  {
    ghost var d0 := m.durations[..];
    ghost var w: map<nat, int> := map[];
    var enter := start;
    var prev: Option<nat> := None;
    for i := 0 to |recs|
      invariant m.durations[..] == Overlay(d0, w)
      invariant Retro(m.nodes, lookup, enter, prev, recs[i..], w) == Retro(m.nodes, lookup, start, None, recs, map[])
    {
      assert recs[i..][0] == recs[i] && recs[i..][1..] == recs[i + 1..];
      ghost var st := StepWrites(m.nodes, lookup, enter, prev, recs[i], w);
      var missing, reached := ReplayStep(m, lookup, enter, prev, recs[i], d0, w);
      if missing.Some? {
        return missing;
      }
      w := st.w;
      enter := recs[i].exit;
      prev := Some(reached);
    }
    err := None;
  }

  // ---------------------------------------------------------------------------
  // What the replay promises

  /** On a valid lookup, walking back from a listed state never reaches an unlisted one. */
  lemma {:induction false} ChainNeverMisses(nodes: seq<StateNode>, lookup: map<uint32, Entry>, p: Option<nat>, stop: Option<nat>)
    requires ValidGraph(nodes) && EntriesValid(nodes, lookup)
    requires p.Some? ==> p.value < |nodes| && nodes[p.value].id in lookup
    ensures ChainWrites(nodes, lookup, p, stop).missing.None?
    decreases if p.Some? then p.value + 1 else 0
  {
    if p.Some? && p != stop {
      EntryPredBelow(nodes, lookup, p.value);
      ChainNeverMisses(nodes, lookup, lookup[nodes[p.value].id].pred, stop);
    }
  }

  /** On a valid lookup the replay fails exactly when some recorded id is not in the lookup. */
  lemma {:induction false} RetroMissing(nodes: seq<StateNode>, lookup: map<uint32, Entry>, enter: int, prev: Option<nat>,
                                        recs: seq<Recorded>, w: map<nat, int>)
    requires ValidGraph(nodes) && EntriesValid(nodes, lookup)
    ensures Retro(nodes, lookup, enter, prev, recs, w).missing.None? <==> forall i :: 0 <= i < |recs| ==> recs[i].id in lookup
    decreases |recs|
  {
    if recs != [] && recs[0].id in lookup {
      ChainNeverMisses(nodes, lookup, lookup[recs[0].id].pred, prev);
      var st := StepWrites(nodes, lookup, enter, prev, recs[0], w);
      RetroMissing(nodes, lookup, recs[0].exit, Some(lookup[recs[0].id].state), recs[1..], st.w);
      assert forall i :: 1 <= i < |recs| ==> recs[i] == recs[1..][i - 1];
    }
  }

  /** When the replay fails on a valid lookup, it names the first recorded id not in the lookup. */
  lemma {:induction false} RetroFirstMissing(nodes: seq<StateNode>, lookup: map<uint32, Entry>, enter: int, prev: Option<nat>,
                                             recs: seq<Recorded>, w: map<nat, int>, i: nat)
    requires ValidGraph(nodes) && EntriesValid(nodes, lookup)
    requires i < |recs| && recs[i].id !in lookup
    requires forall j :: 0 <= j < i ==> recs[j].id in lookup
    ensures Retro(nodes, lookup, enter, prev, recs, w).missing == Some(recs[i].id)
    decreases |recs|
  {
    if i > 0 {
      ChainNeverMisses(nodes, lookup, lookup[recs[0].id].pred, prev);
      var st := StepWrites(nodes, lookup, enter, prev, recs[0], w);
      assert forall j :: 0 <= j < i - 1 ==> recs[1..][j] == recs[j + 1];
      RetroFirstMissing(nodes, lookup, recs[0].exit, Some(lookup[recs[0].id].state), recs[1..], st.w, i - 1);
    }
  }

  lemma TailListed(lookup: map<uint32, Entry>, recs: seq<Recorded>)
    requires recs != [] && forall i :: 0 <= i < |recs| ==> recs[i].id in lookup
    ensures forall i :: 0 <= i < |recs[1..]| ==> recs[1..][i].id in lookup
  {
    forall i | 0 <= i < |recs[1..]|
      ensures recs[1..][i].id in lookup
    {
      assert recs[1..][i] == recs[i + 1];
    }
  }

  /**
   * One step with a listed id zeroes the chain it walks and then gives the
   * recorded state the time since `enter`; the chain lies below that state,
   * so the zeros survive.
   */
  lemma OneStepFinal(nodes: seq<StateNode>, lookup: map<uint32, Entry>, enter: int, prev: Option<nat>,
                     rec: Recorded, w: map<nat, int>)
    requires ValidGraph(nodes) && EntriesValid(nodes, lookup)
    requires rec.id in lookup
    ensures var cur := lookup[rec.id];
      (cur.pred.Some? ==> cur.pred.value < cur.state < |nodes|)
    ensures var st := StepWrites(nodes, lookup, enter, prev, rec, w);
      var cur := lookup[rec.id];
      && st.missing.None?
      && cur.state in st.w && st.w[cur.state] == rec.exit - enter
      && forall t :: t in ChainWrites(nodes, lookup, cur.pred, prev).w ==> t in st.w && st.w[t] == 0
  {
    var cur := lookup[rec.id];
    EntryPredBelow(nodes, lookup, cur.state);
    ChainNeverMisses(nodes, lookup, cur.pred, prev);
    var chain := ChainWrites(nodes, lookup, cur.pred, prev);
    var st := StepWrites(nodes, lookup, enter, prev, rec, w);
    assert st.w == (w + chain.w)[cur.state := rec.exit - enter];
  }

  /** The entry of the last recorded state. */
  ghost function LastEntry(lookup: map<uint32, Entry>, recs: seq<Recorded>): Entry
    requires recs != [] && recs[|recs| - 1].id in lookup
  {
    lookup[recs[|recs| - 1].id]
  }

  /** The state recorded before the last one, or `prev` when there is only one. */
  ghost function PrevState(lookup: map<uint32, Entry>, prev: Option<nat>, recs: seq<Recorded>): Option<nat>
    requires recs != [] && (|recs| > 1 ==> recs[|recs| - 2].id in lookup)
  {
    if |recs| == 1 then prev else Some(lookup[recs[|recs| - 2].id].state)
  }

  /**
   * After a replay that did not fail, the last recorded state holds the time
   * from the previous exit (or `enter`) to its own exit, and every state its
   * step zeroed, walking back to the state recorded before it, is still zero.
   */
  lemma {:induction false} LastStepFinal(nodes: seq<StateNode>, lookup: map<uint32, Entry>, enter: int, prev: Option<nat>,
                                         recs: seq<Recorded>, w: map<nat, int>)
    requires ValidGraph(nodes) && EntriesValid(nodes, lookup)
    requires |recs| > 0 && forall i :: 0 <= i < |recs| ==> recs[i].id in lookup
    ensures LastEntry(lookup, recs).pred.Some? ==> LastEntry(lookup, recs).pred.value < |nodes|
    ensures && LastEntry(lookup, recs).state in Retro(nodes, lookup, enter, prev, recs, w).w
            && Retro(nodes, lookup, enter, prev, recs, w).w[LastEntry(lookup, recs).state] == Gap(enter, recs, |recs| - 1)
    ensures forall t :: t in ChainWrites(nodes, lookup, LastEntry(lookup, recs).pred, PrevState(lookup, prev, recs)).w ==>
              t in Retro(nodes, lookup, enter, prev, recs, w).w && Retro(nodes, lookup, enter, prev, recs, w).w[t] == 0
    decreases |recs|
  {
    var n := |recs|;
    OneStepFinal(nodes, lookup, enter, prev, recs[0], w);
    var s0 := Some(lookup[recs[0].id].state);
    var st := StepWrites(nodes, lookup, enter, prev, recs[0], w);
    var tail := recs[1..];
    assert Retro(nodes, lookup, enter, prev, recs, w) == Retro(nodes, lookup, recs[0].exit, s0, tail, st.w);
    if n == 1 {
      assert Retro(nodes, lookup, recs[0].exit, s0, tail, st.w) == Writes(st.w, None);
    } else {
      TailListed(lookup, recs);
      LastStepFinal(nodes, lookup, recs[0].exit, s0, tail, st.w);
      assert tail[n - 2] == recs[n - 1];
      assert LastEntry(lookup, tail) == LastEntry(lookup, recs);
      if n > 2 {
        assert tail[n - 3] == recs[n - 2];
      }
      assert PrevState(lookup, s0, tail) == PrevState(lookup, prev, recs);
      assert Gap(recs[0].exit, tail, n - 2) == Gap(enter, recs, n - 1);
    }
  }

  /** The time between the exit of recorded state `i` and that of the one before it (or `enter`). */
  function Gap(enter: int, recs: seq<Recorded>, i: nat): int
    requires i < |recs|
  {
    recs[i].exit - (if i == 0 then enter else recs[i - 1].exit)
  }

  lemma GapShift(enter: int, recs: seq<Recorded>)
    requires recs != []
    ensures forall i :: 1 <= i < |recs| ==> recs[1..][i - 1] == recs[i] && Gap(enter, recs, i) == Gap(recs[0].exit, recs[1..], i - 1)
  {
    forall i | 1 <= i < |recs|
      ensures recs[1..][i - 1] == recs[i] && Gap(enter, recs, i) == Gap(recs[0].exit, recs[1..], i - 1)
    {
      assert recs[1..][i - 1] == recs[i];
      if i > 1 {
        assert recs[1..][i - 2] == recs[i - 1];
      }
    }
  }

  /** The summed durations of the first `n` recorded states in `d`. */
  function RecordedSum(d: seq<int>, lookup: map<uint32, Entry>, recs: seq<Recorded>, n: nat): int
    requires n <= |recs|
    requires forall i :: 0 <= i < n ==> recs[i].id in lookup && lookup[recs[i].id].state < |d|
    decreases n
  {
    if n == 0 then 0 else RecordedSum(d, lookup, recs, n - 1) + d[lookup[recs[n - 1].id].state]
  }

  lemma {:induction false} GapsTelescope(d: seq<int>, lookup: map<uint32, Entry>, start: int, recs: seq<Recorded>, n: nat)
    requires 0 < n <= |recs|
    requires forall i :: 0 <= i < n ==> recs[i].id in lookup && lookup[recs[i].id].state < |d|
    requires forall i :: 0 <= i < n ==> d[lookup[recs[i].id].state] == Gap(start, recs, i)
    ensures RecordedSum(d, lookup, recs, n) == recs[n - 1].exit - start
    decreases n
  {
    if n > 1 {
      GapsTelescope(d, lookup, start, recs, n - 1);
    }
  }

  // ---------------------------------------------------------------------------
  // Which states a replay writes, and with what

  /** Every recorded id is in the lookup. */
  ghost predicate AllListed(lookup: map<uint32, Entry>, recs: seq<Recorded>)
  {
    forall i :: 0 <= i < |recs| ==> recs[i].id in lookup
  }

  /** The state recorded at position `i`. */
  ghost function StateOf(lookup: map<uint32, Entry>, recs: seq<Recorded>, i: nat): nat
    requires i < |recs| && recs[i].id in lookup
  {
    lookup[recs[i].id].state
  }

  /** Where the walk back of step `i` stops: the state recorded before it, or `prev` for the first step. */
  ghost function StopOf(lookup: map<uint32, Entry>, prev: Option<nat>, recs: seq<Recorded>, i: nat): Option<nat>
    requires i < |recs| && AllListed(lookup, recs)
  {
    if i == 0 then prev else Some(StateOf(lookup, recs, i - 1))
  }

  /**
   * Step `i` of a replay writes state `t`: `t` is the state the step records,
   * or one on the chain it zeroes walking back from that state's predecessor.
   */
  ghost predicate Touches(nodes: seq<StateNode>, lookup: map<uint32, Entry>, prev: Option<nat>,
                          recs: seq<Recorded>, i: nat, t: nat)
    requires ValidGraph(nodes) && EntriesValid(nodes, lookup)
    requires i < |recs| && AllListed(lookup, recs)
  {
    || t == StateOf(lookup, recs, i)
    || t in ChainWrites(nodes, lookup, lookup[recs[i].id].pred, StopOf(lookup, prev, recs, i)).w
  }

  /** No step of the replay writes state `t`. */
  ghost predicate Untouched(nodes: seq<StateNode>, lookup: map<uint32, Entry>, prev: Option<nat>,
                            recs: seq<Recorded>, t: nat)
    requires ValidGraph(nodes) && EntriesValid(nodes, lookup) && AllListed(lookup, recs)
  {
    forall j :: 0 <= j < |recs| ==> !Touches(nodes, lookup, prev, recs, j, t)
  }

  /** One step with a listed id: the states it writes and the value each one gets. */
  lemma StepEffect(nodes: seq<StateNode>, lookup: map<uint32, Entry>, enter: int, prev: Option<nat>,
                   rec: Recorded, w: map<nat, int>)
    requires ValidGraph(nodes) && EntriesValid(nodes, lookup)
    requires rec.id in lookup
    ensures var st := StepWrites(nodes, lookup, enter, prev, rec, w);
      var cur := lookup[rec.id];
      var chain := ChainWrites(nodes, lookup, cur.pred, prev).w;
      && st.missing.None?
      && (forall t :: t in st.w <==> t in w || t == cur.state || t in chain)
      && (forall t :: t in st.w ==> st.w[t] == if t == cur.state then rec.exit - enter else if t in chain then 0 else w[t])
  {
    OneStepFinal(nodes, lookup, enter, prev, rec, w);
    var cur := lookup[rec.id];
    var chain := ChainWrites(nodes, lookup, cur.pred, prev);
    assert StepWrites(nodes, lookup, enter, prev, rec, w).w == (w + chain.w)[cur.state := rec.exit - enter];
  }

  /** Dropping the first recorded state shifts the later steps down by one. */
  lemma TouchesShift(nodes: seq<StateNode>, lookup: map<uint32, Entry>, prev: Option<nat>, recs: seq<Recorded>)
    requires ValidGraph(nodes) && EntriesValid(nodes, lookup)
    requires recs != [] && AllListed(lookup, recs)
    ensures AllListed(lookup, recs[1..])
    ensures forall j, t :: 0 <= j < |recs| - 1 ==>
      (Touches(nodes, lookup, prev, recs, j + 1, t) <==> Touches(nodes, lookup, Some(StateOf(lookup, recs, 0)), recs[1..], j, t))
  {
    TailListed(lookup, recs);
    var s0 := Some(StateOf(lookup, recs, 0));
    forall j, t | 0 <= j < |recs| - 1
      ensures Touches(nodes, lookup, prev, recs, j + 1, t) <==> Touches(nodes, lookup, s0, recs[1..], j, t)
    {
      assert recs[1..][j] == recs[j + 1];
      if j > 0 {
        assert recs[1..][j - 1] == recs[j];
      }
      assert StopOf(lookup, prev, recs, j + 1) == StopOf(lookup, s0, recs[1..], j);
    }
  }

  /**
   * The frame of a replay that does not fail: a state no step writes keeps
   * the value `w` gave it, and stays unwritten if `w` did not write it.
   */
  lemma {:induction false} RetroUntouched(nodes: seq<StateNode>, lookup: map<uint32, Entry>, enter: int, prev: Option<nat>,
                                          recs: seq<Recorded>, w: map<nat, int>)
    requires ValidGraph(nodes) && EntriesValid(nodes, lookup)
    requires AllListed(lookup, recs)
    ensures var r := Retro(nodes, lookup, enter, prev, recs, w);
      && r.missing.None?
      && forall t :: Untouched(nodes, lookup, prev, recs, t) ==> (t in r.w <==> t in w) && (t in w ==> r.w[t] == w[t])
    decreases |recs|
  {
    if recs != [] {
      var s0 := Some(StateOf(lookup, recs, 0));
      var st := StepWrites(nodes, lookup, enter, prev, recs[0], w);
      var tail := recs[1..];
      StepEffect(nodes, lookup, enter, prev, recs[0], w);
      TouchesShift(nodes, lookup, prev, recs);
      RetroUntouched(nodes, lookup, recs[0].exit, s0, tail, st.w);
      forall t | Untouched(nodes, lookup, prev, recs, t)
        ensures Untouched(nodes, lookup, s0, tail, t)
        ensures (t in st.w <==> t in w) && (t in w ==> st.w[t] == w[t])
      {
        assert !Touches(nodes, lookup, prev, recs, 0, t);
        forall k | 0 <= k < |tail|
          ensures !Touches(nodes, lookup, s0, tail, k, t)
        {
          assert !Touches(nodes, lookup, prev, recs, k + 1, t);
        }
      }
    }
  }

  /**
   * A replay writes only the states some step records or zeroes on its walk
   * back: it does not touch a state outside those chains.
   */
  lemma RetroFrame(nodes: seq<StateNode>, lookup: map<uint32, Entry>, enter: int, prev: Option<nat>,
                   recs: seq<Recorded>, w: map<nat, int>)
    requires ValidGraph(nodes) && EntriesValid(nodes, lookup)
    requires AllListed(lookup, recs)
    ensures forall t :: t in Retro(nodes, lookup, enter, prev, recs, w).w ==>
      t in w || exists j :: 0 <= j < |recs| && Touches(nodes, lookup, prev, recs, j, t)
  {
    RetroUntouched(nodes, lookup, enter, prev, recs, w);
  }

  /**
   * The value a replay leaves in state `t` is set by the last step that
   * writes `t`: that step's gap when `t` is the state it records, and zero
   * when `t` lies on the chain it walked back along.
   */
  lemma {:induction false} RetroLastWrite(nodes: seq<StateNode>, lookup: map<uint32, Entry>, enter: int, prev: Option<nat>,
                                          recs: seq<Recorded>, w: map<nat, int>, j: nat, t: nat)
    requires ValidGraph(nodes) && EntriesValid(nodes, lookup)
    requires AllListed(lookup, recs) && j < |recs|
    requires Touches(nodes, lookup, prev, recs, j, t)
    requires forall k :: j < k < |recs| ==> !Touches(nodes, lookup, prev, recs, k, t)
    ensures var r := Retro(nodes, lookup, enter, prev, recs, w);
      t in r.w && r.w[t] == if t == StateOf(lookup, recs, j) then Gap(enter, recs, j) else 0
    decreases |recs|
  {
    var s0 := Some(StateOf(lookup, recs, 0));
    var st := StepWrites(nodes, lookup, enter, prev, recs[0], w);
    var tail := recs[1..];
    StepEffect(nodes, lookup, enter, prev, recs[0], w);
    TouchesShift(nodes, lookup, prev, recs);
    assert Retro(nodes, lookup, enter, prev, recs, w) == Retro(nodes, lookup, recs[0].exit, s0, tail, st.w);
    if j == 0 {
      RetroUntouched(nodes, lookup, recs[0].exit, s0, tail, st.w);
      forall k | 0 <= k < |tail|
        ensures !Touches(nodes, lookup, s0, tail, k, t)
      {
        assert !Touches(nodes, lookup, prev, recs, k + 1, t);
      }
      assert Untouched(nodes, lookup, s0, tail, t);
    } else {
      forall k | j - 1 < k < |tail|
        ensures !Touches(nodes, lookup, s0, tail, k, t)
      {
        assert !Touches(nodes, lookup, prev, recs, k + 1, t);
      }
      RetroLastWrite(nodes, lookup, recs[0].exit, s0, tail, st.w, j - 1, t);
      GapShift(enter, recs);
      assert tail[j - 1] == recs[j];
    }
  }

  /** A recorded state ends with its own gap unless a later step writes it again. */
  lemma RecordKeepsGap(nodes: seq<StateNode>, lookup: map<uint32, Entry>, enter: int, prev: Option<nat>,
                       recs: seq<Recorded>, w: map<nat, int>, i: nat)
    requires ValidGraph(nodes) && EntriesValid(nodes, lookup)
    requires AllListed(lookup, recs) && i < |recs|
    requires forall k :: i < k < |recs| ==> !Touches(nodes, lookup, prev, recs, k, StateOf(lookup, recs, i))
    ensures var r := Retro(nodes, lookup, enter, prev, recs, w);
      StateOf(lookup, recs, i) in r.w && r.w[StateOf(lookup, recs, i)] == Gap(enter, recs, i)
  {
    RetroLastWrite(nodes, lookup, enter, prev, recs, w, i, StateOf(lookup, recs, i));
  }

  /** Walking back from `p` along the lookup's predecessors reaches `stop`. */
  ghost predicate ChainReaches(nodes: seq<StateNode>, lookup: map<uint32, Entry>, p: Option<nat>, stop: Option<nat>)
    requires ValidGraph(nodes) && EntriesValid(nodes, lookup)
    requires p.Some? ==> p.value < |nodes|
    decreases if p.Some? then p.value + 1 else 0
  {
    || p == stop
    || (&& p.Some?
        && nodes[p.value].id in lookup
        && (EntryPredBelow(nodes, lookup, p.value);
            ChainReaches(nodes, lookup, lookup[nodes[p.value].id].pred, stop)))
  }

  /** A walk that reaches state `q` starts at or above `q` and zeroes only states above it. */
  lemma {:induction false} ChainAbove(nodes: seq<StateNode>, lookup: map<uint32, Entry>, p: Option<nat>, q: nat)
    requires ValidGraph(nodes) && EntriesValid(nodes, lookup)
    requires p.Some? ==> p.value < |nodes|
    requires ChainReaches(nodes, lookup, p, Some(q))
    ensures p.Some? && q <= p.value
    ensures forall t :: t in ChainWrites(nodes, lookup, p, Some(q)).w ==> q < t
    decreases if p.Some? then p.value + 1 else 0
  {
    if p != Some(q) {
      EntryPredBelow(nodes, lookup, p.value);
      ChainAbove(nodes, lookup, lookup[nodes[p.value].id].pred, q);
    }
  }

  /**
   * Step `i` of a replay is linked to the one before it: its recorded state
   * is reached, walking back along the lookup's predecessors, from the state
   * recorded before it; or it is stored with no predecessor (a phase's
   * initial state, whose walk back is empty) and lies after that state in
   * the table.
   */
  ghost predicate LinkedAt(nodes: seq<StateNode>, lookup: map<uint32, Entry>, recs: seq<Recorded>, i: nat)
    requires ValidGraph(nodes) && EntriesValid(nodes, lookup)
    requires AllListed(lookup, recs) && 0 < i < |recs|
  {
    || ChainReaches(nodes, lookup, lookup[recs[i].id].pred, Some(StateOf(lookup, recs, i - 1)))
    || (lookup[recs[i].id].pred.None? && StateOf(lookup, recs, i - 1) < StateOf(lookup, recs, i))
  }

  /**
   * A linked replay: every recorded state after the first is linked to the
   * one before it. A run along stored predecessors is linked, and so is one
   * that enters the phases in the order their states lie in the table; a run
   * through a merge by a branch other than the one the lookup stored is not.
   */
  ghost predicate Linked(nodes: seq<StateNode>, lookup: map<uint32, Entry>, recs: seq<Recorded>)
    requires ValidGraph(nodes) && EntriesValid(nodes, lookup)
  {
    && AllListed(lookup, recs)
    && forall i :: 0 < i < |recs| ==> LinkedAt(nodes, lookup, recs, i)
  }

  /** In a linked replay the recorded states climb strictly through the table. */
  lemma {:induction false} LinkedClimbs(nodes: seq<StateNode>, lookup: map<uint32, Entry>, recs: seq<Recorded>, k: nat)
    requires ValidGraph(nodes) && EntriesValid(nodes, lookup)
    requires Linked(nodes, lookup, recs) && k < |recs|
    ensures forall i :: 0 <= i < k ==> StateOf(lookup, recs, i) < StateOf(lookup, recs, k)
    decreases k
  {
    if k > 0 {
      LinkedClimbs(nodes, lookup, recs, k - 1);
      assert LinkedAt(nodes, lookup, recs, k);
      if lookup[recs[k].id].pred.Some? {
        EntryPredBelow(nodes, lookup, StateOf(lookup, recs, k));
        ChainAbove(nodes, lookup, lookup[recs[k].id].pred, StateOf(lookup, recs, k - 1));
      }
    }
  }

  /** In a linked replay no step writes a state recorded by an earlier step. */
  lemma LinkedNoRewrite(nodes: seq<StateNode>, lookup: map<uint32, Entry>, prev: Option<nat>, recs: seq<Recorded>,
                        i: nat, k: nat)
    requires ValidGraph(nodes) && EntriesValid(nodes, lookup)
    requires Linked(nodes, lookup, recs) && i < k < |recs|
    ensures !Touches(nodes, lookup, prev, recs, k, StateOf(lookup, recs, i))
  {
    var s, q := StateOf(lookup, recs, i), StateOf(lookup, recs, k - 1);
    var pred := lookup[recs[k].id].pred;
    LinkedClimbs(nodes, lookup, recs, k - 1);
    assert s <= q;
    assert LinkedAt(nodes, lookup, recs, k);
    assert StopOf(lookup, prev, recs, k) == Some(q);
    if pred.None? {
      assert ChainWrites(nodes, lookup, pred, Some(q)).w == map[];
    } else {
      ChainAbove(nodes, lookup, pred, q);
      EntryPredBelow(nodes, lookup, StateOf(lookup, recs, k));
    }
    assert s < StateOf(lookup, recs, k);
  }

  /**
   * In a linked replay every recorded state ends with its own gap: the time
   * from the previous exit (or `enter`) to its own exit.
   */
  lemma LinkedReplay(nodes: seq<StateNode>, lookup: map<uint32, Entry>, enter: int, prev: Option<nat>,
                     recs: seq<Recorded>, w: map<nat, int>)
    requires ValidGraph(nodes) && EntriesValid(nodes, lookup)
    requires Linked(nodes, lookup, recs)
    ensures var r := Retro(nodes, lookup, enter, prev, recs, w);
      && r.missing.None?
      && forall i :: 0 <= i < |recs| ==>
           StateOf(lookup, recs, i) in r.w && r.w[StateOf(lookup, recs, i)] == Gap(enter, recs, i)
  {
    RetroUntouched(nodes, lookup, enter, prev, recs, w);
    forall i | 0 <= i < |recs|
      ensures var r := Retro(nodes, lookup, enter, prev, recs, w);
        StateOf(lookup, recs, i) in r.w && r.w[StateOf(lookup, recs, i)] == Gap(enter, recs, i)
    {
      forall k | i < k < |recs|
        ensures !Touches(nodes, lookup, prev, recs, k, StateOf(lookup, recs, i))
      {
        LinkedNoRewrite(nodes, lookup, prev, recs, i, k);
      }
      RecordKeepsGap(nodes, lookup, enter, prev, recs, w, i);
    }
  }

  /**
   * After a linked replay from the encounter start, the durations of the
   * recorded states add up to the last exit time minus the start.
   */
  lemma LinkedReplaySum(nodes: seq<StateNode>, lookup: map<uint32, Entry>, start: int, recs: seq<Recorded>, d: seq<int>)
    requires ValidGraph(nodes) && EntriesValid(nodes, lookup) && |d| == |nodes|
    requires |recs| > 0 && Linked(nodes, lookup, recs)
    ensures forall i :: 0 <= i < |recs| ==> lookup[recs[i].id].state < |d|
    ensures RecordedSum(Overlay(d, Retro(nodes, lookup, start, None, recs, map[]).w), lookup, recs, |recs|)
      == recs[|recs| - 1].exit - start
  {
    LinkedReplay(nodes, lookup, start, None, recs, map[]);
    var final := Overlay(d, Retro(nodes, lookup, start, None, recs, map[]).w);
    GapsTelescope(final, lookup, start, recs, |recs|);
  }

  /** A diamond: S (0) goes to A (1) and may go to B (2); both go on to Y (3). */
  function Diamond(): seq<StateNode>
  {
    [StateNode(10, Some(1), Some([1, 2])), StateNode(11, Some(3), None), StateNode(12, Some(3), None), StateNode(13, None, None)]
  }

  lemma DiamondValid()
    ensures ValidGraph(Diamond())
  {
    var nodes := Diamond();
    assert EdgesForward(nodes, 0) && EdgesForward(nodes, 1) && EdgesForward(nodes, 2) && EdgesForward(nodes, 3);
    forall i, j | 0 <= i < |nodes| && 0 <= j < |nodes| && SameId(nodes, i, j)
      ensures i == j
    {
    }
  }

  /** The lookup the walk builds on the diamond: Y was reached last from B. */
  function DiamondLookup(): map<uint32, Entry>
  {
    map[10 := Entry(0, None), 11 := Entry(1, Some(0)), 12 := Entry(2, Some(0)), 13 := Entry(3, Some(2))]
  }

  /** A run through the diamond along its first branch: S, A and Y, leaving at times 5, 8 and 12. */
  function DiamondRun(): seq<Recorded>
  {
    [Recorded(10, 5), Recorded(11, 8), Recorded(13, 12)]
  }

  lemma DiamondGathered()
    ensures ValidGraph(Diamond())
    ensures GatherAll(Diamond(), map[], [0]) == DiamondLookup()
    ensures EntriesValid(Diamond(), DiamondLookup())
  {
    DiamondValid();
    var nodes := Diamond();
    var m0 := map[10 := Entry(0, None)];
    var m1 := m0[11 := Entry(1, Some(0))];
    var m2 := m1[13 := Entry(3, Some(1))];
    var m3 := m2[12 := Entry(2, Some(0))];
    var m4 := m3[13 := Entry(3, Some(2))];
    assert Gather(nodes, m1, 3, Some(1)) == m2;
    assert Gather(nodes, m0, 1, Some(0)) == m2;
    assert Gather(nodes, m3, 3, Some(2)) == m4;
    assert Gather(nodes, m2, 2, Some(0)) == m4;
    assert GatherSuccessors(nodes, m4, 0, 2) == m4;
    assert GatherSuccessors(nodes, m2, 0, 1) == m4;
    assert GatherSuccessors(nodes, m2, 0, 0) == m4;
    assert Gather(nodes, map[], 0, None) == m4;
    assert [0][1..] == [];
    assert GatherAll(nodes, map[], [0]) == GatherAll(nodes, m4, []);
    GatherAllValid(nodes, map[], [0]);
  }

  /** The walk back from Y runs through B and S and never meets A. */
  lemma DiamondMissesA()
    ensures ValidGraph(Diamond()) && EntriesValid(Diamond(), DiamondLookup())
    ensures !ChainReaches(Diamond(), DiamondLookup(), Some(2), Some(1))
  {
    DiamondEntries();
    assert !ChainReaches(Diamond(), DiamondLookup(), None, Some(1));
    assert !ChainReaches(Diamond(), DiamondLookup(), Some(0), Some(1));
  }

  lemma DiamondNotLinked()
    ensures ValidGraph(Diamond()) && EntriesValid(Diamond(), DiamondLookup())
    ensures !Linked(Diamond(), DiamondLookup(), DiamondRun())
  {
    DiamondMissesA();
    var lookup, recs := DiamondLookup(), DiamondRun();
    assert lookup[recs[2].id].pred == Some(2) && StateOf(lookup, recs, 1) == 1;
    assert !LinkedAt(Diamond(), lookup, recs, 2);
  }

  /** Walking back from S towards A runs out after zeroing S. */
  lemma DiamondChainS()
    ensures ValidGraph(Diamond()) && EntriesValid(Diamond(), DiamondLookup())
    ensures ChainWrites(Diamond(), DiamondLookup(), Some(0), Some(1)) == Writes(map[0 := 0], None)
  {
    DiamondEntries();
    assert ChainWrites(Diamond(), DiamondLookup(), None, Some(1)) == Writes(map[], None);
  }

  /** The walks back the three steps of the run take. */
  lemma DiamondChains()
    ensures ValidGraph(Diamond()) && EntriesValid(Diamond(), DiamondLookup())
    ensures ChainWrites(Diamond(), DiamondLookup(), None, None) == Writes(map[], None)
    ensures ChainWrites(Diamond(), DiamondLookup(), Some(0), Some(0)) == Writes(map[], None)
    ensures ChainWrites(Diamond(), DiamondLookup(), Some(2), Some(1)) == Writes(map[0 := 0, 2 := 0], None)
  {
    DiamondChainS();
  }

  /** The writes of the three steps of the run. */
  lemma DiamondSteps()
    ensures ValidGraph(Diamond()) && EntriesValid(Diamond(), DiamondLookup())
    ensures StepWrites(Diamond(), DiamondLookup(), 0, None, DiamondRun()[0], map[]) == Writes(map[0 := 5], None)
    ensures StepWrites(Diamond(), DiamondLookup(), 5, Some(0), DiamondRun()[1], map[0 := 5]) == Writes(map[0 := 5, 1 := 3], None)
    ensures StepWrites(Diamond(), DiamondLookup(), 8, Some(1), DiamondRun()[2], map[0 := 5, 1 := 3])
      == Writes(map[0 := 0, 1 := 3, 2 := 0, 3 := 4], None)
  {
    DiamondChains();
    var lookup, recs := DiamondLookup(), DiamondRun();
    assert lookup[recs[0].id] == Entry(0, None);
    assert lookup[recs[1].id] == Entry(1, Some(0));
    assert lookup[recs[2].id] == Entry(3, Some(2));
    assert (map[0 := 5, 1 := 3] + map[0 := 0, 2 := 0])[3 := 4] == map[0 := 0, 1 := 3, 2 := 0, 3 := 4];
  }

  /** Replaying the run from time 0 zeroes B and the recorded S. */
  lemma DiamondReplay()
    ensures ValidGraph(Diamond()) && EntriesValid(Diamond(), DiamondLookup())
    ensures Retro(Diamond(), DiamondLookup(), 0, None, DiamondRun(), map[]) == Writes(map[0 := 0, 1 := 3, 2 := 0, 3 := 4], None)
  {
    DiamondSteps();
    var nodes, lookup, recs := Diamond(), DiamondLookup(), DiamondRun();
    var w1 := map[0 := 5];
    var w2 := map[0 := 5, 1 := 3];
    var w3 := map[0 := 0, 1 := 3, 2 := 0, 3 := 4];
    assert recs[1..][1..][1..] == [];
    assert Retro(nodes, lookup, 12, Some(3), [], w3) == Writes(w3, None);
    assert Retro(nodes, lookup, 8, Some(1), recs[1..][1..], w2) == Writes(w3, None);
    assert Retro(nodes, lookup, 5, Some(0), recs[1..], w1) == Writes(w3, None);
  }

  lemma DiamondEntries()
    ensures ValidGraph(Diamond()) && EntriesValid(Diamond(), DiamondLookup())
  {
    DiamondGathered();
  }

  /**
   * Where branches merge, the walk stores the branch it visited last as the
   * predecessor, and a replay along the other branch is not linked: replaying
   * S, A and Y from time 0 walks back from Y through B past A, zeroing the
   * recorded S, and the recorded durations sum to 7 instead of 12.
   */
  lemma MergeZeroesRecorded()
    ensures ValidGraph(Diamond()) && GatherAll(Diamond(), map[], [0]) == DiamondLookup()
    ensures EntriesValid(Diamond(), DiamondLookup()) && !Linked(Diamond(), DiamondLookup(), DiamondRun())
    ensures forall i :: 0 <= i < 3 ==> DiamondRun()[i].id in DiamondLookup() && DiamondLookup()[DiamondRun()[i].id].state < 4
    ensures var w := Retro(Diamond(), DiamondLookup(), 0, None, DiamondRun(), map[]).w;
      && StateOf(DiamondLookup(), DiamondRun(), 0) in w && w[StateOf(DiamondLookup(), DiamondRun(), 0)] == 0
      && RecordedSum(Overlay([0, 0, 0, 0], w), DiamondLookup(), DiamondRun(), 3) == 7
  {
    DiamondGathered();
    DiamondNotLinked();
    DiamondReplay();
    DiamondSum();
  }

  lemma DiamondSum()
    ensures forall i :: 0 <= i < 3 ==> DiamondRun()[i].id in DiamondLookup() && DiamondLookup()[DiamondRun()[i].id].state < 4
    ensures RecordedSum(Overlay([0, 0, 0, 0], map[0 := 0, 1 := 3, 2 := 0, 3 := 4]), DiamondLookup(), DiamondRun(), 3) == 7
  {
    var d := Overlay([0, 0, 0, 0], map[0 := 0, 1 := 3, 2 := 0, 3 := 4]);
    var lookup, recs := DiamondLookup(), DiamondRun();
    assert d[0] == 0 && d[1] == 3 && d[3] == 4;
    assert lookup[recs[0].id].state == 0 && lookup[recs[1].id].state == 1 && lookup[recs[2].id].state == 3;
    assert RecordedSum(d, lookup, recs, 1) == 0;
    assert RecordedSum(d, lookup, recs, 2) == 3;
  }

  /** Two phases, one after the other in the table: 1 goes to 2, and 3 goes to 4. */
  function TwoPhases(): seq<StateNode>
  {
    [StateNode(1, Some(1), None), StateNode(2, None, None), StateNode(3, Some(3), None), StateNode(4, None, None)]
  }

  /** The lookup the walk builds on the two phases: each initial state with no predecessor. */
  function TwoPhasesLookup(): map<uint32, Entry>
  {
    map[1 := Entry(0, None), 2 := Entry(1, Some(0)), 3 := Entry(2, None), 4 := Entry(3, Some(2))]
  }

  /** A run through both phases, leaving the four states at times 5, 8, 10 and 15. */
  function TwoPhasesRun(): seq<Recorded>
  {
    [Recorded(1, 5), Recorded(2, 8), Recorded(3, 10), Recorded(4, 15)]
  }

  lemma TwoPhasesGathered()
    ensures ValidGraph(TwoPhases())
    ensures GatherAll(TwoPhases(), map[], [0, 2]) == TwoPhasesLookup()
    ensures EntriesValid(TwoPhases(), TwoPhasesLookup())
  {
    var nodes := TwoPhases();
    assert EdgesForward(nodes, 0) && EdgesForward(nodes, 1) && EdgesForward(nodes, 2) && EdgesForward(nodes, 3);
    forall i, j | 0 <= i < |nodes| && 0 <= j < |nodes| && SameId(nodes, i, j)
      ensures i == j
    {
    }
    assert ValidGraph(nodes);
    var m0 := map[1 := Entry(0, None)];
    var m1 := m0[2 := Entry(1, Some(0))];
    var m2 := m1[3 := Entry(2, None)];
    var m3 := m2[4 := Entry(3, Some(2))];
    assert Gather(nodes, m0, 1, Some(0)) == m1;
    assert Gather(nodes, map[], 0, None) == m1;
    assert Gather(nodes, m2, 3, Some(2)) == m3;
    assert Gather(nodes, m1, 2, None) == m3;
    assert [0, 2][1..] == [2] && [2][1..] == [];
    assert GatherAll(nodes, m1, [2]) == GatherAll(nodes, m3, []);
    assert GatherAll(nodes, map[], [0, 2]) == GatherAll(nodes, m1, [2]);
    GatherAllValid(nodes, map[], [0, 2]);
  }

  /** Each step of the run is linked: the second phase is entered at its initial state, after the first. */
  lemma TwoPhasesSteps()
    ensures ValidGraph(TwoPhases()) && EntriesValid(TwoPhases(), TwoPhasesLookup())
    ensures AllListed(TwoPhasesLookup(), TwoPhasesRun())
    ensures LinkedAt(TwoPhases(), TwoPhasesLookup(), TwoPhasesRun(), 1)
    ensures LinkedAt(TwoPhases(), TwoPhasesLookup(), TwoPhasesRun(), 2)
    ensures LinkedAt(TwoPhases(), TwoPhasesLookup(), TwoPhasesRun(), 3)
  {
    TwoPhasesGathered();
    var lookup, recs := TwoPhasesLookup(), TwoPhasesRun();
    assert AllListed(lookup, recs);
    assert StateOf(lookup, recs, 0) == 0 && lookup[recs[1].id].pred == Some(0);
    assert StateOf(lookup, recs, 1) == 1 && lookup[recs[2].id].pred == None && StateOf(lookup, recs, 2) == 2;
    assert lookup[recs[3].id].pred == Some(2);
  }

  /** The run crosses into the second phase and is linked. */
  lemma TwoPhasesLinked()
    ensures ValidGraph(TwoPhases()) && EntriesValid(TwoPhases(), TwoPhasesLookup())
    ensures Linked(TwoPhases(), TwoPhasesLookup(), TwoPhasesRun())
  {
    TwoPhasesSteps();
  }

  /**
   * Across the phase boundary every recorded state still ends with its own
   * gap, and the four durations sum to the 15 ticks elapsed.
   */
  lemma TwoPhasesSum(d: seq<int>)
    requires |d| == 4
    ensures ValidGraph(TwoPhases()) && EntriesValid(TwoPhases(), TwoPhasesLookup())
    ensures forall i :: 0 <= i < 4 ==> TwoPhasesRun()[i].id in TwoPhasesLookup() && TwoPhasesLookup()[TwoPhasesRun()[i].id].state < |d|
    ensures RecordedSum(Overlay(d, Retro(TwoPhases(), TwoPhasesLookup(), 0, None, TwoPhasesRun(), map[]).w),
                        TwoPhasesLookup(), TwoPhasesRun(), 4) == 15
  {
    TwoPhasesLinked();
    LinkedReplaySum(TwoPhases(), TwoPhasesLookup(), 0, TwoPhasesRun(), d);
  }

  /**
   * The replay only writes durations and never reads them, so its writes do
   * not depend on the durations they are applied to, and retrofitting the
   * retrofitted durations again changes nothing. This follows from `Overlay`
   * alone; it says nothing about which values the replay writes.
   */
  lemma RetrofitIdempotent(nodes: seq<StateNode>, lookup: map<uint32, Entry>, start: int, recs: seq<Recorded>, d: seq<int>)
    requires ValidGraph(nodes) && EntriesValid(nodes, lookup)
    ensures var w := Retro(nodes, lookup, start, None, recs, map[]).w;
      Overlay(Overlay(d, w), w) == Overlay(d, w)
  {
  }

  // ---------------------------------------------------------------------------
  // Phase durations and branches

  /** One recorded phase: its index, the id of the last state it visited, and its exit time. */
  datatype PhaseRecord = PhaseRecord(id: int, lastStateID: uint32, exit: int)

  /** Why a recorded phase could not be applied, and at which position of the record it stands. */
  datatype PhaseError = MissingNode(at: nat, stateID: uint32) | PhaseOutOfRange(at: nat, phase: int)

  /** The index of the last of the first `n` recorded phases with index `j`, if any. */
  function LastOf(phases: seq<PhaseRecord>, n: nat, j: int): (r: Option<nat>)
    requires n <= |phases|
    ensures r.Some? ==> r.value < n && phases[r.value].id == j && forall i :: r.value < i < n ==> phases[i].id != j
    ensures r.None? ==> forall i :: 0 <= i < n ==> phases[i].id != j
    decreases n
  {
    if n == 0 then None else if phases[n - 1].id == j then Some(n - 1) else LastOf(phases, n - 1, j)
  }

  function PhaseGap(start: int, phases: seq<PhaseRecord>, i: nat): int
    requires i < |phases|
  {
    phases[i].exit - (if i == 0 then start else phases[i - 1].exit)
  }

  /** The first recorded phase that cannot be applied, if any; the node lookup is tried first. */
  function FirstPhaseError(count: nat, nodeBranch: map<uint32, int>, phases: seq<PhaseRecord>, i: nat): (r: Option<PhaseError>)
    requires i <= |phases|
    ensures r.Some? ==> i <= r.value.at < |phases|
    decreases |phases| - i
  {
    if i == |phases| then None
    else if phases[i].lastStateID !in nodeBranch then Some(MissingNode(i, phases[i].lastStateID))
    else if !(0 <= phases[i].id < count) then Some(PhaseOutOfRange(i, phases[i].id))
    else FirstPhaseError(count, nodeBranch, phases, i + 1)
  }

  /** How many recorded phases are applied: all, or those before the first error. */
  function Applied(count: nat, nodeBranch: map<uint32, int>, phases: seq<PhaseRecord>): nat
  {
    var e := FirstPhaseError(count, nodeBranch, phases, 0);
    if e.Some? then e.value.at else |phases|
  }

  /** Phase `j`'s duration: the gap of the last applied record of `j`, or 0 when there is none. */
  function PhaseDuration(start: int, phases: seq<PhaseRecord>, n: nat, j: int): int
    requires n <= |phases|
  {
    match LastOf(phases, n, j)
    case None => 0
    case Some(i) => PhaseGap(start, phases, i)
  }

  /** Phase `j`'s branch offset: that of the last state of its last applied record, or 0 when there is none. */
  function PhaseBranch(startBranch: seq<int>, nodeBranch: map<uint32, int>, phases: seq<PhaseRecord>, n: nat, j: int): int
    requires n <= |phases| && 0 <= j < |startBranch|
  {
    match LastOf(phases, n, j)
    case None => 0
    case Some(i) => if phases[i].lastStateID in nodeBranch then nodeBranch[phases[i].lastStateID] - startBranch[j] else 0
  }

  /** Where every record before `n` is applicable, consistently with `FirstPhaseError`. */
  lemma {:induction false} FirstPhaseErrorSpec(count: nat, nodeBranch: map<uint32, int>, phases: seq<PhaseRecord>, i: nat)
    requires i <= |phases|
    ensures var e := FirstPhaseError(count, nodeBranch, phases, i);
      var n := if e.Some? then e.value.at else |phases|;
      && (forall k :: i <= k < n ==> phases[k].lastStateID in nodeBranch && 0 <= phases[k].id < count)
      && (e.Some? && e.value.MissingNode? ==> phases[n].lastStateID !in nodeBranch && e.value.stateID == phases[n].lastStateID)
      && (e.Some? && e.value.PhaseOutOfRange? ==>
            phases[n].lastStateID in nodeBranch && !(0 <= phases[n].id < count) && e.value.phase == phases[n].id)
    decreases |phases| - i
  {
    if i < |phases| && phases[i].lastStateID in nodeBranch && 0 <= phases[i].id < count {
      FirstPhaseErrorSpec(count, nodeBranch, phases, i + 1);
    }
  }

  /** Applying record `i` sets its own phase's duration and branch offset and leaves every other phase as it was. */
  lemma PhaseStep(startBranch: seq<int>, nodeBranch: map<uint32, int>, start: int, phases: seq<PhaseRecord>, i: nat)
    requires i < |phases| && phases[i].lastStateID in nodeBranch && 0 <= phases[i].id < |startBranch|
    ensures PhaseDuration(start, phases, i + 1, phases[i].id) == PhaseGap(start, phases, i)
    ensures PhaseBranch(startBranch, nodeBranch, phases, i + 1, phases[i].id)
            == nodeBranch[phases[i].lastStateID] - startBranch[phases[i].id]
    ensures forall j :: 0 <= j < |startBranch| && j != phases[i].id ==>
              && PhaseDuration(start, phases, i + 1, j) == PhaseDuration(start, phases, i, j)
              && PhaseBranch(startBranch, nodeBranch, phases, i + 1, j) == PhaseBranch(startBranch, nodeBranch, phases, i, j)
  {
  }

  /**
   * Fills the per-phase branch offsets and durations from the recorded
   * phases, in order, each phase's duration being its exit minus the
   * previous phase's exit (or the encounter start); stops at the first
   * record that cannot be applied, keeping what was filled before it.
   */
  method PhaseTimings(count: nat, startBranch: seq<int>, nodeBranch: map<uint32, int>, start: int, phases: seq<PhaseRecord>)
    returns (branches: array<int>, durations: array<int>, err: Option<PhaseError>)
    requires |startBranch| == count
    ensures fresh(branches) && fresh(durations)
    ensures branches.Length == count && durations.Length == count
    ensures err == FirstPhaseError(count, nodeBranch, phases, 0)
    ensures var n := Applied(count, nodeBranch, phases);
      && (forall j :: 0 <= j < count ==> durations[j] == PhaseDuration(start, phases, n, j))
      && (forall j :: 0 <= j < count ==> branches[j] == PhaseBranch(startBranch, nodeBranch, phases, n, j))
  {
    branches := new int[count](_ => 0);
    durations := new int[count](_ => 0);
    FirstPhaseErrorSpec(count, nodeBranch, phases, 0);
    var enter := start;
    for i := 0 to |phases|
      invariant FirstPhaseError(count, nodeBranch, phases, 0) == FirstPhaseError(count, nodeBranch, phases, i)
      invariant enter == (if i == 0 then start else phases[i - 1].exit)
      invariant forall j :: 0 <= j < count ==> durations[j] == PhaseDuration(start, phases, i, j)
      invariant forall j :: 0 <= j < count ==> branches[j] == PhaseBranch(startBranch, nodeBranch, phases, i, j)
    {
      var p := phases[i];
      if p.lastStateID !in nodeBranch {
        return branches, durations, Some(MissingNode(i, p.lastStateID));
      }
      if !(0 <= p.id < count) {
        return branches, durations, Some(PhaseOutOfRange(i, p.id));
      }
      PhaseStep(startBranch, nodeBranch, start, phases, i);
      branches[p.id] := nodeBranch[p.lastStateID] - startBranch[p.id];
      durations[p.id] := p.exit - enter;
      enter := p.exit;
    }
    err := None;
  }

  /** With distinct phase indices and nothing failing, each recorded phase's duration is its own gap. */
  lemma DistinctPhases(count: nat, nodeBranch: map<uint32, int>, start: int, phases: seq<PhaseRecord>, i: nat)
    requires i < |phases|
    requires forall a, b :: 0 <= a < b < |phases| ==> phases[a].id != phases[b].id
    requires FirstPhaseError(count, nodeBranch, phases, 0).None?
    ensures Applied(count, nodeBranch, phases) == |phases|
    ensures PhaseDuration(start, phases, |phases|, phases[i].id) == PhaseGap(start, phases, i)
  {
    var r := LastOf(phases, |phases|, phases[i].id);
    assert r.Some?;
  }

  /** The summed gaps of the first `n` recorded phases. */
  function PhaseGapSum(start: int, phases: seq<PhaseRecord>, n: nat): int
    requires n <= |phases|
    decreases n
  {
    if n == 0 then 0 else PhaseGapSum(start, phases, n - 1) + PhaseGap(start, phases, n - 1)
  }

  lemma {:induction false} PhaseGapsTelescope(start: int, phases: seq<PhaseRecord>, n: nat)
    requires 0 < n <= |phases|
    ensures PhaseGapSum(start, phases, n) == phases[n - 1].exit - start
    decreases n
  {
    if n > 1 {
      PhaseGapsTelescope(start, phases, n - 1);
    }
  }

  /** The summed durations in `d` of the phases of the first `n` records. */
  function PhaseSum(d: seq<int>, phases: seq<PhaseRecord>, n: nat): int
    requires n <= |phases| && forall i :: 0 <= i < n ==> 0 <= phases[i].id < |d|
    decreases n
  {
    if n == 0 then 0 else PhaseSum(d, phases, n - 1) + d[phases[n - 1].id]
  }

  lemma {:induction false} PhaseSumGaps(count: nat, nodeBranch: map<uint32, int>, start: int, phases: seq<PhaseRecord>,
                                        d: seq<int>, n: nat)
    requires n <= |phases| && |d| == count
    requires forall a, b :: 0 <= a < b < |phases| ==> phases[a].id != phases[b].id
    requires FirstPhaseError(count, nodeBranch, phases, 0).None?
    requires forall i :: 0 <= i < |phases| ==> 0 <= phases[i].id < count
    requires forall j :: 0 <= j < count ==> d[j] == PhaseDuration(start, phases, |phases|, j)
    ensures PhaseSum(d, phases, n) == PhaseGapSum(start, phases, n)
    decreases n
  {
    if n > 0 {
      PhaseSumGaps(count, nodeBranch, start, phases, d, n - 1);
      DistinctPhases(count, nodeBranch, start, phases, n - 1);
    }
  }

  /**
   * With distinct phase indices and nothing failing, the durations the
   * timings give the recorded phases add up to the last phase exit minus
   * the encounter start.
   */
  lemma PhaseDurationsSum(count: nat, nodeBranch: map<uint32, int>, start: int, phases: seq<PhaseRecord>, d: seq<int>)
    requires |phases| > 0 && |d| == count
    requires forall a, b :: 0 <= a < b < |phases| ==> phases[a].id != phases[b].id
    requires FirstPhaseError(count, nodeBranch, phases, 0).None?
    requires forall j :: 0 <= j < count ==> d[j] == PhaseDuration(start, phases, Applied(count, nodeBranch, phases), j)
    ensures forall i :: 0 <= i < |phases| ==> 0 <= phases[i].id < count
    ensures PhaseSum(d, phases, |phases|) == phases[|phases| - 1].exit - start
  {
    FirstPhaseErrorSpec(count, nodeBranch, phases, 0);
    assert Applied(count, nodeBranch, phases) == |phases|;
    PhaseSumGaps(count, nodeBranch, start, phases, d, |phases|);
    PhaseGapsTelescope(start, phases, |phases|);
  }

  // ---------------------------------------------------------------------------
  // The whole build

  /** One recorded encounter: its start time, its recorded states and its recorded phases. */
  datatype Encounter = Encounter(start: int, states: seq<Recorded>, phases: seq<PhaseRecord>)

  datatype BuildError = ModuleNotAvailable | StateNotFound(id: uint32) | PhaseFailed(e: PhaseError)

  /** The per-phase branch offsets and durations handed to the timeline, or why there are none. */
  datatype BuildOutcome = Built(branches: seq<int>, phaseDurations: seq<int>) | Failed(error: BuildError)

  /**
   * Builds the state data for a recorded encounter: no module is an error
   * before anything else; otherwise every phase is gathered into the lookup,
   * the state durations of the module are retrofitted in place, and the
   * phase timings are derived. `startBranch` holds the branch of each phase's
   * starting node and `nodeBranch` the branch of each state of the tree.
   */
  method BuildStateData(m: Machine?, enc: Encounter, startBranch: seq<int>, nodeBranch: map<uint32, int>)
    returns (r: BuildOutcome)
    requires m != null ==> m.Valid() && |startBranch| == |m.initials|
    modifies if m != null then {m.durations} else {}
    ensures m == null ==> r == Failed(ModuleNotAvailable)
    ensures m != null ==> EntriesValid(m.nodes, GatherAll(m.nodes, map[], m.initials))
    ensures m != null ==>
      var lookup := GatherAll(m.nodes, map[], m.initials);
      var retro := Retro(m.nodes, lookup, enc.start, None, enc.states, map[]);
      var count := |m.initials|;
      var n := Applied(count, nodeBranch, enc.phases);
      var pe := FirstPhaseError(count, nodeBranch, enc.phases, 0);
      && m.durations[..] == Overlay(old(m.durations[..]), retro.w)
      && (retro.missing.Some? ==> r == Failed(StateNotFound(retro.missing.value)))
      && (retro.missing.None? && pe.Some? ==> r == Failed(PhaseFailed(pe.value)))
      && (retro.missing.None? && pe.None? ==>
            r == Built(seq(count, j requires 0 <= j < count => PhaseBranch(startBranch, nodeBranch, enc.phases, n, j)),
                       seq(count, j requires 0 <= j < count => PhaseDuration(enc.start, enc.phases, n, j))))
  {
    if m == null {
      return Failed(ModuleNotAvailable);
    }
    var lookup := GatherPhases(m);
    GatherAllValid(m.nodes, map[], m.initials);
    var missing := RetrofitDurations(m, lookup.entries, enc.start, enc.states);
    if missing.Some? {
      return Failed(StateNotFound(missing.value));
    }
    var branches, durations, err := PhaseTimings(|m.initials|, startBranch, nodeBranch, enc.start, enc.phases);
    if err.Some? {
      return Failed(PhaseFailed(err.value));
    }
    r := Built(branches[..], durations[..]);
  }
}
