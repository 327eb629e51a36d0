/**
 * The world state that boss modules observe: a registry of actors keyed by
 * instance id, three scalar fields (zone, in-combat flag, player actor id),
 * and the change-detection rules that turn full per-frame observations of an
 * actor into typed change events.
 *
 * Event handlers are modelled by an append-only log `events`: every
 * notification the world state raises is appended in the order it is raised,
 * together with what a handler would observe at that moment (a value snapshot
 * `seen` of the actor, and for creation and destruction whether the actor is
 * registered under its id at that moment).
 */
module WorldStateModel {
  import opened Common

  /** A 3D position; its float components are compared by equality only. */
  datatype Vec3 = Vec3(x: real, y: real, z: real)

  /** The kind of an actor. */
  datatype ActorType = NoType | Player | Unknown | Pet | Chocobo | Enemy

  /** A cast in progress: which action, at whom or where, and its timer. */
  datatype CastInfo = CastInfo(
    actionType: uint8,
    actionID: uint32,
    targetID: uint32,
    location: Vec3,
    currentTime: real,
    totalTime: real)

  /** One status-effect slot; a slot with id 0 is empty. */
  datatype Status = Status(id: uint32, param: uint8, stackCount: uint8, remainingTime: real, sourceID: uint32)

  /** Every actor has this many status slots. */
  const StatusSlots: nat := 30

  /** The value of a slot that was never written (all fields zero). */
  const EmptyStatus: Status := Status(0, 0, 0, 0.0, 0)

  function EmptyStatuses(): seq<Status>
  {
    seq(StatusSlots, _ => EmptyStatus)
  }

  /** A value copy of everything an event handler can read from an actor. */
  datatype ActorView = ActorView(
    instanceID: uint32,
    oid: uint32,
    kind: ActorType,
    position: Vec3,
    rotation: real,
    hitboxRadius: real,
    castInfo: Option<CastInfo>,
    statuses: seq<Status>)

  /** One notification, with what its handlers observe when it is raised. */
  datatype Event =
    | CurrentZoneChanged(zone: uint16)
    | PlayerInCombatChanged(inCombat: bool)
    | PlayerActorIDChanged(playerID: uint32)
    | ActorCreated(actor: Actor, seen: ActorView, listed: bool)
    | ActorDestroyed(actor: Actor, seen: ActorView, listed: bool)
    | ActorMoved(actor: Actor, seen: ActorView, prevPos: Vec3, prevRot: real)
    | ActorCastStarted(actor: Actor, seen: ActorView)
    | ActorCastFinished(actor: Actor, seen: ActorView)
    | ActorStatusAdded(actor: Actor, seen: ActorView, index: nat)
    | ActorStatusRemoved(actor: Actor, seen: ActorView, index: nat)

  // ---------------------------------------------------------------------------
  // Cast diffing

  /** Two casts are the same spell when action type, action id and target agree. */
  predicate SameCast(a: CastInfo, b: CastInfo)
  {
    a.actionType == b.actionType && a.actionID == b.actionID && a.targetID == b.targetID
  }

  /** The new observation continues the cast in progress. */
  predicate IsContinuation(cur: Option<CastInfo>, cast: Option<CastInfo>)
  {
    cur.Some? && cast.Some? && SameCast(cur.value, cast.value)
  }

  /** The cast an actor holds after observing `cast`: a continuation only refreshes the two timers. */
  function CastAfter(cur: Option<CastInfo>, cast: Option<CastInfo>): Option<CastInfo>
  {
    if IsContinuation(cur, cast) then
      Some(cur.value.(currentTime := cast.value.currentTime, totalTime := cast.value.totalTime))
    else
      cast
  }

  /** The notifications raised when actor `a`, as seen in `seen`, observes `cast`. */
  function CastEvents(a: Actor, seen: ActorView, cast: Option<CastInfo>): seq<Event>
  {
    if cast.None? && seen.castInfo.None? then []
    else if IsContinuation(seen.castInfo, cast) then []
    else
      (if seen.castInfo.Some? then [ActorCastFinished(a, seen)] else [])
      + (if cast.Some? then [ActorCastStarted(a, seen.(castInfo := cast))] else [])
  }

  /** What the cast events are: a finish that still sees the old cast, then a start that sees the new one. */
  lemma CastEventsShape(a: Actor, seen: ActorView, cast: Option<CastInfo>)
    ensures var evs := CastEvents(a, seen, cast);
      && (evs == [] <==> seen.castInfo == cast == None || IsContinuation(seen.castInfo, cast))
      && (forall e | e in evs :: (e.ActorCastFinished? || e.ActorCastStarted?) && e.actor == a)
      && (forall e | e in evs && e.ActorCastFinished? :: e.seen == seen && seen.castInfo.Some?)
      && (forall e | e in evs && e.ActorCastStarted? :: e.seen == seen.(castInfo := cast) && cast.Some?)
      && (|evs| == 2 <==> seen.castInfo.Some? && cast.Some? && !SameCast(seen.castInfo.value, cast.value))
      && (|evs| == 2 ==> evs[0].ActorCastFinished? && evs[1].ActorCastStarted?)
  {
  }

  /** A second identical observation raises nothing and changes nothing. */
  lemma CastUpdateIdempotent(a: Actor, seen: ActorView, cast: Option<CastInfo>)
    ensures var after := seen.(castInfo := CastAfter(seen.castInfo, cast));
      CastEvents(a, after, cast) == [] && CastAfter(after.castInfo, cast) == after.castInfo
  {
  }

  /** A run of observations fed to UpdateCastInfo one after the other: the final view and all events. */
  function CastRun(a: Actor, seen: ActorView, casts: seq<Option<CastInfo>>): (ActorView, seq<Event>)
    decreases |casts|
  {
    if casts == [] then (seen, [])
    else
      var next := seen.(castInfo := CastAfter(seen.castInfo, casts[0]));
      var rest := CastRun(a, next, casts[1..]);
      (rest.0, CastEvents(a, seen, casts[0]) + rest.1)
  }

  /**
   * Feeding the same spell (same type, action and target) with new timers,
   * any number of times, never raises a start or finish: it only refreshes
   * the timers, and the location of the original cast is kept.
   */
  lemma {:induction false} CastRunSilent(a: Actor, seen: ActorView, casts: seq<Option<CastInfo>>)
    requires seen.castInfo.Some?
    requires forall i :: 0 <= i < |casts| ==> casts[i].Some? && SameCast(casts[i].value, seen.castInfo.value)
    ensures CastRun(a, seen, casts).1 == []
    ensures CastRun(a, seen, casts).0 ==
      if casts == [] then seen
      else seen.(castInfo := Some(seen.castInfo.value.(
        currentTime := casts[|casts| - 1].value.currentTime,
        totalTime := casts[|casts| - 1].value.totalTime)))
    decreases |casts|
  {
    if casts != [] {
      var next := seen.(castInfo := CastAfter(seen.castInfo, casts[0]));
      assert forall i :: 0 <= i < |casts[1..]| ==> casts[1..][i] == casts[i + 1];
      CastRunSilent(a, next, casts[1..]);
    }
  }

  // ---------------------------------------------------------------------------
  // Status diffing

  /** A slot keeps its status when status id and source actor agree. */
  predicate SameStatus(a: Status, b: Status)
  {
    a.id == b.id && a.sourceID == b.sourceID
  }

  /** The value of a slot after observing `incoming` in it. */
  function MergeStatus(cur: Status, incoming: Status): Status
  {
    if SameStatus(cur, incoming) then
      cur.(param := incoming.param, stackCount := incoming.stackCount, remainingTime := incoming.remainingTime)
    else
      incoming
  }

  /** The slots once the first `k` of them have been processed, the rest untouched. */
  function StatusesAfter(cur: seq<Status>, incoming: seq<Status>, k: nat): seq<Status>
    requires k <= |cur| && k <= |incoming|
  {
    seq(|cur|, j requires 0 <= j < |cur| => if j < k then MergeStatus(cur[j], incoming[j]) else cur[j])
  }

  /**
   * The notifications raised for slot `k` when the actor seen in `seen` observes
   * `incoming`; slots below `k` have already been processed at that point.
   */
  function SlotEvents(a: Actor, seen: ActorView, incoming: seq<Status>, k: nat): seq<Event>
    requires k < |seen.statuses| && k < |incoming|
  {
    var before := StatusesAfter(seen.statuses, incoming, k);
    var was := seen.statuses[k];
    var now := incoming[k];
    if SameStatus(was, now) then []
    else
      (if was.id != 0 then [ActorStatusRemoved(a, seen.(statuses := before), k)] else [])
      + (if now.id != 0 then [ActorStatusAdded(a, seen.(statuses := before[k := now]), k)] else [])
  }

  /** The notifications raised for slots 0 .. k-1, in slot order. */
  function StatusEvents(a: Actor, seen: ActorView, incoming: seq<Status>, k: nat): seq<Event>
    requires k <= |seen.statuses| && k <= |incoming|
    decreases k
  {
    if k == 0 then [] else StatusEvents(a, seen, incoming, k - 1) + SlotEvents(a, seen, incoming, k - 1)
  }

  /** The processed slots end up holding exactly the observed statuses. */
  lemma StatusesEndAsObserved(cur: seq<Status>, incoming: seq<Status>)
    requires |cur| <= |incoming|
    ensures StatusesAfter(cur, incoming, |cur|) == incoming[..|cur|]
  {
  }

  /**
   * The events of one slot: none when id and source agree; otherwise a removal
   * (if the old slot was occupied) that still sees the old slot, then an
   * addition (if the new slot is occupied) that already sees the new one.
   * Lower slots are already updated in both snapshots, higher slots not yet.
   */
  lemma SlotEventsShape(a: Actor, seen: ActorView, incoming: seq<Status>, k: nat)
    requires k < |seen.statuses| <= |incoming|
    ensures var evs := SlotEvents(a, seen, incoming, k);
      var was := seen.statuses[k];
      var now := incoming[k];
      && |evs| == (if SameStatus(was, now) then 0 else (if was.id != 0 then 1 else 0) + (if now.id != 0 then 1 else 0))
      && (forall e | e in evs :: (e.ActorStatusAdded? || e.ActorStatusRemoved?) && e.actor == a && e.index == k)
      && (forall e | e in evs && e.ActorStatusRemoved? :: e.seen.statuses[k] == was && was.id != 0)
      && (forall e | e in evs && e.ActorStatusAdded? :: e.seen.statuses[k] == now && now.id != 0)
      && (forall e, j | e in evs && 0 <= j < |seen.statuses| && j != k ::
            e.seen.statuses[j] == (if j < k then MergeStatus(seen.statuses[j], incoming[j]) else seen.statuses[j]))
      && (|evs| == 2 ==> evs[0].ActorStatusRemoved? && evs[1].ActorStatusAdded?)
  {
  }

  /** When every processed slot keeps its id and source, no notification is raised. */
  lemma {:induction false} NoEventsWhenSame(a: Actor, seen: ActorView, incoming: seq<Status>, k: nat)
    requires k <= |seen.statuses| <= |incoming|
    requires forall j :: 0 <= j < k ==> SameStatus(seen.statuses[j], incoming[j])
    ensures StatusEvents(a, seen, incoming, k) == []
    decreases k
  {
    if k > 0 {
      NoEventsWhenSame(a, seen, incoming, k - 1);
    }
  }

  /** Observing the same status array a second time raises nothing and changes nothing. */
  lemma StatusUpdateIdempotent(a: Actor, seen: ActorView, incoming: seq<Status>)
    requires |seen.statuses| <= |incoming|
    ensures var n := |seen.statuses|;
      var after := seen.(statuses := StatusesAfter(seen.statuses, incoming, n));
      StatusEvents(a, after, incoming, n) == [] && StatusesAfter(after.statuses, incoming, n) == after.statuses
  {
    var n := |seen.statuses|;
    var after := seen.(statuses := StatusesAfter(seen.statuses, incoming, n));
    StatusesEndAsObserved(seen.statuses, incoming);
    NoEventsWhenSame(a, after, incoming, n);
  }

  /**
   * The shape StatusEvents promises: status events of actor `a` only, every one
   * for a slot below `k`, in ascending slot order, and where one slot raises
   * two, the removal first.
   */
  ghost predicate SlotOrdered(evs: seq<Event>, a: Actor, k: nat)
  {
    && (forall i :: 0 <= i < |evs| ==>
          (evs[i].ActorStatusAdded? || evs[i].ActorStatusRemoved?) && evs[i].actor == a && evs[i].index < k)
    && (forall i, j :: 0 <= i < j < |evs| ==>
          (evs[i].ActorStatusAdded? || evs[i].ActorStatusRemoved?)
          && (evs[j].ActorStatusAdded? || evs[j].ActorStatusRemoved?)
          && evs[i].index <= evs[j].index
          && (evs[i].index == evs[j].index ==> evs[i].ActorStatusRemoved? && evs[j].ActorStatusAdded?))
  }

  /** One slot raises at most a removal and then an addition, both for that slot of `a`. */
  lemma SlotEventsKinds(a: Actor, seen: ActorView, incoming: seq<Status>, k: nat)
    requires k < |seen.statuses| && k < |incoming|
    ensures var last := SlotEvents(a, seen, incoming, k);
      && (forall i :: 0 <= i < |last| ==>
            (last[i].ActorStatusAdded? || last[i].ActorStatusRemoved?) && last[i].actor == a && last[i].index == k)
      && |last| <= 2 && (|last| == 2 ==> last[0].ActorStatusRemoved? && last[1].ActorStatusAdded?)
  {
  }

  /** The log before slot `k`, extended by that slot's events, is the log after it. */
  lemma LogGrowsBySlot(log: seq<Event>, a: Actor, seen: ActorView, incoming: seq<Status>, k: nat)
    requires k < |seen.statuses| && k < |incoming|
    ensures log + StatusEvents(a, seen, incoming, k + 1) == log + StatusEvents(a, seen, incoming, k) + SlotEvents(a, seen, incoming, k)
  {
  }

  /** The first `k` slots of `a` are processed against `incoming`, and nothing else of `a` differs from `seen`. */
  ghost predicate SlotsProcessed(a: Actor, seen: ActorView, incoming: seq<Status>, k: nat)
    reads a, a.statuses
  {
    && k <= |seen.statuses| && k <= |incoming|
    && a.statuses[..] == StatusesAfter(seen.statuses, incoming, k)
    && a.View() == seen.(statuses := a.statuses[..])
  }

  /** Appending one slot's events (at most a removal, then an addition) to an ordered prefix keeps it ordered. */
  lemma SlotOrderedAppend(pre: seq<Event>, last: seq<Event>, a: Actor, k: nat)
    requires k > 0 && SlotOrdered(pre, a, k - 1)
    requires forall i :: 0 <= i < |last| ==>
               (last[i].ActorStatusAdded? || last[i].ActorStatusRemoved?) && last[i].actor == a && last[i].index == k - 1
    requires |last| <= 2 && (|last| == 2 ==> last[0].ActorStatusRemoved? && last[1].ActorStatusAdded?)
    ensures SlotOrdered(pre + last, a, k)
  {
    var evs := pre + last;
    forall i | 0 <= i < |evs|
      ensures (evs[i].ActorStatusAdded? || evs[i].ActorStatusRemoved?) && evs[i].actor == a && evs[i].index < k
    {
      if i >= |pre| {
        assert evs[i] == last[i - |pre|];
      } else {
        assert evs[i] == pre[i];
      }
    }
    forall i, j | 0 <= i < j < |evs|
      ensures (evs[i].ActorStatusAdded? || evs[i].ActorStatusRemoved?)
        && (evs[j].ActorStatusAdded? || evs[j].ActorStatusRemoved?)
        && evs[i].index <= evs[j].index
        && (evs[i].index == evs[j].index ==> evs[i].ActorStatusRemoved? && evs[j].ActorStatusAdded?)
    {
      if j < |pre| {
        assert evs[i] == pre[i] && evs[j] == pre[j];
      } else if i < |pre| {
        assert evs[i] == pre[i] && evs[j] == last[j - |pre|];
      } else {
        assert evs[i] == last[i - |pre|] && evs[j] == last[j - |pre|];
      }
    }
  }

  /** Events come in ascending slot order, and a slot's removal precedes its addition. */
  lemma {:induction false} StatusEventsOrdered(a: Actor, seen: ActorView, incoming: seq<Status>, k: nat)
    requires k <= |seen.statuses| <= |incoming|
    ensures SlotOrdered(StatusEvents(a, seen, incoming, k), a, k)
    decreases k
  {
    if k > 0 {
      StatusEventsOrdered(a, seen, incoming, k - 1);
      SlotEventsKinds(a, seen, incoming, k - 1);
      SlotOrderedAppend(StatusEvents(a, seen, incoming, k - 1), SlotEvents(a, seen, incoming, k - 1), a, k);
    }
  }

  /** When only slot `i` changes id or source, the events are exactly those of slot `i`. */
  lemma {:induction false} StatusEventsOnlySlot(a: Actor, seen: ActorView, incoming: seq<Status>, i: nat, k: nat)
    requires i < k <= |seen.statuses| <= |incoming|
    requires forall j :: 0 <= j < k && j != i ==> SameStatus(seen.statuses[j], incoming[j])
    ensures StatusEvents(a, seen, incoming, k) == SlotEvents(a, seen, incoming, i)
    decreases k
  {
    if k == i + 1 {
      NoEventsWhenSame(a, seen, incoming, i);
      assert StatusEvents(a, seen, incoming, k) == [] + SlotEvents(a, seen, incoming, i);
    } else {
      StatusEventsOnlySlot(a, seen, incoming, i, k - 1);
      assert SameStatus(seen.statuses[k - 1], incoming[k - 1]);
      assert SlotEvents(a, seen, incoming, k - 1) == [];
      assert StatusEvents(a, seen, incoming, k) == SlotEvents(a, seen, incoming, i) + [];
    }
  }

  /**
   * Observing the current slots with slot `i` replaced by a different status
   * (another id or source) ends with exactly that array and raises only slot
   * `i`'s events.
   */
  lemma OneSlotReplaced(a: Actor, seen: ActorView, s: Status, i: nat)
    requires i < |seen.statuses|
    requires !SameStatus(seen.statuses[i], s)
    ensures var incoming := seen.statuses[i := s];
      && StatusesAfter(seen.statuses, incoming, |seen.statuses|) == incoming
      && StatusEvents(a, seen, incoming, |seen.statuses|) == SlotEvents(a, seen, incoming, i)
  {
    var incoming := seen.statuses[i := s];
    StatusEventsOnlySlot(a, seen, incoming, i, |seen.statuses|);
  }

  /**
   * Observing the current slots with slot `i` refreshed (same id and source,
   * new stacks, parameter or timer) ends with exactly that array and raises nothing.
   */
  lemma OneSlotRefreshed(a: Actor, seen: ActorView, s: Status, i: nat)
    requires i < |seen.statuses|
    requires SameStatus(seen.statuses[i], s)
    ensures var incoming := seen.statuses[i := s];
      && StatusesAfter(seen.statuses, incoming, |seen.statuses|) == incoming
      && StatusEvents(a, seen, incoming, |seen.statuses|) == []
  {
    var incoming := seen.statuses[i := s];
    NoEventsWhenSame(a, seen, incoming, |seen.statuses|);
  }

  // ---------------------------------------------------------------------------
  // The mutable entities

  class Actor {
    const instanceID: uint32
    const oid: uint32
    const kind: ActorType
    var position: Vec3
    var rotation: real
    const hitboxRadius: real
    var castInfo: Option<CastInfo>
    const statuses: array<Status>

    ghost predicate Valid()
    {
      statuses.Length == StatusSlots
    }

    constructor (instanceID: uint32, oid: uint32, kind: ActorType, pos: Vec3, rot: real, hitboxRadius: real)
      ensures Valid() && fresh(statuses)
      ensures View() == ActorView(instanceID, oid, kind, pos, rot, hitboxRadius, None, EmptyStatuses())
    {
      this.instanceID := instanceID;
      this.oid := oid;
      this.kind := kind;
      position := pos;
      rotation := rot;
      this.hitboxRadius := hitboxRadius;
      castInfo := None;
      statuses := new Status[StatusSlots](_ => EmptyStatus);
    }

    /** What a handler can read from this actor right now. */
    function View(): ActorView
      reads this, statuses
    {
      ActorView(instanceID, oid, kind, position, rotation, hitboxRadius, castInfo, statuses[..])
    }
  }

  class WorldState {
    var currentZone: uint16
    var playerInCombat: bool
    var playerActorID: uint32
    var actors: map<uint32, Actor>
    var events: seq<Event>

    /** Every actor is registered under its own instance id and has its status slots. */
    ghost predicate Valid()
      reads this
    {
      forall id :: id in actors ==> actors[id].instanceID == id && actors[id].Valid()
    }

    constructor ()
      ensures Valid()
      ensures currentZone == 0 && !playerInCombat && playerActorID == 0
      ensures actors == map[] && events == []
    {
      currentZone := 0;
      playerInCombat := false;
      playerActorID := 0;
      actors := map[];
      events := [];
    }

    method SetCurrentZone(value: uint16)
      requires Valid()
      modifies this`currentZone, this`events
      ensures Valid()
      ensures currentZone == value
      ensures events == old(events) + (if old(currentZone) != value then [CurrentZoneChanged(value)] else [])
    {
      if currentZone != value {
        currentZone := value;
        events := events + [CurrentZoneChanged(value)];
      }
    }

    method SetPlayerInCombat(value: bool)
      requires Valid()
      modifies this`playerInCombat, this`events
      ensures Valid()
      ensures playerInCombat == value
      ensures events == old(events) + (if old(playerInCombat) != value then [PlayerInCombatChanged(value)] else [])
    {
      if playerInCombat != value {
        playerInCombat := value;
        events := events + [PlayerInCombatChanged(value)];
      }
    }

    method SetPlayerActorID(value: uint32)
      requires Valid()
      modifies this`playerActorID, this`events
      ensures Valid()
      ensures playerActorID == value
      ensures events == old(events) + (if old(playerActorID) != value then [PlayerActorIDChanged(value)] else [])
    {
      if playerActorID != value {
        playerActorID := value;
        events := events + [PlayerActorIDChanged(value)];
      }
    }

    /** The actor registered under `instanceID`, or null; never fails. */
    function FindActor(instanceID: uint32): (r: Actor?)
      reads this
      ensures r != null <==> instanceID in actors
      ensures r != null ==> r == actors[instanceID]
      ensures Valid() && r != null ==> r.instanceID == instanceID
    {
      if instanceID in actors then actors[instanceID] else null
    }

    /** Whether `a` is the actor registered under its own id. */
    predicate Listed(a: Actor)
      reads this
    {
      a.instanceID in actors && actors[a.instanceID] == a
    }

    method AddActor(instanceID: uint32, oid: uint32, kind: ActorType, pos: Vec3, rot: real, hitboxRadius: real)
      returns (act: Actor)
      requires Valid()
      modifies this`actors, this`events
      ensures Valid() && fresh(act) && fresh(act.statuses)
      ensures act.View() == ActorView(instanceID, oid, kind, pos, rot, hitboxRadius, None, EmptyStatuses())
      ensures actors == old(actors)[instanceID := act]
      ensures events == old(events) + [ActorCreated(act, act.View(), true)]
    {
      act := new Actor(instanceID, oid, kind, pos, rot, hitboxRadius);
      actors := actors[instanceID := act];
      events := events + [ActorCreated(act, act.View(), Listed(act))];
    }

    /**
     * Fails, changing nothing, when the id is not registered: the program's
     * lookup throws there when a destroy handler is subscribed, which the
     * event log stands for, and does nothing when none is.
     */
    method RemoveActor(instanceID: uint32) returns (ok: bool)
      requires Valid()
      modifies this`actors, this`events
      ensures Valid()
      ensures ok <==> instanceID in old(actors)
      ensures !ok ==> actors == old(actors) && events == old(events)
      ensures ok ==> actors == old(actors) - {instanceID}
      ensures ok ==> var act := old(actors)[instanceID];
        events == old(events) + [ActorDestroyed(act, act.View(), true)]
    {
      if instanceID !in actors {
        return false;
      }
      ok := true;
      var act := actors[instanceID];
      events := events + [ActorDestroyed(act, act.View(), Listed(act))];
      actors := actors - {instanceID};
    }

    method MoveActor(act: Actor, newPos: Vec3, newRot: real)
      requires Valid()
      modifies this`events, act`position, act`rotation
      ensures Valid()
      ensures if old(act.position) != newPos || old(act.rotation) != newRot then
          && act.position == newPos && act.rotation == newRot
          && events == old(events) + [ActorMoved(act, act.View(), old(act.position), old(act.rotation))]
        else
          act.position == old(act.position) && act.rotation == old(act.rotation) && events == old(events)
    {
      if act.position != newPos || act.rotation != newRot {
        var prevPos := act.position;
        var prevRot := act.rotation;
        act.position := newPos;
        act.rotation := newRot;
        events := events + [ActorMoved(act, act.View(), prevPos, prevRot)];
      }
    }

    method UpdateCastInfo(act: Actor, cast: Option<CastInfo>)
      requires Valid()
      modifies this`events, act`castInfo
      ensures Valid()
      ensures act.castInfo == CastAfter(old(act.castInfo), cast)
      ensures events == old(events) + CastEvents(act, old(act.View()), cast)
    {
      if cast.None? && act.castInfo.None? {
        return;
      }
      if cast.Some? && act.castInfo.Some?
        && cast.value.actionType == act.castInfo.value.actionType
        && cast.value.actionID == act.castInfo.value.actionID
        && cast.value.targetID == act.castInfo.value.targetID
      {
        act.castInfo := Some(act.castInfo.value.(currentTime := cast.value.currentTime, totalTime := cast.value.totalTime));
        return;
      }
      if act.castInfo.Some? {
        events := events + [ActorCastFinished(act, act.View())];
      }
      act.castInfo := cast;
      if act.castInfo.Some? {
        events := events + [ActorCastStarted(act, act.View())];
      }
    }

    /**
     * A shorter observed array fails when the loop reaches its end (an index
     * error in the program), keeping the slots already processed and their
     * events.
     */
    method UpdateStatuses(act: Actor, statuses: seq<Status>) returns (ok: bool)
      requires Valid()
      modifies this`events, act.statuses
      ensures Valid()
      ensures ok <==> act.statuses.Length <= |statuses|
      ensures var n := Min(act.statuses.Length, |statuses|);
        && act.statuses[..] == StatusesAfter(old(act.statuses[..]), statuses, n)
        && events == old(events) + StatusEvents(act, old(act.View()), statuses, n)
    {
      ghost var seen := act.View();
      var n := Min(act.statuses.Length, |statuses|);
      for i := 0 to n
        invariant SlotsProcessed(act, seen, statuses, i)
        invariant events == old(events) + StatusEvents(act, seen, statuses, i)
      {
        UpdateStatusSlot(act, statuses, i, seen);
        LogGrowsBySlot(old(events), act, seen, statuses, i);
      }
      ok := n == act.statuses.Length;
    }

    /** The body of the status loop for slot `i`: merge or replace it, notifying as `SlotEvents` says. */
    method UpdateStatusSlot(act: Actor, statuses: seq<Status>, i: nat, ghost seen: ActorView)
      requires i < act.statuses.Length && i < |statuses| && |seen.statuses| == act.statuses.Length
      requires SlotsProcessed(act, seen, statuses, i)
      modifies this`events, act.statuses
      ensures SlotsProcessed(act, seen, statuses, i + 1)
      ensures events == old(events) + SlotEvents(act, seen, statuses, i)
    {
      ghost var before := act.statuses[..];
      assert before[i] == seen.statuses[i];
      assert StatusesAfter(seen.statuses, statuses, i + 1) == before[i := MergeStatus(seen.statuses[i], statuses[i])];
      if act.statuses[i].id == statuses[i].id && act.statuses[i].sourceID == statuses[i].sourceID {
        act.statuses[i] := act.statuses[i].(
          param := statuses[i].param,
          stackCount := statuses[i].stackCount,
          remainingTime := statuses[i].remainingTime);
        return;
      }
      if act.statuses[i].id != 0 {
        events := events + [ActorStatusRemoved(act, act.View(), i)];
      }
      act.statuses[i] := statuses[i];
      if act.statuses[i].id != 0 {
        events := events + [ActorStatusAdded(act, act.View(), i)];
      }
    }
  }

  // ---------------------------------------------------------------------------
  // Two walkthroughs of the contracts above

  /** Create actor 7, move it, destroy it: three events, the last one still sees the moved actor. */
  method RegistryScenario() returns (log: seq<Event>, stillRegistered: bool)
    ensures |log| == 3
    ensures log[0].ActorCreated? && log[0].listed && log[0].seen.instanceID == 7
    ensures log[1].ActorMoved? && log[1].prevPos == Vec3(0.0, 0.0, 0.0) && log[1].seen.position == Vec3(1.0, 0.0, 0.0)
    ensures log[2].ActorDestroyed? && log[2].listed && log[2].seen.position == Vec3(1.0, 0.0, 0.0)
    ensures log[0].actor == log[1].actor == log[2].actor
    ensures !stillRegistered
  {
    var ws := new WorldState();
    var a := ws.AddActor(7, 100, Enemy, Vec3(0.0, 0.0, 0.0), 0.0, 1.0);
    ws.MoveActor(a, Vec3(1.0, 0.0, 0.0), 0.0);
    var removed := ws.RemoveActor(7);
    log := ws.events;
    stillRegistered := ws.FindActor(7) != null;
  }

  /** The pure part of the walkthrough below: a gain in slot 3 of an empty actor, then its refresh. */
  lemma GainThenRefresh(a: Actor, v0: ActorView)
    requires v0.statuses == EmptyStatuses()
    ensures var gained := v0.statuses[3 := Status(50, 0, 1, 10.0, 7)];
      var v1 := v0.(statuses := gained);
      var refreshed := gained[3 := Status(50, 0, 2, 8.0, 7)];
      && StatusesAfter(v0.statuses, gained, StatusSlots) == gained
      && |StatusEvents(a, v0, gained, StatusSlots)| == 1
      && StatusEvents(a, v0, gained, StatusSlots)[0].ActorStatusAdded?
      && StatusEvents(a, v0, gained, StatusSlots)[0].index == 3
      && StatusesAfter(gained, refreshed, StatusSlots) == refreshed
      && StatusEvents(a, v1, refreshed, StatusSlots) == []
  {
    var gained := v0.statuses[3 := Status(50, 0, 1, 10.0, 7)];
    OneSlotReplaced(a, v0, Status(50, 0, 1, 10.0, 7), 3);
    var added := SlotEvents(a, v0, gained, 3);
    SlotEventsShape(a, v0, gained, 3);
    assert added[0] in added;
    OneSlotRefreshed(a, v0.(statuses := gained), Status(50, 0, 2, 8.0, 7), 3);
  }

  /**
   * Slot 3 gains status 50 from actor 7, then the same status with new stacks
   * and timer: one addition, then a silent refresh.
   */
  method StatusScenario() returns (log: seq<Event>, refreshedStacks: uint8)
    ensures |log| == 1
    ensures log[0].ActorStatusAdded? && log[0].index == 3
    ensures refreshedStacks == 2
  {
    var ws := new WorldState();
    var a := ws.AddActor(7, 100, Enemy, Vec3(0.0, 0.0, 0.0), 0.0, 1.0);
    var start := |ws.events|;
    ghost var v0 := a.View();
    GainThenRefresh(a, v0);
    assert a.statuses.Length == StatusSlots == Min(a.statuses.Length, StatusSlots);

    var gained := a.statuses[..][3 := Status(50, 0, 1, 10.0, 7)];
    var ok1 := ws.UpdateStatuses(a, gained);
    ghost var e1 := ws.events;
    assert e1[start..] == StatusEvents(a, v0, gained, StatusSlots);

    var refreshed := a.statuses[..][3 := Status(50, 0, 2, 8.0, 7)];
    var ok2 := ws.UpdateStatuses(a, refreshed);
    assert ws.events == e1;
    refreshedStacks := a.statuses[3].stackCount;
    log := ws.events[start..];
  }
}
