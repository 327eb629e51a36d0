# BossMod core, modelled in Dafny

This project models four parts of a boss-fight helper for a MMO client:

- **`world_state.dfy`, module `WorldStateModel`.** The world state that boss modules observe:
  - three scalar fields, each raising a change event only when its value really changes;
  - an actor registry keyed by instance id;
  - the change detection that turns each frame's full observation of an actor into typed events: moves, cast start/finish, status slots added or removed.

  Event handlers become an append-only log. Each logged event carries a value snapshot of what a handler would read from the actor at that moment.
- **`replay_timeline.dfy`, module `ReplayTimeline`.** The timing retrofit that the replay timeline runs before drawing. It has three steps:
  1. Walk the boss state machine, from every phase's initial state, into a lookup from state id to (state, predecessor).
  2. Replay the recorded state sequence. Each recorded state gets the time since the previous recorded exit. Walking back from it along the stored predecessors, every state passed before the previously recorded one gets 0. A phase's initial state is stored with no predecessor, so entering a phase there walks nothing back. When branches merge, the lookup stores only the branch walked last, so a run through another branch walks past the previous recorded state and zeroes recorded states as well.
  3. Derive the per-phase durations and branch offsets in the same way.

  States are indices into a node table whose edges all lead to larger indices, and whose ids are unique. Times are integer ticks.
- **`directors_belone.dfy`, module `DirectorsBeloneModel`.** The Director's Belone helper of the P4S first-half fight:
  - three per-slot masks (forbidden, targets, immune), held as sets of raid slots;
  - a one-shot latch for the forbidden mask;
  - the hint and arena colouring those masks decide.
- **`d122_arkas.dfy`, module `ArkasModel`.** Two components of the Arkas fight:
  - the void zone flag and the arena radius it selects;
  - the forked-fissures queues: pattern starts, pattern ends and queued charges. They grow in batches of 16 and lose their heads one cast at a time.

`common.dfy` (module `Common`) holds the machine-width integers and `Option`.

How state is modelled:

- Where the program updates objects in place, the model uses Dafny classes:
  - `Actor`, `WorldState`, `StateLookup`, `Machine` (whose durations are an array written in place);
  - `DirectorsBelone`, `Voidzone`, `Arena`, `ForkedFissures`.
- Each state-changing method is proved equal to a function of the old state. The lemmas are proved about those functions.
- Exceptions are not raised. A missing dictionary key or an out-of-range list index becomes an error result, and the writes made before it are kept.

## Model

| member | source | states |
|---|---|---|
| `WorldStateModel.Actor.constructor` | BossMod/Framework/WorldState.cs:95-105 | a new actor holds the given fields, no cast, and 30 empty status slots |
| `WorldStateModel.WorldState.SetCurrentZone` | BossMod/Framework/WorldState.cs:16-23 | the zone becomes the value; one `CurrentZoneChanged` is logged exactly when it differed, none otherwise |
| `WorldStateModel.WorldState.SetPlayerInCombat` | BossMod/Framework/WorldState.cs:31-38 | the flag becomes the value; one change event exactly when it differed |
| `WorldStateModel.WorldState.SetPlayerActorID` | BossMod/Framework/WorldState.cs:46-53 | the player id becomes the value; one change event exactly when it differed |
| `WorldStateModel.WorldState.FindActor` | BossMod/Framework/WorldState.cs:110-115 | non-null exactly when the id is registered, and then the registered actor, which carries that id |
| `WorldStateModel.WorldState.AddActor` | BossMod/Framework/WorldState.cs:118-123 | a fresh actor is stored under the id, silently replacing any earlier one; exactly one `ActorCreated` is logged, seeing it registered |
| `WorldStateModel.WorldState.RemoveActor` | BossMod/Framework/WorldState.cs:126-130 | `ActorDestroyed` is logged while the actor is still registered, then only that id is removed; an unregistered id fails and changes nothing (the program throws there when a destroy handler is subscribed, and otherwise also changes nothing) |
| `WorldStateModel.WorldState.MoveActor` | BossMod/Framework/WorldState.cs:133-143 | if position and rotation both equal the current ones nothing changes; otherwise both update and one `ActorMoved` carries the previous pair |
| `WorldStateModel.WorldState.UpdateCastInfo` | BossMod/Framework/WorldState.cs:147-171 | the cast becomes `CastAfter` of the old one and the log grows by `CastEvents` of the actor as it was before the call |
| `WorldStateModel.CastEventsShape` | BossMod/Framework/WorldState.cs:149-170 | no events exactly for none→none or a continuation of the same spell; otherwise a finish that still sees the old cast, then a start that sees the new one |
| `WorldStateModel.CastUpdateIdempotent` | BossMod/Framework/WorldState.cs:149-170 | a second identical cast observation raises nothing and changes nothing |
| `WorldStateModel.CastRunSilent` | BossMod/Framework/WorldState.cs:152-158 | any run of observations of the same spell raises no event and only refreshes the two timers; the location is kept |
| `WorldStateModel.WorldState.UpdateStatuses` | BossMod/Framework/WorldState.cs:176-201 | the slots become `StatusesAfter` of the old slots, and the log grows by `StatusEvents`, slot by slot; an observed array shorter than 30 fails at its end, keeping the slots before it |
| `WorldStateModel.WorldState.UpdateStatusSlot` | BossMod/Framework/WorldState.cs:180-199 | one slot: merged on same id and source, otherwise replaced, with that slot's removal and addition events logged |
| `WorldStateModel.StatusesEndAsObserved` | BossMod/Framework/WorldState.cs:178-194 | after the loop every slot holds exactly the observed status in that slot |
| `WorldStateModel.SlotEventsShape` | BossMod/Framework/WorldState.cs:180-199 | one slot raises nothing on same id and source; otherwise a removal (if it was occupied) seeing the old slot, then an addition (if the new one is occupied) seeing the new slot; lower slots are already updated |
| `WorldStateModel.NoEventsWhenSame` | BossMod/Framework/WorldState.cs:180-187 | if every slot keeps its id and source, no event is raised |
| `WorldStateModel.StatusUpdateIdempotent` | BossMod/Framework/WorldState.cs:176-201 | observing the same status array twice raises nothing the second time and changes nothing |
| `WorldStateModel.StatusEventsOrdered` | BossMod/Framework/WorldState.cs:178-200 | every event is a status event of this actor; events come in ascending slot order, and a slot's removal comes before its addition |
| `WorldStateModel.StatusEventsOnlySlot` | BossMod/Framework/WorldState.cs:178-200 | when only slot i changes id or source, the events are exactly slot i's |
| `WorldStateModel.OneSlotReplaced` | BossMod/Framework/WorldState.cs:189-199 | replacing one slot with a different status ends with exactly that array and raises only that slot's events |
| `WorldStateModel.OneSlotRefreshed` | BossMod/Framework/WorldState.cs:180-187 | refreshing one slot (same id and source) ends with exactly that array and raises nothing |
| `WorldStateModel.RegistryScenario` | BossMod/Framework/WorldState.cs:118-143 | add, move and remove one actor: created, moved (from the old position), destroyed while still registered, then no longer found |
| `WorldStateModel.GainThenRefresh` | BossMod/Framework/WorldState.cs:180-199 | on an empty actor, a status gained in slot 3 raises exactly one addition for slot 3; observing it again with new stacks and timer stores them and raises nothing |
| `WorldStateModel.StatusScenario` | BossMod/Framework/WorldState.cs:176-201 | a new status in slot 3 raises one addition; refreshing it raises nothing and stores the new stack count |
| `ReplayTimeline.GatherStates` | UIDev/ReplayVisualization/ReplayTimeline.cs:124-133 | rewrites the lookup in place to `Gather` of the old lookup |
| `ReplayTimeline.GatherSpec` | UIDev/ReplayVisualization/ReplayTimeline.cs:124-133 | the walk adds exactly the ids of the states reachable from the start, leaves every other entry alone, and stores the start with its predecessor |
| `ReplayTimeline.GatherSuccessorsSpec` | UIDev/ReplayVisualization/ReplayTimeline.cs:129-132 | walking the potential successors (skipping the one equal to `Next`) adds only the ids reachable from them |
| `ReplayTimeline.GatherValid` | UIDev/ReplayVisualization/ReplayTimeline.cs:126-132 | every entry the walk writes holds the state carrying its key, and its predecessor is an edge into it that is itself listed |
| `ReplayTimeline.GatherSuccessorsValid` | UIDev/ReplayVisualization/ReplayTimeline.cs:129-132 | the same validity for the walk over the potential successors |
| `ReplayTimeline.GatherPhases` | UIDev/ReplayVisualization/ReplayTimeline.cs:87-89 | the fresh lookup is every phase walked in order from its initial state with no predecessor |
| `ReplayTimeline.GatherAllSpec` | UIDev/ReplayVisualization/ReplayTimeline.cs:87-89 | walking every phase records exactly the states reachable from some initial state |
| `ReplayTimeline.GatherAllValid` | UIDev/ReplayVisualization/ReplayTimeline.cs:87-89 | walking every phase keeps the lookup valid |
| `ReplayTimeline.InitialHasNoPred` | UIDev/ReplayVisualization/ReplayTimeline.cs:88-89 | a phase's initial state that no later phase reaches ends up stored as itself with no predecessor |
| `ReplayTimeline.NotReachedKeepsEntry` | UIDev/ReplayVisualization/ReplayTimeline.cs:88-89 | an entry no walk reaches is left as it was |
| `ReplayTimeline.EntryPredBelow` | UIDev/ReplayVisualization/ReplayTimeline.cs:97-101 | the entry under a state's id holds that state, and its predecessor has a smaller index, so walking back ends |
| `ReplayTimeline.ChainWrites` | UIDev/ReplayVisualization/ReplayTimeline.cs:97-101 | every skipped-chain write is a 0 at or below the starting predecessor and never at the stop state |
| `ReplayTimeline.StepWrites` | UIDev/ReplayVisualization/ReplayTimeline.cs:94-104 | a step that did not fail found the recorded id in the lookup |
| `ReplayTimeline.ZeroChain` | UIDev/ReplayVisualization/ReplayTimeline.cs:97-101 | the in-place loop writes exactly `ChainWrites` and reports the id whose lookup failed |
| `ReplayTimeline.ReplayStep` | UIDev/ReplayVisualization/ReplayTimeline.cs:96-104 | one step writes exactly `StepWrites`; on success it reports the recorded state it set |
| `ReplayTimeline.RetrofitDurations` | UIDev/ReplayVisualization/ReplayTimeline.cs:91-105 | the durations become the old durations overlaid with `Retro`'s writes, and the error is `Retro`'s missing id |
| `ReplayTimeline.ChainNeverMisses` | UIDev/ReplayVisualization/ReplayTimeline.cs:99-100 | on a valid lookup, walking back from a listed state never meets an unlisted one |
| `ReplayTimeline.RetroMissing` | UIDev/ReplayVisualization/ReplayTimeline.cs:96-100 | the replay fails exactly when some recorded id is not in the lookup |
| `ReplayTimeline.RetroFirstMissing` | UIDev/ReplayVisualization/ReplayTimeline.cs:95-96 | a failing replay names the first recorded id that is not in the lookup |
| `ReplayTimeline.OneStepFinal` | UIDev/ReplayVisualization/ReplayTimeline.cs:96-102 | a step gives its recorded state the time since the previous exit, and the chain zeros below it survive |
| `ReplayTimeline.LastStepFinal` | UIDev/ReplayVisualization/ReplayTimeline.cs:92-104 | after a replay, the last recorded state holds its gap and the chain it zeroed is still zero |
| `ReplayTimeline.GapsTelescope` | UIDev/ReplayVisualization/ReplayTimeline.cs:102-103 | durations that are consecutive exit gaps sum to the last exit minus the start |
| `ReplayTimeline.StepEffect` | UIDev/ReplayVisualization/ReplayTimeline.cs:96-102 | one listed step writes its recorded state with the time since the previous exit, the chain it walks with 0, and keeps every other write |
| `ReplayTimeline.RetroUntouched` | UIDev/ReplayVisualization/ReplayTimeline.cs:91-104 | frame: a state that no step records or walks past keeps its earlier write, or stays unwritten |
| `ReplayTimeline.RetroFrame` | UIDev/ReplayVisualization/ReplayTimeline.cs:91-104 | the replay writes only states that some step records or zeroes on its walk back |
| `ReplayTimeline.RetroLastWrite` | UIDev/ReplayVisualization/ReplayTimeline.cs:94-104 | a state ends with the value of the last step that writes it: that step's gap if it is the recorded state, 0 if it lies on the walk |
| `ReplayTimeline.RecordKeepsGap` | UIDev/ReplayVisualization/ReplayTimeline.cs:94-104 | a recorded state ends with its own gap unless a later step writes it again |
| `ReplayTimeline.ChainAbove` | UIDev/ReplayVisualization/ReplayTimeline.cs:97-101 | a walk back that reaches the previous recorded state starts at or above it and zeroes only states above it |
| `ReplayTimeline.LinkedClimbs` | UIDev/ReplayVisualization/ReplayTimeline.cs:94-104 | when each recorded state is reached back from the previous one, or starts a phase after it in the table, the recorded states climb strictly through the table |
| `ReplayTimeline.LinkedNoRewrite` | UIDev/ReplayVisualization/ReplayTimeline.cs:94-104 | in such a replay, no step writes a state recorded by an earlier step |
| `ReplayTimeline.LinkedReplay` | UIDev/ReplayVisualization/ReplayTimeline.cs:92-104 | in such a replay, every recorded state ends with its own gap |
| `ReplayTimeline.LinkedReplaySum` | UIDev/ReplayVisualization/ReplayTimeline.cs:91-104 | in such a replay from the encounter start, the recorded durations sum to the last exit minus the start |
| `ReplayTimeline.DiamondGathered` | UIDev/ReplayVisualization/ReplayTimeline.cs:124-133 | on S→A→Y with S→B→Y, the walk stores Y as reached from B |
| `ReplayTimeline.DiamondNotLinked` | UIDev/ReplayVisualization/ReplayTimeline.cs:97-101 | walking back from Y passes B and S and never meets A |
| `ReplayTimeline.DiamondReplay` | UIDev/ReplayVisualization/ReplayTimeline.cs:92-104 | replaying S, A, Y from time 0 writes 0 to S and B, 3 to A and 4 to Y |
| `ReplayTimeline.MergeZeroesRecorded` | UIDev/ReplayVisualization/ReplayTimeline.cs:87-104 | on that diamond the recorded S ends at 0 and the recorded durations sum to 7, not the 12 elapsed |
| `ReplayTimeline.TwoPhasesGathered` | UIDev/ReplayVisualization/ReplayTimeline.cs:87-89 | on two phases 1→2 and 3→4, walking both stores each initial state with no predecessor |
| `ReplayTimeline.TwoPhasesLinked` | UIDev/ReplayVisualization/ReplayTimeline.cs:94-104 | a run 1, 2, 3, 4 that enters the second phase at its initial state is linked |
| `ReplayTimeline.TwoPhasesSum` | UIDev/ReplayVisualization/ReplayTimeline.cs:91-104 | on that run the recorded durations sum to the 15 ticks elapsed, across the phase boundary |
| `ReplayTimeline.RetrofitIdempotent` | UIDev/ReplayVisualization/ReplayTimeline.cs:91-104 | the replay never reads the durations, so running the retrofit again on its own output changes nothing (a consequence of the overlay alone) |
| `ReplayTimeline.LastOf` | UIDev/ReplayVisualization/ReplayTimeline.cs:113-116 | the last record of a phase among the first n, or none when there is none |
| `ReplayTimeline.FirstPhaseErrorSpec` | UIDev/ReplayVisualization/ReplayTimeline.cs:113-116 | records before the first error have a known last state and an in-range phase; the error names the missing node first, then the out-of-range phase |
| `ReplayTimeline.PhaseStep` | UIDev/ReplayVisualization/ReplayTimeline.cs:115-116 | applying a record sets its own phase's duration and branch offset and leaves every other phase alone |
| `ReplayTimeline.PhaseTimings` | UIDev/ReplayVisualization/ReplayTimeline.cs:108-118 | zero-filled arrays, one per phase, with each phase's last applied gap and branch offset; stops at the first failing record |
| `ReplayTimeline.DistinctPhases` | UIDev/ReplayVisualization/ReplayTimeline.cs:112-117 | with distinct phase indices and no error, each recorded phase's duration is its own gap |
| `ReplayTimeline.PhaseDurationsSum` | UIDev/ReplayVisualization/ReplayTimeline.cs:108-117 | with distinct phase indices and no error, the durations filled in for the recorded phases sum to the last phase exit minus the encounter start |
| `ReplayTimeline.BuildStateData` | UIDev/ReplayVisualization/ReplayTimeline.cs:80-122 | no module fails first; otherwise the lookup is valid, the durations are retrofitted, and the result is the first missing state, the first phase error, or the phase branches and durations |
| `DirectorsBeloneModel.DirectorsBelone.constructor` | BossMod/Modules/Endwalker/Savage/P4S1Hesperos/DirectorsBelone.cs:9-12 | starts unassigned with all three masks empty |
| `DirectorsBeloneModel.Updated` | BossMod/Modules/Endwalker/Savage/P4S1Hesperos/DirectorsBelone.cs:16-34 | once assigned nothing changes; otherwise forbidden comes from the tethers without coils, or from the soakers once the coils know them, else it waits |
| `DirectorsBeloneModel.DirectorsBelone.Update` | BossMod/Modules/Endwalker/Savage/P4S1Hesperos/DirectorsBelone.cs:16-34 | the fields become `Updated` of the old state |
| `DirectorsBeloneModel.StatusGained` | BossMod/Modules/Endwalker/Savage/P4S1Hesperos/DirectorsBelone.cs:103-114 | RoleCall adds the slot to targets, Miscast to immune, other statuses change nothing |
| `DirectorsBeloneModel.DirectorsBelone.OnStatusGain` | BossMod/Modules/Endwalker/Savage/P4S1Hesperos/DirectorsBelone.cs:103-114 | the fields become `StatusGained` of the old state |
| `DirectorsBeloneModel.StatusLost` | BossMod/Modules/Endwalker/Savage/P4S1Hesperos/DirectorsBelone.cs:116-127 | RoleCall removes the slot from targets, Miscast from immune, other statuses change nothing |
| `DirectorsBeloneModel.DirectorsBelone.OnStatusLose` | BossMod/Modules/Endwalker/Savage/P4S1Hesperos/DirectorsBelone.cs:116-127 | the fields become `StatusLost` of the old state |
| `DirectorsBeloneModel.CastSeen` | BossMod/Modules/Endwalker/Savage/P4S1Hesperos/DirectorsBelone.cs:129-133 | either cursed casting empties the forbidden mask, and nothing else changes |
| `DirectorsBeloneModel.DirectorsBelone.OnEventCast` | BossMod/Modules/Endwalker/Savage/P4S1Hesperos/DirectorsBelone.cs:129-133 | the fields become `CastSeen` of the old state |
| `DirectorsBeloneModel.AddHints` | BossMod/Modules/Endwalker/Savage/P4S1Hesperos/DirectorsBelone.cs:36-80 | each of the seven hints, with its risk flag, under exactly its condition; no hint exactly when forbidden is empty |
| `DirectorsBeloneModel.DrawArenaForeground` | BossMod/Modules/Endwalker/Savage/P4S1Hesperos/DirectorsBelone.cs:91-101 | nothing while targets is empty; otherwise every raid slot in order, in danger colour exactly when forbidden and targeted |
| `DirectorsBeloneModel.AddGlobalHints` | BossMod/Modules/Endwalker/Savage/P4S1Hesperos/DirectorsBelone.cs:82-89 | a hint exactly when some member is forbidden, naming the stack group of the first such member |
| `DirectorsBeloneModel.AssignedLatches` | BossMod/Modules/Endwalker/Savage/P4S1Hesperos/DirectorsBelone.cs:18-33 | once assigned, any number of updates leaves the state as it is |
| `DirectorsBeloneModel.CoilsWait` | BossMod/Modules/Endwalker/Savage/P4S1Hesperos/DirectorsBelone.cs:27-32 | while the coils do not know their soakers, updates never assign |
| `DirectorsBeloneModel.AssignedOnFirstUpdate` | BossMod/Modules/Endwalker/Savage/P4S1Hesperos/DirectorsBelone.cs:21-26 | without coils, the first update assigns forbidden from the tethers |
| `DirectorsBeloneModel.GainThenLose` | BossMod/Modules/Endwalker/Savage/P4S1Hesperos/DirectorsBelone.cs:103-127 | a gain then a loss equals the loss alone; a slot that held neither bit is restored exactly |
| `DirectorsBeloneModel.GainTouchesOneSlot` | BossMod/Modules/Endwalker/Savage/P4S1Hesperos/DirectorsBelone.cs:105-113 | a gain changes no other slot's bits |
| `DirectorsBeloneModel.CastSilencesHints` | BossMod/Modules/Endwalker/Savage/P4S1Hesperos/DirectorsBelone.cs:131-132 | after either cursed casting no player gets a hint (the empty-mask test at lines 38-39) |
| `DirectorsBeloneModel.FailedBeforeTargeted` | BossMod/Modules/Endwalker/Savage/P4S1Hesperos/DirectorsBelone.cs:50-57 | an immune player who also carries the debuff is told they failed |
| `DirectorsBeloneModel.ImmuneIrrelevantWhenForbidden` | BossMod/Modules/Endwalker/Savage/P4S1Hesperos/DirectorsBelone.cs:63-79 | the immune mask never changes a forbidden player's hint |
| `DirectorsBeloneModel.DangerSlots` | BossMod/Modules/Endwalker/Savage/P4S1Hesperos/DirectorsBelone.cs:96-100 | the danger-coloured slots are exactly the drawn slots in forbidden ∩ targets |
| `ArkasModel.VoidzoneControlled` | BossMod/Modules/Endwalker/Dungeon/D12Aetherfont/D122Arkas.cs:48-55 | index 0 with state 0x00020001 sets the flag; state 0x00080004 clears it for any index; anything else keeps it |
| `ArkasModel.Voidzone.OnEventEnvControl` | BossMod/Modules/Endwalker/Dungeon/D12Aetherfont/D122Arkas.cs:48-55 | the flag becomes `VoidzoneControlled` of the old flag |
| `ArkasModel.Voidzone.Update` | BossMod/Modules/Endwalker/Dungeon/D12Aetherfont/D122Arkas.cs:57-63 | the arena bounds become `BoundsFor` of the flag |
| `ArkasModel.BoundsFor` | BossMod/Modules/Endwalker/Dungeon/D12Aetherfont/D122Arkas.cs:57-63 | the centre is always the initial one, and the circle is smaller than the initial one exactly when active |
| `ArkasModel.Arena.constructor` | BossMod/Modules/Endwalker/Dungeon/D12Aetherfont/D122Arkas.cs:240 | the arena starts as the radius-14.5 circle at (425, -440) |
| `ArkasModel.VoidzoneCycle` | BossMod/Modules/Endwalker/Dungeon/D12Aetherfont/D122Arkas.cs:50-62 | activation gives radius 10; the clearing state on any index restores the initial bounds |
| `ArkasModel.Table` | BossMod/Modules/Endwalker/Dungeon/D12Aetherfont/D122Arkas.cs:80-87 | every pattern table holds 16 points |
| `ArkasModel.PatternAdded` | BossMod/Modules/Endwalker/Dungeon/D12Aetherfont/D122Arkas.cs:105-114 | indices 4/3 with 0x00200010, or 2/1 with 0x00020001, append that pattern's start and end tables; anything else changes nothing |
| `ArkasModel.BatchAdded` | BossMod/Modules/Endwalker/Dungeon/D12Aetherfont/D122Arkas.cs:116-120 | appends the casters of the requested entries; a pattern list that is too short stops it at its length and fails |
| `ArkasModel.ForkedFissures.AddBatch` | BossMod/Modules/Endwalker/Dungeon/D12Aetherfont/D122Arkas.cs:116-117 | the loop appends exactly `BatchAdded`'s casters |
| `ArkasModel.ForkedFissures.AddCasters` | BossMod/Modules/Endwalker/Dungeon/D12Aetherfont/D122Arkas.cs:115-120 | the two batch rules, as `CastersAdded` states them |
| `ArkasModel.ForkedFissures.OnEventEnvControl` | BossMod/Modules/Endwalker/Dungeon/D12Aetherfont/D122Arkas.cs:100-142 | the lists become `EnvControl` of the old lists, and either fissures state sets the activation to now plus 6 s |
| `ArkasModel.EnvControlGrowth` | BossMod/Modules/Endwalker/Dungeon/D12Aetherfont/D122Arkas.cs:100-142 | both pattern lists grow by one table or not at all; casters are only appended, at most 32 at a time |
| `ArkasModel.AlignedKept` | BossMod/Modules/Endwalker/Dungeon/D12Aetherfont/D122Arkas.cs:100-155 | the start and end lists keep equal length through every event |
| `ArkasModel.EnvControlInRange` | BossMod/Modules/Endwalker/Dungeon/D12Aetherfont/D122Arkas.cs:115-120 | while the pattern lists hold whole tables, no batch runs out of range |
| `ArkasModel.ShortPatternsFail` | BossMod/Modules/Endwalker/Dungeon/D12Aetherfont/D122Arkas.cs:115-117 | pattern lists shortened below 16 make the first batch fail part-way, after appending the entries that exist |
| `ArkasModel.TwoPatternsQueued` | BossMod/Modules/Endwalker/Dungeon/D12Aetherfont/D122Arkas.cs:102-121 | a first pattern queues charges 0..15; a second one before any cast queues charges 16..31 after them |
| `ArkasModel.CastFinished` | BossMod/Modules/Endwalker/Dungeon/D12Aetherfont/D122Arkas.cs:148-156 | a forked-fissures cast drops the head of all three lists exactly when all are non-empty; otherwise nothing changes |
| `ArkasModel.ForkedFissures.OnCastFinished` | BossMod/Modules/Endwalker/Dungeon/D12Aetherfont/D122Arkas.cs:148-156 | the lists become `CastFinished` of the old lists |
| `ArkasModel.CastDropsHead` | BossMod/Modules/Endwalker/Dungeon/D12Aetherfont/D122Arkas.cs:150-155 | the dropped elements are exactly the oldest caster and the oldest start and end |
| `ArkasModel.ForkedFissures.ActiveAOEs` | BossMod/Modules/Endwalker/Dungeon/D12Aetherfont/D122Arkas.cs:93-98 | nothing while the queue is empty; otherwise the first 16 queued charges, with fewer than 16 failing after yielding them all |

## Left out

- Floating point is left out. The model compares positions, rotations, timers, radii and pattern coordinates by equality only. C# NaN semantics (a NaN position makes `MoveActor` always fire) are not modelled.
- The `TotalSeconds` conversion to `float` is left out. Times and durations are integer ticks.
- `CastInfo` is a value here. In the program it is a class, so the actor keeps a reference to the caller's object. A continuation writes the timers into that shared object, and the caller sees the update; the model does not capture that.
- Event handlers are modelled as an appended log. Subscriber order, re-entrancy and what a handler does are out of scope.
- The state-machine tree, its branch ids and `ApplyTimings` are not part of this model. The branch of each phase's starting node, and of each tree node, are inputs of `BuildStateData`. The module registry becomes a nullable `Machine`.
- The state graph is assumed acyclic: every edge leads to a larger node-table index. State ids are assumed unique. The recursive walk ends only under the first assumption, and each listed state sits under its own id only under the second.
- A negative recorded phase index fails like any out-of-range one, as the list indexer does in the program.
- The timeline's UI is left out: its constructor columns, `Draw`, `Close` and `DrawConfig`.
- The other components of the Arkas module are left out, because they only configure library components. The same goes for `UIDev/UITest.cs` (UI) and `SecretPorxie.cs` (float geometry over unseen base classes).
- Director's Belone raid queries become inputs:
  - `Tethered`, `WhereActor(IsValidSoaker)` become slot sets;
  - the `InRadiusExcluding` and `OutOfRadius` tests become booleans;
  - `FindSlot` becomes an integer slot;
  - the role becomes an enumeration.

  The numeric ids of the `RoleCall` and `Miscast` statuses and of the two cursed-casting actions are defined in a file that is not part of this model, so they are enumerations.
- `DirectorsBeloneModel.AddHints`: the risk flag of the three hints added without one (failed, grab and pass) is taken to be `true`, the default that the unseen `TextHints.Add` is assumed to have.
- `DirectorsBeloneModel.StatusGained`: a slot of -1, which `FindSlot` returns for an actor outside the raid, is kept as the member -1 of the set. What the unseen `BitMask` indexer does with it is not modelled.
- The `ForkedFissures.AddHints` debug text (list counts) is left out, because it only displays the list lengths the model already holds.
- A charge's rectangle length and direction are float geometry, so they are not computed. A queued charge keeps the start and end it is built from.
- The activation time of the reported charges is a plain field set by the env-control handler; `AddSeconds(6)` is 6000 ms.
- `ReplayTimeline.LinkedReplay`: the gap of every recorded state, and the sum of the recorded durations, are promised only for linked replays. In a linked replay, each recorded state is reached from the one recorded before it by walking back along the stored predecessors, or it is a state stored with no predecessor that lies after that one in the table. The second case covers entering a later phase at its initial state when the phases' states are laid out in the order the run enters them (`TwoPhasesSum`). A run that enters a phase whose states lie earlier in the table is not covered. Such a run can also zero a state it recorded in an earlier phase, because the lookup keeps the predecessor from the last walk. When a run passes a merge by a branch other than the one the lookup stored, the program zeroes recorded states; `MergeZeroesRecorded` shows it on a diamond. The model keeps that behaviour, and the general `RetroLastWrite` and `RecordKeepsGap` say what each state ends with.
- `WorldStateModel.WorldState.RemoveActor`: for an unregistered id, the program throws only when a destroy handler is subscribed; with none it removes nothing and logs nothing. The model's log stands for a subscribed handler, so it reports failure. The resulting state is the same either way.
- `WorldStateModel.StatusScenario` covers an addition and a refresh only. Removal is covered by the general lemmas.
