/**
 * The Director's Belone debuff-passing helper of the P4S first-half fight:
 * three per-slot masks (players forbidden from keeping the debuff, players
 * currently carrying it, players who failed and are immune), a one-shot latch
 * that fills the forbidden mask, and the per-player hint that the masks
 * select.
 *
 * Raid slots are integers and a mask is the set of its slots. What the raid
 * queries compute (who is tethered, who is a valid soaker, who stands close
 * to whom, which slot an actor occupies, a player's role) is an input.
 */
module DirectorsBeloneModel {
  import opened Common

  // ---------------------------------------------------------------------------
  // Inputs

  /** What the coils component reports to `Update`: absent, or present with its soakers known or not yet. */
  datatype CoilsView = NoCoils | Coils(soakersKnown: bool)

  /** The statuses the component reacts to; every other status id is `OtherStatus`. */
  datatype StatusKind = RoleCall | Miscast | OtherStatus

  /** The casts the component reacts to; every other action is `OtherCast`. */
  datatype CastKind = CursedCasting1 | CursedCasting2 | OtherCast

  datatype Role = NoRole | Tank | Melee | Ranged | Healer

  /** A raid member as seen by the global hint: its slot and role. */
  datatype Member = Member(slot: int, role: Role)

  // ---------------------------------------------------------------------------
  // The component's state and its transitions

  /** The latch and the three masks. */
  datatype Masks = Masks(isAssigned: bool, forbidden: set<int>, targets: set<int>, immune: set<int>)

  const Initial: Masks := Masks(false, {}, {}, {})

  /**
   * The state after one `Update`: an unassigned component takes the forbidden
   * mask from the bloodrake tethers when there is no coils component, from
   * the valid soakers once the coils know them, and otherwise waits.
   */
  function Updated(s: Masks, coils: CoilsView, tethered: set<int>, soakers: set<int>): (r: Masks)
    ensures r.targets == s.targets && r.immune == s.immune
    ensures s.isAssigned ==> r == s
    ensures r.isAssigned <==> s.isAssigned || coils.NoCoils? || coils.soakersKnown
    ensures !s.isAssigned && coils.NoCoils? ==> r.forbidden == tethered
    ensures !s.isAssigned && coils.Coils? ==> r.forbidden == if coils.soakersKnown then soakers else s.forbidden
  {
    if s.isAssigned then s
    else
      match coils
      case NoCoils => s.(forbidden := tethered, isAssigned := true)
      case Coils(known) => if known then s.(forbidden := soakers, isAssigned := true) else s
  }

  /** The state after the actor in `slot` gains a status of kind `kind`. */
  function StatusGained(s: Masks, kind: StatusKind, slot: int): (r: Masks)
    ensures r.isAssigned == s.isAssigned && r.forbidden == s.forbidden
    ensures r.targets == if kind == RoleCall then s.targets + {slot} else s.targets
    ensures r.immune == if kind == Miscast then s.immune + {slot} else s.immune
  {
    match kind
    case RoleCall => s.(targets := s.targets + {slot})
    case Miscast => s.(immune := s.immune + {slot})
    case OtherStatus => s
  }

  /** The state after the actor in `slot` loses a status of kind `kind`. */
  function StatusLost(s: Masks, kind: StatusKind, slot: int): (r: Masks)
    ensures r.isAssigned == s.isAssigned && r.forbidden == s.forbidden
    ensures r.targets == if kind == RoleCall then s.targets - {slot} else s.targets
    ensures r.immune == if kind == Miscast then s.immune - {slot} else s.immune
  {
    match kind
    case RoleCall => s.(targets := s.targets - {slot})
    case Miscast => s.(immune := s.immune - {slot})
    case OtherStatus => s
  }

  /** The state after a cast event: either cursed casting empties the forbidden mask. */
  function CastSeen(s: Masks, cast: CastKind): (r: Masks)
    ensures r.isAssigned == s.isAssigned && r.targets == s.targets && r.immune == s.immune
    ensures r.forbidden == if cast.OtherCast? then s.forbidden else {}
  {
    if !cast.OtherCast? then s.(forbidden := {}) else s
  }

  /** The component as the module holds it, its fields updated in place by the event handlers. */
  class DirectorsBelone {
    var isAssigned: bool
    var forbidden: set<int>
    var targets: set<int>
    var immune: set<int>

    function State(): Masks
      reads this
    {
      Masks(isAssigned, forbidden, targets, immune)
    }

    constructor ()
      ensures State() == Initial
    {
      isAssigned := false;
      forbidden := {};
      targets := {};
      immune := {};
    }

    method Update(coils: CoilsView, tethered: set<int>, soakers: set<int>)
      modifies this
      ensures State() == Updated(old(State()), coils, tethered, soakers)
    {
      if !isAssigned {
        match coils
        case NoCoils =>
          forbidden := tethered;
          isAssigned := true;
        case Coils(known) =>
          if known {
            forbidden := soakers;
            isAssigned := true;
          }
      }
    }

    method OnStatusGain(kind: StatusKind, slot: int)
      modifies this
      ensures State() == StatusGained(old(State()), kind, slot)
    {
      match kind
      case RoleCall => targets := targets + {slot};
      case Miscast => immune := immune + {slot};
      case OtherStatus =>
    }

    method OnStatusLose(kind: StatusKind, slot: int)
      modifies this
      ensures State() == StatusLost(old(State()), kind, slot)
    {
      match kind
      case RoleCall => targets := targets - {slot};
      case Miscast => immune := immune - {slot};
      case OtherStatus =>
    }

    method OnEventCast(cast: CastKind)
      modifies this
      ensures State() == CastSeen(old(State()), cast)
    {
      if cast.CursedCasting1? || cast.CursedCasting2? {
        forbidden := {};
      }
    }
  }

  // ---------------------------------------------------------------------------
  // What the masks decide

  /** A line of the per-player hint panel; a risky hint is shown as a warning. */
  datatype TextHint = TextHint(text: string, isRisk: bool)

  const SpreadText: string := "Debuffs: spread and prepare to handle!"
  const FailedText: string := "Debuffs: failed to handle"
  const OkText: string := "Debuffs: OK"
  const GrabText: string := "Debuffs: grab!"
  const StackText: string := "Debuffs: stack and prepare to pass!"
  const PassText: string := "Debuffs: pass!"
  const AvoidText: string := "Debuffs: avoid"

  /**
   * The hint for the player in `slot`: nothing while the forbidden mask is
   * empty; a player who may keep the debuff is told to spread (until
   * someone carries it), that they failed, that all is well, or to grab it;
   * a forbidden player is told to stack (until someone carries it), to pass
   * it on, or to stay away. `stacked` says some other player stands within
   * the pass range of this one, and `badStack` that some other forbidden
   * player stands outside it.
   */
  function AddHints(s: Masks, slot: int, stacked: bool, badStack: bool): (r: Option<TextHint>)
    ensures r.None? <==> s.forbidden == {}
    ensures r == Some(TextHint(SpreadText, stacked)) <==> s.forbidden != {} && slot !in s.forbidden && s.targets == {}
    ensures r == Some(TextHint(FailedText, true)) <==>
              s.forbidden != {} && slot !in s.forbidden && s.targets != {} && slot in s.immune
    ensures r == Some(TextHint(OkText, false)) <==>
              s.forbidden != {} && slot !in s.forbidden && slot !in s.immune && slot in s.targets
    ensures r == Some(TextHint(GrabText, true)) <==>
              s.forbidden != {} && slot !in s.forbidden && s.targets != {} && slot !in s.immune && slot !in s.targets
    ensures r == Some(TextHint(StackText, badStack)) <==> slot in s.forbidden && s.targets == {}
    ensures r == Some(TextHint(PassText, true)) <==> slot in s.forbidden && slot in s.targets
    ensures r == Some(TextHint(AvoidText, false)) <==> slot in s.forbidden && s.targets != {} && slot !in s.targets
  {
    if s.forbidden == {} then None
    else if slot !in s.forbidden then
      if s.targets == {} then Some(TextHint(SpreadText, stacked))
      else if slot in s.immune then Some(TextHint(FailedText, true))
      else if slot in s.targets then Some(TextHint(OkText, false))
      else Some(TextHint(GrabText, true))
    else
      if s.targets == {} then Some(TextHint(StackText, badStack))
      else if slot in s.targets then Some(TextHint(PassText, true))
      else Some(TextHint(AvoidText, false))
  }

  datatype ArenaColor = Danger | PlayerGeneric

  /** One player drawn on the arena, in the given colour. */
  datatype Mark = Mark(slot: int, color: ArenaColor)

  /**
   * The players drawn on the arena, `raid` listing the occupied slots in
   * slot order: nothing while nobody carries the debuff, otherwise every
   * player, in danger colour exactly when forbidden and carrying it.
   */
  function DrawArenaForeground(s: Masks, raid: seq<int>): (r: seq<Mark>)
    ensures s.targets == {} ==> r == []
    ensures s.targets != {} ==> |r| == |raid|
    ensures s.targets != {} ==> forall i :: 0 <= i < |r| ==>
              r[i].slot == raid[i] && (r[i].color == Danger <==> raid[i] in s.forbidden * s.targets)
  {
    if s.targets == {} then []
    else seq(|raid|, i requires 0 <= i < |raid| => Mark(raid[i], if raid[i] in s.forbidden * s.targets then Danger else PlayerGeneric))
  }

  /**
   * The raid-wide hint: the role group that stacks, read from the first
   * member (dead ones included) in the forbidden mask, if there is one.
   */
  function AddGlobalHints(s: Masks, raid: seq<Member>): (r: Option<string>)
    ensures r.None? <==> forall i :: 0 <= i < |raid| ==> raid[i].slot !in s.forbidden
    ensures r.Some? ==> exists i :: 0 <= i < |raid| && raid[i].slot in s.forbidden
                          && (forall j :: 0 <= j < i ==> raid[j].slot !in s.forbidden)
                          && r.value == StackGroup(raid[i].role)
    decreases |raid|
  {
    if raid == [] then None
    else if raid[0].slot in s.forbidden then Some(StackGroup(raid[0].role))
    else
      var rest := AddGlobalHints(s, raid[1..]);
      assert forall i :: 1 <= i < |raid| ==> raid[i] == raid[1..][i - 1];
      rest
  }

  function StackGroup(role: Role): string
  {
    if role == Tank || role == Healer then "Stack: Tanks/Healers" else "Stack: DD"
  }

  // ---------------------------------------------------------------------------
  // Properties across several events

  /** One call of `Update` with its raid queries. */
  datatype UpdateInput = UpdateInput(coils: CoilsView, tethered: set<int>, soakers: set<int>)

  function UpdatedAll(s: Masks, inputs: seq<UpdateInput>): Masks
    decreases |inputs|
  {
    if inputs == [] then s
    else UpdatedAll(Updated(s, inputs[0].coils, inputs[0].tethered, inputs[0].soakers), inputs[1..])
  }

  /** Once assigned, no number of updates changes anything. */
  lemma {:induction false} AssignedLatches(s: Masks, inputs: seq<UpdateInput>)
    requires s.isAssigned
    ensures UpdatedAll(s, inputs) == s
    decreases |inputs|
  {
    if inputs != [] {
      AssignedLatches(Updated(s, inputs[0].coils, inputs[0].tethered, inputs[0].soakers), inputs[1..]);
    }
  }

  /** While the coils do not know their soakers, updates leave an unassigned component unassigned. */
  lemma {:induction false} CoilsWait(s: Masks, inputs: seq<UpdateInput>)
    requires !s.isAssigned
    requires forall i :: 0 <= i < |inputs| ==> inputs[i].coils == Coils(false)
    ensures UpdatedAll(s, inputs) == s
    decreases |inputs|
  {
    if inputs != [] {
      assert inputs[0].coils == Coils(false);
      assert forall i :: 0 <= i < |inputs[1..]| ==> inputs[1..][i] == inputs[i + 1];
      CoilsWait(s, inputs[1..]);
    }
  }

  /** The first update of the fight assigns the forbidden mask from the tethers when there are no coils. */
  lemma AssignedOnFirstUpdate(tethered: set<int>, soakers: set<int>)
    ensures Updated(Initial, NoCoils, tethered, soakers) == Masks(true, tethered, {}, {})
  {
  }

  /**
   * Losing a status right after gaining it is the same as only losing it: the
   * bit ends cleared, and a slot that did not hold it is back where it was.
   */
  lemma GainThenLose(s: Masks, kind: StatusKind, slot: int)
    ensures StatusLost(StatusGained(s, kind, slot), kind, slot) == StatusLost(s, kind, slot)
    ensures slot !in s.targets && slot !in s.immune ==> StatusLost(StatusGained(s, kind, slot), kind, slot) == s
  {
  }

  /** Gaining a status touches at most the actor's own slot. */
  lemma GainTouchesOneSlot(s: Masks, kind: StatusKind, slot: int, other: int)
    requires other != slot
    ensures var r := StatusGained(s, kind, slot);
      (other in r.targets <==> other in s.targets) && (other in r.immune <==> other in s.immune)
  {
  }

  /** After either cursed casting, no player gets a hint, whatever the raid geometry. */
  lemma CastSilencesHints(s: Masks, cast: CastKind, slot: int, stacked: bool, badStack: bool)
    requires !cast.OtherCast?
    ensures AddHints(CastSeen(s, cast), slot, stacked, badStack).None?
  {
  }

  /** A player who failed is told so even while also carrying the debuff. */
  lemma FailedBeforeTargeted(s: Masks, slot: int, stacked: bool, badStack: bool)
    requires s.forbidden != {} && slot !in s.forbidden && slot in s.immune && slot in s.targets
    ensures AddHints(s, slot, stacked, badStack) == Some(TextHint(FailedText, true))
  {
  }

  /** The immune mask never changes what a forbidden player is told. */
  lemma ImmuneIrrelevantWhenForbidden(s: Masks, immune: set<int>, slot: int, stacked: bool, badStack: bool)
    requires slot in s.forbidden
    ensures AddHints(s.(immune := immune), slot, stacked, badStack) == AddHints(s, slot, stacked, badStack)
  {
  }

  /** The danger-coloured players are exactly the drawn slots that are forbidden and carry the debuff. */
  lemma DangerSlots(s: Masks, raid: seq<int>)
    requires s.targets != {}
    ensures (set m | m in DrawArenaForeground(s, raid) && m.color == Danger :: m.slot)
            == (set t | t in raid && t in s.forbidden && t in s.targets)
  {
    var r := DrawArenaForeground(s, raid);
    forall t | t in raid && t in s.forbidden && t in s.targets
      ensures t in (set m | m in r && m.color == Danger :: m.slot)
    {
      var i :| 0 <= i < |raid| && raid[i] == t;
      assert r[i] in r;
    }
  }
}
