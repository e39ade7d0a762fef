/**
 * The integer side of the RPG systems (pkg/game/rpg/systems.go): moving items between two
 * inventories, and the combat queue with the early exits of an attack.
 */
module RpgSystems {
  import opened EcsComponent
  import opened EcsEntity
  import opened EcsSystem
  import opened RpgComponents

  /**
   * Go `InventorySystem`. TransferItem is stated twice: against an oracle that hands it the
   * two inventories (null when the entity has none), and against the real entity manager,
   * whose HasComponent can never see token 104.
   */
  class InventorySystem {
    const base: BaseSystem

    /** `NewInventorySystem`: an enabled system of priority 20. */
    constructor ()
      ensures fresh(base) && base.priority == 20 && base.enabled
    {
      base := new BaseSystem(20);
    }

    /**
     * Moves quantity units of itemID from one inventory to the other: refused when either is
     * missing, when the sender has no stack holding enough, or when the receiver has no room.
     * The sender only loses the items once the receiver has taken them.
     */
    method TransferItem(from: InventoryComponent?, to: InventoryComponent?, itemID: string, quantity: int)
      returns (ok: bool)
      modifies from, to
      ensures from == null || to == null ==> !ok
      ensures from == null ==> to == null || unchanged(to)
      ensures to == null ==> from == null || unchanged(from)
      ensures from != null && to != null ==>
        var has := exists k :: 0 <= k < |old(from.Slots)| && old(from.Slots)[k].ItemID == itemID && old(from.Slots)[k].Quantity >= quantity;
        var room := FindSlot(old(to.Slots), itemID).Some? || |old(to.Slots)| < old(to.MaxSlots);
        && (ok <==> has && room)
        && (!has ==> unchanged(from) && unchanged(to))
        && (has && !room ==> unchanged(from) && unchanged(to))
      ensures from != null && to != null && from != to && ok && old(UniqueIds(from.Slots)) ==>
        && ItemCount(from.Slots, itemID) == old(ItemCount(from.Slots, itemID)) - quantity
        && ItemCount(to.Slots, itemID) == old(ItemCount(to.Slots, itemID)) + quantity
        && ItemCount(from.Slots, itemID) + ItemCount(to.Slots, itemID)
           == old(ItemCount(from.Slots, itemID) + ItemCount(to.Slots, itemID))
      ensures from != null && to != null && from != to ==>
        forall j :: j != itemID ==>
          ItemCount(from.Slots, j) == old(ItemCount(from.Slots, j)) && ItemCount(to.Slots, j) == old(ItemCount(to.Slots, j))
    {
      if from == null || to == null {
        return false;
      }
      var has := from.HasItem(itemID, quantity);
      if !has {
        return false;
      }
      var added := to.AddItem(itemID, quantity);
      if !added {
        return false;
      }
      if from != to && UniqueIds(from.Slots) {
        FindSlotIs(from.Slots, itemID, MatchingSlot(from.Slots, itemID, quantity));
      }
      var _ := from.RemoveItem(itemID, quantity);
      return true;
    }

    /**
     * TransferItem as the source runs it, with the real entity manager: the inventory type
     * constant 104 is no mask bit, so the first guard always refuses and nothing changes.
     */
    method TransferItemWith(em: EntityManager, fromID: EntityId, toID: EntityId, itemID: string, quantity: int)
      returns (ok: bool)
      requires em.Valid()
      ensures !ok
    {
      var fromHas := em.HasComponent(fromID, InventoryComponentType);
      var toHas := em.HasComponent(toID, InventoryComponentType);
      if !fromHas || !toHas {
        return false;
      }
      assert false;
    }
  }

  /** The index of a slot of itemID holding at least quantity, given that one exists. */
  function MatchingSlot(slots: seq<ItemSlot>, itemID: string, quantity: int): (k: nat)
    requires UniqueIds(slots)
    requires exists k :: 0 <= k < |slots| && slots[k].ItemID == itemID && slots[k].Quantity >= quantity
    ensures k < |slots| && slots[k].ItemID == itemID && slots[k].Quantity >= quantity
    ensures forall n :: 0 <= n < k ==> slots[n].ItemID != itemID
  {
    var k :| 0 <= k < |slots| && slots[k].ItemID == itemID && slots[k].Quantity >= quantity;
    k
  }

  /** Go `AttackAction`; the float damage is kept only as data. */
  datatype AttackAction = AttackAction(AttackerID: EntityId, TargetID: EntityId, Damage: real, DamageType: string)

  /** Where one attack stops: one of the three early exits, or the damage path. */
  datatype AttackOutcome = AttackerMissing | TargetMissing | TargetHasNoHealth | Struck

  /** The exit an attack takes against the entity manager. */
  function OutcomeOf(a: AttackAction, em: EntityManager): AttackOutcome
    reads em, em.componentMgr
    requires em.Valid()
  {
    if !em.Exists(a.AttackerID) then AttackerMissing
    else if !em.Exists(a.TargetID) then TargetMissing
    else if !em.HasComponent(a.TargetID, HealthComponentType) then TargetHasNoHealth
    else Struck
  }

  /**
   * The guards in Go's order: a missing attacker is reported first, then a missing target,
   * then a target without health; only an attack passing all three is struck.
   */
  lemma OutcomeOfGuards(a: AttackAction, em: EntityManager)
    requires em.Valid()
    ensures OutcomeOf(a, em) == AttackerMissing <==> a.AttackerID !in em.entities
    ensures OutcomeOf(a, em) == TargetMissing <==> a.AttackerID in em.entities && a.TargetID !in em.entities
    ensures OutcomeOf(a, em) == TargetHasNoHealth <==>
      a.AttackerID in em.entities && a.TargetID in em.entities && !em.HasComponent(a.TargetID, HealthComponentType)
    ensures OutcomeOf(a, em) == Struck <==>
      a.AttackerID in em.entities && a.TargetID in em.entities && em.HasComponent(a.TargetID, HealthComponentType)
  {
  }

  /** With the real manager, no target ever shows a health component, so no attack lands. */
  lemma NoAttackLands(a: AttackAction, em: EntityManager)
    requires em.Valid()
    ensures OutcomeOf(a, em) != Struck
    ensures OutcomeOf(a, em) == TargetHasNoHealth <==> em.Exists(a.AttackerID) && em.Exists(a.TargetID)
  {
    assert HealthComponentType >= 64;
  }

  /** Go `CombatSystem`: a queue of attacks drained once per frame. */
  class CombatSystem {
    const base: BaseSystem
    var attackQueue: seq<AttackAction>

    /** `NewCombatSystem`: an enabled system of priority 5 with an empty queue. */
    constructor ()
      ensures fresh(base) && base.priority == 5 && base.enabled && attackQueue == []
    {
      base := new BaseSystem(5);
      attackQueue := [];
    }

    method QueueAttack(action: AttackAction)
      modifies this
      ensures attackQueue == old(attackQueue) + [action]
    {
      attackQueue := attackQueue + [action];
    }

    /**
     * The early exits of `processAttack`: a missing attacker, a missing target or a target
     * without health. These leave the manager as it was; past them nothing is reachable here.
     */
    method ProcessAttack(a: AttackAction, em: EntityManager) returns (o: AttackOutcome)
      requires em.Valid()
      ensures o == OutcomeOf(a, em)
      ensures o != Struck
    {
      if !em.Exists(a.AttackerID) {
        return AttackerMissing;
      }
      if !em.Exists(a.TargetID) {
        return TargetMissing;
      }
      if !em.HasComponent(a.TargetID, HealthComponentType) {
        return TargetHasNoHealth;
      }
      assert false;
    }

    /**
     * Processes the queued attacks first to last, reporting the exit each one took, and
     * leaves the queue empty.
     */
    method Update(em: EntityManager) returns (trace: seq<AttackOutcome>)
      requires em.Valid()
      modifies this
      ensures attackQueue == []
      ensures |trace| == |old(attackQueue)|
      ensures forall i :: 0 <= i < |trace| ==> trace[i] == OutcomeOf(old(attackQueue)[i], em)
    {
      trace := [];
      var i := 0;
      while i < |attackQueue|
        invariant 0 <= i <= |attackQueue| && attackQueue == old(attackQueue)
        invariant |trace| == i
        invariant forall n :: 0 <= n < i ==> trace[n] == OutcomeOf(attackQueue[n], em)
      {
        var o := ProcessAttack(attackQueue[i], em);
        trace := trace + [o];
        i := i + 1;
      }
      attackQueue := [];
    }
  }
}
