/**
 * The integer parts of the RPG components (pkg/game/rpg/components.go): inventory stacks,
 * equipment slots, the quest log and level-up arithmetic.
 */
module RpgComponents {
  import opened Wrappers
  import Seqs

  /** The `Type()` answers of the RPG components: consecutive constants from 100. */
  const HealthComponentType: nat := 100
  const ManaComponentType: nat := 101
  const StaminaComponentType: nat := 102
  const StatsComponentType: nat := 103
  const InventoryComponentType: nat := 104
  const EquipmentComponentType: nat := 105
  const QuestLogComponentType: nat := 106

  // ---------------------------------------------------------------- inventory

  datatype ItemSlot = ItemSlot(ItemID: string, Quantity: int)

  /** The index of the first slot holding id, if any. */
  function FindSlot(slots: seq<ItemSlot>, id: string): (r: Option<nat>)
    ensures r.Some? ==> r.value < |slots| && slots[r.value].ItemID == id
    ensures r.Some? ==> forall k :: 0 <= k < r.value ==> slots[k].ItemID != id
    ensures r.None? <==> forall k :: 0 <= k < |slots| ==> slots[k].ItemID != id
  {
    if slots == [] then None
    else if slots[0].ItemID == id then Some(0)
    else match FindSlot(slots[1..], id)
      case None => None
      case Some(k) => Some(k + 1)
  }

  /** The quantity of the first slot holding id, or 0. */
  function ItemCount(slots: seq<ItemSlot>, id: string): int
  {
    match FindSlot(slots, id)
    case None => 0
    case Some(k) => slots[k].Quantity
  }

  /** At most one slot per item id. */
  predicate UniqueIds(slots: seq<ItemSlot>)
  {
    forall i, j :: 0 <= i < j < |slots| ==> slots[i].ItemID != slots[j].ItemID
  }

  /** FindSlot is pinned down by "first index holding id". */
  lemma FindSlotIs(slots: seq<ItemSlot>, id: string, i: nat)
    requires i < |slots| && slots[i].ItemID == id
    requires forall k :: 0 <= k < i ==> slots[k].ItemID != id
    ensures FindSlot(slots, id) == Some(i)
  {
  }

  /** Changing the quantity of one slot changes no slot search. */
  lemma SetQuantityKeepsSlots(slots: seq<ItemSlot>, k: nat, v: int, j: string)
    requires k < |slots|
    ensures var s' := slots[k := ItemSlot(slots[k].ItemID, v)];
            FindSlot(s', j) == FindSlot(slots, j)
  {
    var s' := slots[k := ItemSlot(slots[k].ItemID, v)];
    match FindSlot(slots, j)
    case None =>
    case Some(m) => FindSlotIs(s', j, m);
  }

  /** A new last slot for an absent id is where that id is found; other searches are unchanged. */
  lemma AppendSlotFinds(slots: seq<ItemSlot>, id: string, q: int, j: string)
    requires FindSlot(slots, id).None?
    ensures var s' := slots + [ItemSlot(id, q)];
            FindSlot(s', j) == if j == id then Some(|slots|) else FindSlot(slots, j)
  {
    var s' := slots + [ItemSlot(id, q)];
    if j == id {
      FindSlotIs(s', j, |slots|);
    } else {
      match FindSlot(slots, j)
      case None =>
      case Some(m) => FindSlotIs(s', j, m);
    }
  }

  /** Splicing out a slot keeps an id that had no slot absent. */
  lemma RemoveSlotKeepsAbsent(slots: seq<ItemSlot>, k: nat, j: string)
    requires k < |slots| && FindSlot(slots, j).None?
    ensures FindSlot(Seqs.RemoveAt(slots, k), j).None?
  {
    var s' := Seqs.RemoveAt(slots, k);
    forall m | 0 <= m < |s'| ensures s'[m].ItemID != j {
      if m >= k { assert s'[m] == slots[m + 1]; }
    }
  }

  /** Splicing out slot k moves the first slot of another id found after k one place down. */
  lemma RemoveSlotShifts(slots: seq<ItemSlot>, k: nat, j: string, m: nat)
    requires k < m < |slots| && FindSlot(slots, j) == Some(m)
    ensures FindSlot(Seqs.RemoveAt(slots, k), j) == Some(m - 1)
  {
    var s' := Seqs.RemoveAt(slots, k);
    assert s'[m - 1] == slots[m];
    forall n | 0 <= n < m - 1 ensures s'[n].ItemID != j {
      if n >= k { assert s'[n] == slots[n + 1]; }
    }
    FindSlotIs(s', j, m - 1);
  }

  /** Splicing out the first slot of id keeps every other id's first slot, so its count. */
  lemma RemoveSlotKeepsOthers(slots: seq<ItemSlot>, k: nat, j: string)
    requires k < |slots| && FindSlot(slots, slots[k].ItemID) == Some(k) && j != slots[k].ItemID
    ensures ItemCount(Seqs.RemoveAt(slots, k), j) == ItemCount(slots, j)
  {
    var s' := Seqs.RemoveAt(slots, k);
    var r := FindSlot(slots, j);
    if r.None? {
      RemoveSlotKeepsAbsent(slots, k, j);
    } else if r.value < k {
      forall n | 0 <= n <= r.value ensures s'[n] == slots[n] { }
      FindSlotIs(s', j, r.value);
    } else {
      RemoveSlotShifts(slots, k, j, r.value);
      assert s'[r.value - 1] == slots[r.value];
    }
  }

  /** Under unique ids, splicing out id's slot leaves no slot of id. */
  lemma RemoveSlotDropsId(slots: seq<ItemSlot>, k: nat)
    requires k < |slots| && UniqueIds(slots)
    ensures FindSlot(Seqs.RemoveAt(slots, k), slots[k].ItemID).None?
    ensures UniqueIds(Seqs.RemoveAt(slots, k))
  {
    var s' := Seqs.RemoveAt(slots, k);
    forall m | 0 <= m < |s'| ensures s'[m].ItemID != slots[k].ItemID {
      if m >= k { assert s'[m] == slots[m + 1]; }
    }
    forall a, b | 0 <= a < b < |s'| ensures s'[a].ItemID != s'[b].ItemID {
      var a' := if a < k then a else a + 1;
      var b' := if b < k then b else b + 1;
      assert s'[a] == slots[a'] && s'[b] == slots[b'];
    }
  }

  /** Go `InventoryComponent`, without the float weight fields. */
  class InventoryComponent {
    var Slots: seq<ItemSlot>
    var MaxSlots: int
    var Gold: int

    constructor (maxSlots: int)
      ensures Slots == [] && MaxSlots == maxSlots && Gold == 0
    {
      Slots := [];
      MaxSlots := maxSlots;
      Gold := 0;
    }

    /**
     * Adds quantity to the first stack of itemID, even when the inventory is full; otherwise
     * opens a new last stack, unless the inventory already has MaxSlots stacks. The count of
     * every other item is unchanged either way.
     */
    method AddItem(itemID: string, quantity: int) returns (ok: bool)
      modifies this
      ensures MaxSlots == old(MaxSlots) && Gold == old(Gold)
      ensures ok <==> FindSlot(old(Slots), itemID).Some? || |old(Slots)| < MaxSlots
      ensures !ok ==> unchanged(this)
      ensures FindSlot(old(Slots), itemID).Some? ==>
        var k := FindSlot(old(Slots), itemID).value;
        Slots == old(Slots)[k := ItemSlot(itemID, old(Slots)[k].Quantity + quantity)]
      ensures FindSlot(old(Slots), itemID).None? ==>
        Slots == if ok then old(Slots) + [ItemSlot(itemID, quantity)] else old(Slots)
      ensures ItemCount(Slots, itemID) == ItemCount(old(Slots), itemID) + (if ok then quantity else 0)
      ensures forall j :: j != itemID ==> ItemCount(Slots, j) == ItemCount(old(Slots), j)
      ensures old(UniqueIds(Slots)) ==> UniqueIds(Slots)
      ensures old(|Slots| <= MaxSlots) ==> |Slots| <= MaxSlots
    {
      var idx := 0;
      while idx < |Slots|
        invariant 0 <= idx <= |Slots| && Slots == old(Slots)
        invariant forall k :: 0 <= k < idx ==> Slots[k].ItemID != itemID
      {
        if Slots[idx].ItemID == itemID {
          FindSlotIs(Slots, itemID, idx);
          var v := Slots[idx].Quantity + quantity;
          forall j ensures FindSlot(Slots[idx := ItemSlot(itemID, v)], j) == FindSlot(Slots, j) {
            SetQuantityKeepsSlots(Slots, idx, v, j);
          }
          Slots := Slots[idx := ItemSlot(itemID, v)];
          return true;
        }
        idx := idx + 1;
      }
      if |Slots| >= MaxSlots {
        return false;
      }
      forall j ensures FindSlot(Slots + [ItemSlot(itemID, quantity)], j) == if j == itemID then Some(|Slots|) else FindSlot(Slots, j) {
        AppendSlotFinds(Slots, itemID, quantity, j);
      }
      Slots := Slots + [ItemSlot(itemID, quantity)];
      return true;
    }

    /**
     * Takes quantity from the first stack of itemID. Refuses, changing nothing, when there is
     * no stack or it holds less; a stack that reaches exactly 0 is spliced out and the other
     * stacks keep their order.
     */
    method RemoveItem(itemID: string, quantity: int) returns (ok: bool)
      modifies this
      ensures MaxSlots == old(MaxSlots) && Gold == old(Gold)
      ensures ok <==> FindSlot(old(Slots), itemID).Some? && old(Slots)[FindSlot(old(Slots), itemID).value].Quantity >= quantity
      ensures !ok ==> unchanged(this)
      ensures ok ==>
        var k := FindSlot(old(Slots), itemID).value;
        var left := old(Slots)[k].Quantity - quantity;
        Slots == if left == 0 then Seqs.RemoveAt(old(Slots), k) else old(Slots)[k := ItemSlot(itemID, left)]
      ensures forall j :: j != itemID ==> ItemCount(Slots, j) == ItemCount(old(Slots), j)
      ensures old(UniqueIds(Slots)) ==> UniqueIds(Slots)
      ensures old(UniqueIds(Slots)) ==>
        ItemCount(Slots, itemID) == ItemCount(old(Slots), itemID) - (if ok then quantity else 0)
      ensures |Slots| <= |old(Slots)|
    {
      var idx := 0;
      while idx < |Slots|
        invariant 0 <= idx <= |Slots| && Slots == old(Slots)
        invariant forall k :: 0 <= k < idx ==> Slots[k].ItemID != itemID
      {
        if Slots[idx].ItemID == itemID {
          FindSlotIs(Slots, itemID, idx);
          if Slots[idx].Quantity < quantity {
            return false;
          }
          var left := Slots[idx].Quantity - quantity;
          if left == 0 {
            forall j | j != itemID ensures ItemCount(Seqs.RemoveAt(Slots, idx), j) == ItemCount(Slots, j) {
              RemoveSlotKeepsOthers(Slots, idx, j);
            }
            if UniqueIds(Slots) {
              RemoveSlotDropsId(Slots, idx);
            }
            Slots := Slots[..idx] + Slots[idx + 1..];
          } else {
            forall j ensures FindSlot(Slots[idx := ItemSlot(itemID, left)], j) == FindSlot(Slots, j) {
              SetQuantityKeepsSlots(Slots, idx, left, j);
            }
            Slots := Slots[idx := ItemSlot(itemID, left)];
          }
          return true;
        }
        idx := idx + 1;
      }
      return false;
    }

    /** Whether some stack of itemID holds at least quantity. */
    method HasItem(itemID: string, quantity: int) returns (b: bool)
      ensures b <==> exists k :: 0 <= k < |Slots| && Slots[k].ItemID == itemID && Slots[k].Quantity >= quantity
      ensures UniqueIds(Slots) ==> (b <==> FindSlot(Slots, itemID).Some? && ItemCount(Slots, itemID) >= quantity)
    {
      var idx := 0;
      while idx < |Slots|
        invariant 0 <= idx <= |Slots|
        invariant forall k :: 0 <= k < idx ==> !(Slots[k].ItemID == itemID && Slots[k].Quantity >= quantity)
      {
        if Slots[idx].ItemID == itemID && Slots[idx].Quantity >= quantity {
          if UniqueIds(Slots) {
            FindSlotIs(Slots, itemID, idx);
          }
          return true;
        }
        idx := idx + 1;
      }
      return false;
    }

    /** The quantity of the first stack of itemID, or 0. */
    method GetItemCount(itemID: string) returns (n: int)
      ensures n == ItemCount(Slots, itemID)
      ensures FindSlot(Slots, itemID).None? ==> n == 0
    {
      var idx := 0;
      while idx < |Slots|
        invariant 0 <= idx <= |Slots|
        invariant forall k :: 0 <= k < idx ==> Slots[k].ItemID != itemID
      {
        if Slots[idx].ItemID == itemID {
          FindSlotIs(Slots, itemID, idx);
          return Slots[idx].Quantity;
        }
        idx := idx + 1;
      }
      return 0;
    }
  }

  // ---------------------------------------------------------------- equipment

  /**
   * Go `EquipmentComponent`: slot name -> item id. A nil map and an empty one answer every
   * operation alike, so both are the empty map here.
   */
  class EquipmentComponent {
    var Slots: map<string, string>

    constructor ()
      ensures Slots == map[]
    {
      Slots := map[];
    }

    /** The item in the slot, or "" for an empty slot. */
    function GetEquipped(slot: string): (item: string)
      reads this
      ensures slot in Slots ==> item == Slots[slot]
      ensures slot !in Slots ==> item == ""
    {
      if slot in Slots then Slots[slot] else ""
    }

    /** Puts the item in the slot and returns what was there before, or "". */
    method Equip(slot: string, itemID: string) returns (previous: string)
      modifies this
      ensures previous == old(GetEquipped(slot))
      ensures Slots == old(Slots)[slot := itemID]
      ensures GetEquipped(slot) == itemID
    {
      previous := if slot in Slots then Slots[slot] else "";
      Slots := Slots[slot := itemID];
    }

    /** Empties the slot and returns what was there, or "". */
    method Unequip(slot: string) returns (item: string)
      modifies this
      ensures item == old(GetEquipped(slot))
      ensures Slots == old(Slots) - {slot}
      ensures GetEquipped(slot) == ""
    {
      item := if slot in Slots then Slots[slot] else "";
      Slots := Slots - {slot};
    }
  }

  // ---------------------------------------------------------------- quests

  datatype QuestStatus = NotStarted | InProgress | Completed | Failed

  /**
   * A Go `map[string]int` of objective counts. Go maps are references: every copy of a
   * `Quest` struct shares its map, so a write through one copy is seen by all of them.
   */
  class ObjectiveMap {
    var counts: map<string, int>

    constructor ()
      ensures counts == map[]
    {
      counts := map[];
    }
  }

  /** Go `Quest`; a null `Objectives` is Go's nil map. */
  datatype Quest = Quest(
    ID: string,
    Status: QuestStatus,
    Objectives: ObjectiveMap?,
    Rewards: seq<string>,
    GoldReward: int,
    ExpReward: int)

  /** The index of the first quest with this id, if any. */
  function FindQuest(quests: seq<Quest>, id: string): (r: Option<nat>)
    ensures r.Some? ==> r.value < |quests| && quests[r.value].ID == id
    ensures r.Some? ==> forall k :: 0 <= k < r.value ==> quests[k].ID != id
    ensures r.None? <==> forall k :: 0 <= k < |quests| ==> quests[k].ID != id
  {
    if quests == [] then None
    else if quests[0].ID == id then Some(0)
    else match FindQuest(quests[1..], id)
      case None => None
      case Some(k) => Some(k + 1)
  }

  /** FindQuest is pinned down by "first index with this id". */
  lemma FindQuestIs(quests: seq<Quest>, id: string, i: nat)
    requires i < |quests| && quests[i].ID == id
    requires forall k :: 0 <= k < i ==> quests[k].ID != id
    ensures FindQuest(quests, id) == Some(i)
  {
  }

  /** Go `QuestLogComponent`. */
  class QuestLogComponent {
    var ActiveQuests: seq<Quest>
    var CompletedQuests: seq<string>
    var FailedQuests: seq<string>

    constructor ()
      ensures ActiveQuests == [] && CompletedQuests == [] && FailedQuests == []
    {
      ActiveQuests := [];
      CompletedQuests := [];
      FailedQuests := [];
    }

    /** Appends the quest, marked in progress, whatever its own status was. */
    method StartQuest(quest: Quest)
      modifies this
      ensures ActiveQuests == old(ActiveQuests) + [quest.(Status := InProgress)]
      ensures CompletedQuests == old(CompletedQuests) && FailedQuests == old(FailedQuests)
    {
      ActiveQuests := ActiveQuests + [quest.(Status := InProgress)];
    }

    /**
     * Moves the first active quest with this id to the completed ids. Without an active
     * quest of that id it refuses and changes nothing.
     */
    method CompleteQuest(questID: string) returns (ok: bool)
      modifies this
      ensures ok <==> FindQuest(old(ActiveQuests), questID).Some?
      ensures FailedQuests == old(FailedQuests)
      ensures !ok ==> ActiveQuests == old(ActiveQuests) && CompletedQuests == old(CompletedQuests)
      ensures ok ==>
        && ActiveQuests == Seqs.RemoveAt(old(ActiveQuests), FindQuest(old(ActiveQuests), questID).value)
        && CompletedQuests == old(CompletedQuests) + [questID]
      ensures ok ==> HasCompletedQuest(questID)
    {
      var idx := 0;
      while idx < |ActiveQuests|
        invariant 0 <= idx <= |ActiveQuests| && ActiveQuests == old(ActiveQuests)
        invariant CompletedQuests == old(CompletedQuests)
        invariant forall k :: 0 <= k < idx ==> ActiveQuests[k].ID != questID
      {
        if ActiveQuests[idx].ID == questID {
          FindQuestIs(ActiveQuests, questID, idx);
          CompletedQuests := CompletedQuests + [questID];
          ActiveQuests := ActiveQuests[..idx] + ActiveQuests[idx + 1..];
          return true;
        }
        idx := idx + 1;
      }
      return false;
    }

    /** The objective maps the active quests refer to. */
    ghost function ObjectiveMaps(quests: seq<Quest>): set<ObjectiveMap>
    {
      set q | q in quests && q.Objectives != null :: q.Objectives
    }

    /**
     * Sets one objective count on the first active quest with this id. Its map is written in
     * place, so every quest value sharing that map sees the new count; a nil map is first
     * replaced, in that quest only, by a new one. No other map changes, and nothing changes
     * when no quest has that id.
     */
    method UpdateObjective(questID: string, objectiveID: string, count: int)
      modifies this, ObjectiveMaps(ActiveQuests)
      ensures CompletedQuests == old(CompletedQuests) && FailedQuests == old(FailedQuests)
      ensures |ActiveQuests| == |old(ActiveQuests)|
      ensures FindQuest(old(ActiveQuests), questID).None? ==>
        ActiveQuests == old(ActiveQuests) && unchanged(ObjectiveMaps(old(ActiveQuests)))
      ensures FindQuest(old(ActiveQuests), questID).Some? && old(ActiveQuests)[FindQuest(old(ActiveQuests), questID).value].Objectives == null ==>
        var k := FindQuest(old(ActiveQuests), questID).value;
        var o := ActiveQuests[k].Objectives;
        && ActiveQuests == old(ActiveQuests)[k := old(ActiveQuests)[k].(Objectives := o)]
        && o != null && fresh(o) && o.counts == map[objectiveID := count]
        && unchanged(ObjectiveMaps(old(ActiveQuests)))
      ensures FindQuest(old(ActiveQuests), questID).Some? && old(ActiveQuests)[FindQuest(old(ActiveQuests), questID).value].Objectives != null ==>
        var o := old(ActiveQuests)[FindQuest(old(ActiveQuests), questID).value].Objectives;
        && ActiveQuests == old(ActiveQuests)
        && o.counts == old(o.counts)[objectiveID := count]
        && forall m :: m in ObjectiveMaps(old(ActiveQuests)) && m != o ==> unchanged(m)
    {
      var idx := 0;
      while idx < |ActiveQuests|
        invariant 0 <= idx <= |ActiveQuests| && ActiveQuests == old(ActiveQuests)
        invariant forall k :: 0 <= k < idx ==> ActiveQuests[k].ID != questID
      {
        if ActiveQuests[idx].ID == questID {
          FindQuestIs(ActiveQuests, questID, idx);
          var q := ActiveQuests[idx];
          if q.Objectives == null {
            var made := new ObjectiveMap();
            ActiveQuests := ActiveQuests[idx := q.(Objectives := made)];
          } else {
            assert q in old(ActiveQuests);
          }
          var o := ActiveQuests[idx].Objectives;
          o.counts := o.counts[objectiveID := count];
          return;
        }
        idx := idx + 1;
      }
    }

    /** The first active quest with this id, or None. */
    method GetQuest(questID: string) returns (r: Option<Quest>)
      ensures r.None? <==> FindQuest(ActiveQuests, questID).None?
      ensures r.Some? ==> r.value == ActiveQuests[FindQuest(ActiveQuests, questID).value] && r.value.ID == questID
    {
      var idx := 0;
      while idx < |ActiveQuests|
        invariant 0 <= idx <= |ActiveQuests|
        invariant forall k :: 0 <= k < idx ==> ActiveQuests[k].ID != questID
      {
        if ActiveQuests[idx].ID == questID {
          FindQuestIs(ActiveQuests, questID, idx);
          return Some(ActiveQuests[idx]);
        }
        idx := idx + 1;
      }
      return None;
    }

    /** Whether the id is among the completed ones. */
    predicate HasCompletedQuest(questID: string)
      reads this
    {
      questID in CompletedQuests
    }

    /** The loop behind `HasCompletedQuest`: a linear scan of the completed ids. */
    method ScanCompleted(questID: string) returns (b: bool)
      ensures b <==> HasCompletedQuest(questID)
    {
      var idx := 0;
      while idx < |CompletedQuests|
        invariant 0 <= idx <= |CompletedQuests|
        invariant questID !in CompletedQuests[..idx]
      {
        if CompletedQuests[idx] == questID {
          return true;
        }
        assert CompletedQuests[..idx + 1] == CompletedQuests[..idx] + [CompletedQuests[idx]];
        idx := idx + 1;
      }
      assert CompletedQuests[..idx] == CompletedQuests;
      return false;
    }
  }

  // ---------------------------------------------------------------- stats

  /** `int(float32(x) * 1.5)`: three halves of x, truncated toward zero. */
  function ThreeHalves(x: int): (r: int)
    ensures x >= 0 ==> 2 * r <= 3 * x < 2 * r + 2
    ensures x < 0 ==> 2 * r - 2 < 3 * x <= 2 * r
    ensures x > 0 ==> r >= x
  {
    if x >= 0 then (3 * x) / 2 else -((3 * -x) / 2)
  }

  /** Go `StatsComponent`, integer fields only. */
  class StatsComponent {
    var Level: int
    var Strength: int
    var Agility: int
    var Intelligence: int
    var Vitality: int
    var Luck: int
    var Experience: int
    var ExperienceToNextLevel: int

    /**
     * One level more: the threshold is paid out of the experience, the threshold grows by
     * half, and the attributes rise by 2, 2, 2, 3 and 1.
     */
    method LevelUp()
      modifies this
      ensures Level == old(Level) + 1
      ensures Experience == old(Experience) - old(ExperienceToNextLevel)
      ensures ExperienceToNextLevel == ThreeHalves(old(ExperienceToNextLevel))
      ensures Strength == old(Strength) + 2 && Agility == old(Agility) + 2
      ensures Intelligence == old(Intelligence) + 2 && Vitality == old(Vitality) + 3
      ensures Luck == old(Luck) + 1
    {
      Level := Level + 1;
      Experience := Experience - ExperienceToNextLevel;
      ExperienceToNextLevel := ThreeHalves(ExperienceToNextLevel);
      Strength := Strength + 2;
      Agility := Agility + 2;
      Intelligence := Intelligence + 2;
      Vitality := Vitality + 3;
      Luck := Luck + 1;
    }

    /**
     * Adds experience and levels up once if the threshold is reached, even when the new
     * experience would pay for more than one level.
     */
    method AddExperience(amount: int) returns (leveled: bool)
      modifies this
      ensures leveled <==> old(Experience) + amount >= old(ExperienceToNextLevel)
      ensures Level == old(Level) + (if leveled then 1 else 0)
      ensures Experience == old(Experience) + amount - (if leveled then old(ExperienceToNextLevel) else 0)
      ensures ExperienceToNextLevel == if leveled then ThreeHalves(old(ExperienceToNextLevel)) else old(ExperienceToNextLevel)
      ensures Strength == old(Strength) + (if leveled then 2 else 0)
      ensures Agility == old(Agility) + (if leveled then 2 else 0)
      ensures Intelligence == old(Intelligence) + (if leveled then 2 else 0)
      ensures Vitality == old(Vitality) + (if leveled then 3 else 0)
      ensures Luck == old(Luck) + (if leveled then 1 else 0)
    {
      Experience := Experience + amount;
      if Experience >= ExperienceToNextLevel {
        LevelUp();
        return true;
      }
      return false;
    }
  }
}
