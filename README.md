# AnimoEngine core, modelled in Dafny

This project models the sequential bookkeeping at the centre of the AnimoEngine Go game engine and proves what that code promises.

- **ECS runtime** (`pkg/core/ecs`):
  - the component registry with its nested token → entity → payload store;
  - the entity manager, which hands out ids from a counter and a LIFO free list and keeps one 64-bit composition mask per entity in step with the store;
  - the priority-sorted system list;
  - the standalone archetype index;
  - the `World` facade with its two lifecycle flags and the `Query` mask builder.
- **RPG gameplay**: the integer logic of the inventory, equipment, quest log and character stats, the inventory transfer, and the combat queue with the early exits of an attack.
- **Event bus**: the listener registry, listener id generation, the stable descending bubble sort of listeners, and synchronous dispatch with cancellation and once-listeners.
- **Input manager**: the key and mouse-button state, with its "just pressed" and "just released" edges.
- **Resource manager**: reference counts, the load path with the loader abstracted, unloading, cache-size eviction and clearing.
- **HTML UI**: the line-based HTML parser, the CSS parser, and the tag, then `.class`, then `#id` style cascade.

Each mutable Go struct is a Dafny `class` whose methods state the new state in terms of the old. Loops stay `while`/`for` loops with invariants. Pure parsing becomes functions with lemmas.

Representation choices:
- A Go `uint64` component mask is the set of its 1-bit positions (`Mask`, all below 64). So `1 << t` is `{t}` for `t < 64` and empty otherwise, exactly as Go's shift behaves.
- Reflection-based type identity (`reflect.TypeOf`) is an abstract `TypeKey`.
- An event handler is an abstract `HandlerId`. Which handlers cancel the event is a parameter (`cancelling`).
- A resource loader's outcome is a parameter of the call that would invoke it.

One module per Go file:

| file | module |
|---|---|
| `mask.dfy` | `Mask`: the 64-bit mask as a set of bit positions |
| `ecs_component.dfy` | `EcsComponent`: `pkg/core/ecs/component.go` |
| `ecs_entity.dfy` | `EcsEntity`: `pkg/core/ecs/entity.go` |
| `ecs_system.dfy` | `EcsSystem`: `pkg/core/ecs/system.go` |
| `ecs_world.dfy` | `EcsWorld`: `pkg/core/ecs/world.go` |
| `rpg_components.dfy` | `RpgComponents`: `pkg/game/rpg/components.go` |
| `rpg_systems.dfy` | `RpgSystems`: `pkg/game/rpg/systems.go` |
| `event.dfy` | `Events`: `pkg/core/event/event.go` |
| `input.dfy` | `Input`: `pkg/platform/input/input.go` |
| `resource.dfy` | `Resources`: `pkg/core/resource/resource.go` |
| `htmlui.dfy` | `HtmlUi`: `pkg/ui/html/htmlui.go` |
| `strings.dfy` | `Strings`: the Go `strings` functions the parsers use |
| `seqs.dfy`, `wrappers.dfy` | shared sequence lemmas, `Option`/`Result`/`Outcome` |

Quirks of the Go code that the model keeps as written:
- Component tokens come from registration order, starting at 0, and registration never fails. The RPG package's `Type()` constants start at 100, and the entity manager never uses them.
- A token of 64 or more sets no mask bit. So for such a token `EntityManager.HasComponent` is false and `Query.With` adds nothing.
- The first fresh entity id is 2, because `nextID` starts at 1 and is pre-incremented.
- `FindArchetypes` returns the archetypes whose mask is a *subset* of the query mask.
- The lifecycle is the two booleans `running` and `paused`.
- Listener ids are `string(rune(n))`. So ids collide once the counter reaches the surrogate range (`Events.RuneIdCollides`).
- `Resource.Size` is never assigned, so the cache size stays 0.

## Model

| member | source | states |
|---|---|---|
| Mask.BitBeyondWidth | pkg/core/ecs/entity.go:150 | `1 << t` for t ≥ 64 is the zero mask, and no mask has such a bit |
| Mask.HasBitIsMember | pkg/core/ecs/entity.go:194 | the Go test `m & (1 << t) != 0` is membership of t in the bit set |
| Mask.SetBit | pkg/core/ecs/entity.go:150 | after `m \| 1<<t`, bit u is set iff it was set before, or u is t and t < 64 |
| Mask.ClearBit | pkg/core/ecs/entity.go:173 | after `m &^ 1<<t`, bit u is set iff it was set before and u ≠ t |
| Mask.CoversZero | pkg/core/ecs/entity.go:119-130 | every mask covers the zero mask, so a zero query matches every entity |
| Mask.CoversWith | pkg/core/ecs/world.go:189-192 | covering `m \| 1<<t` is covering m plus holding bit t, and only that when t < 64 |
| EcsComponent.Registered | pkg/core/ecs/component.go:62-66 | registering a token adds its (empty) inner store and changes which pairs are held not at all |
| EcsComponent.Put | pkg/core/ecs/component.go:101 | storing c for (t, e) makes (t, e) held with payload c and leaves every other pair as it was |
| EcsComponent.PutRegistered | pkg/core/ecs/component.go:91-101 | registering the token first and then storing is the same as storing directly |
| EcsComponent.WithoutEntity | pkg/core/ecs/component.go:170-177 | deleting e under every token keeps the tokens and drops exactly the pairs of e |
| EcsComponent.Emptied | pkg/core/ecs/component.go:210-217 | emptying every inner store keeps the tokens and holds no pair  |
| EcsComponent.ComponentManager.constructor | pkg/core/ecs/component.go:43-50 | an empty store and registry, with the token counter at 0 |
| EcsComponent.ComponentManager.RegisterComponentType | pkg/core/ecs/component.go:53-69 | an already registered key gets its old token back; a new key gets the counter's value, a token no key had, and the counter moves on; both leave the held pairs unchanged and it never fails |
| EcsComponent.ComponentManager.GetComponentType | pkg/core/ecs/component.go:72-83 | returns the key's token, registering an unseen key on first use, so it never fails |
| EcsComponent.ComponentManager.AddComponent | pkg/core/ecs/component.go:86-103 | nil is refused with ErrInvalidComponent and nothing changes; otherwise the type is registered, and an already held pair is refused with ErrComponentExists keeping the first payload, while a new pair is stored |
| EcsComponent.ComponentManager.RemoveComponent | pkg/core/ecs/component.go:106-121 | an absent pair gives ErrComponentNotFound with no change; otherwise exactly that (token, entity) entry disappears |
| EcsComponent.ComponentManager.GetComponent | pkg/core/ecs/component.go:124-139 | succeeds exactly when the pair is held, with the stored payload, whether or not the entity is alive; otherwise ErrComponentNotFound |
| EcsComponent.ComponentManager.HasComponent | pkg/core/ecs/component.go:142-153 | true exactly when the entity has an entry under the token; false for an unregistered token |
| EcsComponent.ComponentManager.GetAllComponents | pkg/core/ecs/component.go:156-167 | returns one payload per token holding the entity, and exactly the payloads stored for it |
| EcsComponent.ComponentManager.RemoveAllComponents | pkg/core/ecs/component.go:170-177 | the entity loses its entry under every token, the registry and all other entities are untouched |
| EcsComponent.ComponentManager.GetEntitiesWithComponent | pkg/core/ecs/component.go:180-194 | exactly the entities holding the token, without duplicates, and as many as GetComponentCount gives |
| EcsComponent.ComponentManager.GetComponentCount | pkg/core/ecs/component.go:197-207 | the number of entities stored under the token; 0 for a token never handed out |
| EcsComponent.ComponentManager.Clear | pkg/core/ecs/component.go:210-217 | no pair is held afterwards, but the registry and the token counter are kept |
| EcsEntity.BoundedSetSize | pkg/core/ecs/entity.go:203-207 | a set of ids within [lo, hi) has at most hi − lo members, which bounds the live count by the ids issued |
| EcsEntity.RegisterKeepsStep | pkg/core/ecs/entity.go:143-145 | registering a token keeps "mask bit t set iff the store holds (t, id)" for every live entity |
| EcsEntity.AddKeepsStep | pkg/core/ecs/entity.go:143-150 | storing (t, id) and OR-ing `1<<t` into id's mask keeps the mask/store agreement |
| EcsEntity.RemoveKeepsStep | pkg/core/ecs/entity.go:167-173 | deleting (t, id) and clearing bit t of id's mask keeps the mask/store agreement |
| EcsEntity.MaskChangeKeepsIds | pkg/core/ecs/entity.go:18-25 | changing a live entity's mask keeps the id bookkeeping: live and free ids disjoint, no free duplicates, every id at most `nextID` |
| EcsEntity.EntityManager.constructor | pkg/core/ecs/entity.go:28-41 | no entities, an empty free list, `nextID` 1 and a fresh empty component manager |
| EcsEntity.EntityManager.CreateEntity | pkg/core/ecs/entity.go:44-65 | the new id was not live, is at least 2, has mask 0 and raises the count by one; it is the last free id when the free list is non-empty (popped), else `nextID + 1`, which becomes the new `nextID`; the id invariants are kept |
| EcsEntity.EntityManager.DestroyEntity | pkg/core/ecs/entity.go:68-86 | an unknown id changes nothing; otherwise the entity and all its stored components go and its id is pushed onto the free list once |
| EcsEntity.EntityManager.GetEntity | pkg/core/ecs/entity.go:89-95 | found exactly for a live id, and its mask bits are exactly the tokens below 64 it holds in the store |
| EcsEntity.EntityManager.Exists | pkg/core/ecs/entity.go:98-104 | true exactly for live ids, which lie between 2 and `nextID` |
| EcsEntity.EntityManager.GetAllEntities | pkg/core/ecs/entity.go:107-116 | exactly the live ids, without duplicates, as many as Count |
| EcsEntity.EntityManager.GetEntitiesWithComponents | pkg/core/ecs/entity.go:119-130 | exactly the live ids with `mask & m == m`, which are the live ids storing every token of m |
| EcsEntity.EntityManager.AddComponent | pkg/core/ecs/entity.go:133-154 | a dead id gives ErrEntityNotFound and nil gives ErrInvalidComponent, both with no change; a store error leaves every mask unchanged; success stores the payload and sets bit `1<<token` (none for a token ≥ 64) |
| EcsEntity.EntityManager.SetMaskBit | pkg/core/ecs/entity.go:149-150 | after the store insert, OR-ing the bit into the entity's mask restores the manager invariant and changes only that mask |
| EcsEntity.EntityManager.RemoveComponent | pkg/core/ecs/entity.go:157-177 | a dead id gives ErrEntityNotFound and an absent pair ErrComponentNotFound, both with no change; success deletes the entry and clears only that bit; afterwards the pair is not held |
| EcsEntity.EntityManager.GetComponent | pkg/core/ecs/entity.go:180-182 | a success is the stored payload of a live entity; failure is ErrComponentNotFound; for tokens below 64 it succeeds iff HasComponent |
| EcsEntity.EntityManager.HasComponent | pkg/core/ecs/entity.go:185-195 | read from the mask: true iff the token is below 64 and the store holds the pair, and so only for a live id |
| EcsEntity.EntityManager.Count | pkg/core/ecs/entity.go:203-207 | the number of live entities, at most `nextID − 1` |
| EcsEntity.EntityManager.Clear | pkg/core/ecs/entity.go:210-223 | no entities and an empty free list, every store emptied, the registry kept and `nextID` not reset, so later ids are fresh |
| EcsSystem.BaseSystem.constructor | pkg/core/ecs/system.go:30-35 | a new system has the given priority and starts enabled |
| EcsSystem.BaseSystem.Priority | pkg/core/ecs/system.go:38-40 | the priority given at construction |
| EcsSystem.BaseSystem.Enabled | pkg/core/ecs/system.go:43-45 | the current enabled flag |
| EcsSystem.BaseSystem.SetEnabled | pkg/core/ecs/system.go:48-50 | Enabled afterwards returns the flag just set |
| EcsSystem.EnabledOf | pkg/core/ecs/system.go:96-102 | a sub-list of the systems holding exactly the enabled ones |
| EcsSystem.EnabledOfAppend | pkg/core/ecs/system.go:96-102 | the enabled sub-list grows by the appended system exactly when it is enabled, in list order |
| EcsSystem.RemoveAtKeepsSorted | pkg/core/ecs/system.go:83-88 | splicing one element out of a priority-sorted list keeps it sorted |
| EcsSystem.InsertSorted | pkg/core/ecs/system.go:66-76 | inserting one system lengthens the list by one |
| EcsSystem.InsertSortedMultiset | pkg/core/ecs/system.go:70-73 | the insertion is a permutation of the old list plus the new system |
| EcsSystem.InsertSortedKeepsSorted | pkg/core/ecs/system.go:73-75 | inserting into a sorted list keeps it non-decreasing by priority, and the head is the smaller of the new system and the old head |
| EcsSystem.SystemManager.constructor | pkg/core/ecs/system.go:59-63 | an empty, so sorted, system list |
| EcsSystem.SystemManager.AddSystem | pkg/core/ecs/system.go:66-76 | the list is a permutation of the old one plus the new system, one longer, and stays non-decreasing by priority |
| EcsSystem.SystemManager.RemoveSystem | pkg/core/ecs/system.go:79-89 | only the first identical system is removed and the rest keep their order; an absent system changes nothing; sortedness is kept |
| EcsSystem.SystemManager.Update | pkg/core/ecs/system.go:92-103 | exactly the enabled systems are updated, in list order; disabled ones stay in the list |
| EcsSystem.SystemManager.GetSystems | pkg/core/ecs/system.go:106-113 | a copy of the list, sorted by priority |
| EcsSystem.SystemManager.Clear | pkg/core/ecs/system.go:116-121 | the list is empty |
| EcsSystem.Archetype.constructor | pkg/core/ecs/system.go:131-136 | the given mask and no entities |
| EcsSystem.Archetype.AddEntity | pkg/core/ecs/system.go:139-144 | appends without removing duplicates, so Count grows by one |
| EcsSystem.Archetype.RemoveEntity | pkg/core/ecs/system.go:147-157 | removes only the first occurrence of the id; an absent id changes nothing |
| EcsSystem.Archetype.GetEntities | pkg/core/ecs/system.go:160-167 | a copy of the entity list |
| EcsSystem.Archetype.Count | pkg/core/ecs/system.go:170-175 | the length of the entity list, duplicates included |
| EcsSystem.Archetype.Matches | pkg/core/ecs/system.go:178-180 | true iff the archetype's mask is a subset of the given mask, bit by bit |
| EcsSystem.ArchetypeManager.constructor | pkg/core/ecs/system.go:189-193 | no archetypes |
| EcsSystem.ArchetypeManager.GetOrCreateArchetype | pkg/core/ecs/system.go:196-207 | a known mask returns the same archetype with no change; a new one adds one fresh, empty archetype for that mask |
| EcsSystem.ArchetypeManager.FindArchetypes | pkg/core/ecs/system.go:210-221 | exactly the stored archetypes with Matches(m), without duplicates, so each has a mask within m |
| EcsSystem.ArchetypeManager.Clear | pkg/core/ecs/system.go:224-229 | no archetypes |
| EcsWorld.World.constructor | pkg/core/ecs/world.go:20-28 | fresh, empty managers, not running and not paused |
| EcsWorld.World.CreateEntity | pkg/core/ecs/world.go:31-33 | as the entity manager: the last freed id is popped and reused, otherwise the counter advances to the new id; the id was not live and is added with mask 0 |
| EcsWorld.World.DestroyEntity | pkg/core/ecs/world.go:36-38 | as the entity manager: a dead id changes nothing; a live id leaves the entity map, is pushed on the free list and loses all its stored components, the counter and registry unchanged |
| EcsWorld.World.AddComponent | pkg/core/ecs/world.go:41-43 | as the entity manager: a dead id gives ErrEntityNotFound and a nil component ErrInvalidComponent, changing nothing; otherwise the type is registered, a held pair gives ErrComponentExists, and a new one is stored with its mask bit set and reads back through GetComponent; the free list and counter are kept |
| EcsWorld.World.RemoveComponent | pkg/core/ecs/world.go:46-48 | as the entity manager: a dead id gives ErrEntityNotFound and changes nothing; a missing pair gives ErrComponentNotFound; a held one leaves the store and its mask bit is cleared; the pair is not held afterwards |
| EcsWorld.World.GetComponent | pkg/core/ecs/world.go:51-53 | the entity manager's answer, and a success only for a live entity |
| EcsWorld.World.HasComponent | pkg/core/ecs/world.go:56-58 | true iff the token is below 64 and the store holds the pair |
| EcsWorld.World.GetAllEntities | pkg/core/ecs/world.go:61-63 | exactly the live ids, without duplicates |
| EcsWorld.World.GetEntitiesWithComponents | pkg/core/ecs/world.go:66-68 | exactly the live ids whose mask covers m |
| EcsWorld.World.AddSystem | pkg/core/ecs/world.go:71-73 | the system list gains the system, as a permutation |
| EcsWorld.World.RemoveSystem | pkg/core/ecs/world.go:76-78 | the first identical system leaves the list |
| EcsWorld.World.Update | pkg/core/ecs/world.go:81-90 | the systems are updated iff running and not paused, and then exactly the enabled ones in order |
| EcsWorld.World.Start | pkg/core/ecs/world.go:93-99 | running, and paused cleared |
| EcsWorld.World.Stop | pkg/core/ecs/world.go:102-107 | not running, paused left as it was |
| EcsWorld.World.Pause | pkg/core/ecs/world.go:110-115 | paused, whether or not running |
| EcsWorld.World.Resume | pkg/core/ecs/world.go:118-123 | not paused, whether or not running |
| EcsWorld.World.IsRunning | pkg/core/ecs/world.go:126-131 | the running flag |
| EcsWorld.World.IsPaused | pkg/core/ecs/world.go:134-139 | the paused flag |
| EcsWorld.World.Clear | pkg/core/ecs/world.go:157-160 | no entities, no archetypes and an empty free list; every registered type keeps its token with an empty store; the id counter is not reset, so later ids are new; the systems are kept |
| EcsWorld.World.Destroy | pkg/core/ecs/world.go:163-167 | not running, with no systems, no entities and no archetypes; as with Clear, the free list is emptied, the type registry kept and the id counter not reset |
| EcsWorld.World.EntityCount | pkg/core/ecs/world.go:170-172 | the number of live entities |
| EcsWorld.World.NewQuery | pkg/core/ecs/world.go:181-186 | a fresh query on this world with mask 0 |
| EcsWorld.Query.constructor | pkg/core/ecs/world.go:175-178 | a query on the given world with mask 0 |
| EcsWorld.Query.With | pkg/core/ecs/world.go:189-192 | ORs in `1<<t` and returns the same query; a token ≥ 64 leaves the mask unchanged |
| EcsWorld.Query.Execute | pkg/core/ecs/world.go:195-197 | exactly the live ids whose mask covers the query, that is, storing every token of it |
| RpgComponents.FindSlot | pkg/game/rpg/components.go:207-212 | the index of the first slot with the item id, or none when no slot has it |
| RpgComponents.FindSlotIs | pkg/game/rpg/components.go:207-212 | the first slot with the id is the one FindSlot finds |
| RpgComponents.SetQuantityKeepsSlots | pkg/game/rpg/components.go:209 | changing a slot's quantity moves no id's first slot |
| RpgComponents.AppendSlotFinds | pkg/game/rpg/components.go:219-223 | after appending a slot for a new id, that id is found last and every other id where it was |
| RpgComponents.RemoveSlotKeepsAbsent | pkg/game/rpg/components.go:237 | splicing out a slot does not make an absent id present |
| RpgComponents.RemoveSlotShifts | pkg/game/rpg/components.go:237 | splicing out a slot before an id's first slot shifts that slot down by one |
| RpgComponents.RemoveSlotKeepsOthers | pkg/game/rpg/components.go:237 | splicing out an id's first slot leaves the count of every other id unchanged |
| RpgComponents.RemoveSlotDropsId | pkg/game/rpg/components.go:237 | with one slot per id, splicing out a slot removes its id and keeps the ids unique |
| RpgComponents.InventoryComponent.constructor | pkg/game/rpg/components.go:192-198 | no slots, the given slot limit and no gold |
| RpgComponents.InventoryComponent.AddItem | pkg/game/rpg/components.go:205-224 | an existing stack grows even when the inventory is full; a new id is appended only below MaxSlots and is otherwise refused with no change; the id's count grows by the quantity on success, other ids keep theirs, and one slot per id and `len(Slots) <= MaxSlots` are kept |
| RpgComponents.InventoryComponent.RemoveItem | pkg/game/rpg/components.go:227-243 | refused with no change when the id is absent or its first stack is short; otherwise that stack drops by the quantity and is spliced out at zero, other slots keep their order and counts, and the count falls by the quantity |
| RpgComponents.InventoryComponent.HasItem | pkg/game/rpg/components.go:246-253 | true iff some slot has the id with at least the quantity |
| RpgComponents.InventoryComponent.GetItemCount | pkg/game/rpg/components.go:256-263 | the first matching slot's quantity, or 0 |
| RpgComponents.EquipmentComponent.constructor | pkg/game/rpg/components.go:279-281 | no slot equipped |
| RpgComponents.EquipmentComponent.GetEquipped | pkg/game/rpg/components.go:310-315 | the item in the slot, or "" for an empty slot |
| RpgComponents.EquipmentComponent.Equip | pkg/game/rpg/components.go:288-296 | stores the item and returns the previous one or "" |
| RpgComponents.EquipmentComponent.Unequip | pkg/game/rpg/components.go:299-307 | returns the item (or "") and deletes the slot |
| RpgComponents.FindQuest | pkg/game/rpg/components.go:356-358 | the index of the first active quest with the id, or none |
| RpgComponents.FindQuestIs | pkg/game/rpg/components.go:356-358 | the first quest with the id is the one FindQuest finds |
| RpgComponents.QuestLogComponent.constructor | pkg/game/rpg/components.go:338-342 | no active, completed or failed quests |
| RpgComponents.QuestLogComponent.StartQuest | pkg/game/rpg/components.go:349-352 | appends the quest with status InProgress; the appended copy shares the caller's objective map |
| RpgComponents.ObjectiveMap.constructor | pkg/game/rpg/components.go:372 | a new objective map is empty |
| RpgComponents.QuestLogComponent.CompleteQuest | pkg/game/rpg/components.go:355-365 | the first active quest with the id moves to the completed ids and HasCompletedQuest holds; an unknown id returns false with no change |
| RpgComponents.QuestLogComponent.UpdateObjective | pkg/game/rpg/components.go:368-378 | on the first active quest with the id, writes the count into its objective map in place, so every quest sharing that map sees it, and no other map changes; a nil map is replaced by a fresh one-entry map in that quest only; an unknown id changes nothing |
| RpgComponents.QuestLogComponent.GetQuest | pkg/game/rpg/components.go:381-388 | the first active quest with the id, or none |
| RpgComponents.QuestLogComponent.ScanCompleted | pkg/game/rpg/components.go:391-398 | true iff the id is among the completed quests |
| RpgComponents.ThreeHalves | pkg/game/rpg/components.go:158 | 1.5·x truncated toward zero, and never below x for positive x |
| RpgComponents.StatsComponent.LevelUp | pkg/game/rpg/components.go:155-166 | level +1, the threshold is paid from the experience and grows to ⌊1.5·threshold⌋, attributes +2/+2/+2/+3/+1 |
| RpgComponents.StatsComponent.AddExperience | pkg/game/rpg/components.go:145-152 | levels up exactly when the experience reaches the threshold, and at most once per call; a level-up pays the threshold, grows it by half and raises strength, agility and intelligence by 2, vitality by 3 and luck by 1, otherwise none of these change |
| RpgSystems.InventorySystem.constructor | pkg/game/rpg/systems.go:241-245 | an enabled system of priority 20 |
| RpgSystems.InventorySystem.TransferItem | pkg/game/rpg/systems.go:254-279 | refused when an inventory is missing, when the sender lacks the quantity (no change) or when the receiver has no room (sender unchanged); on success between two inventories the sender loses and the receiver gains the quantity, so the total is conserved, and other items are untouched |
| RpgSystems.InventorySystem.TransferItemWith | pkg/game/rpg/systems.go:255-258 | with the real entity manager the inventory check always fails, so the transfer is always refused |
| RpgSystems.MatchingSlot | pkg/game/rpg/systems.go:267-277 | with one slot per id, the slot holding enough is the id's first slot |
| RpgSystems.NoAttackLands | pkg/game/rpg/systems.go:97-109 | with the real entity manager an attack never gets past the health check, and stops there exactly when both entities exist |
| RpgSystems.OutcomeOfGuards | pkg/game/rpg/systems.go:95-109 | an attack stops at a missing attacker first, then at a missing target, then at a target without a health component, and is struck only when it passes all three |
| RpgSystems.CombatSystem.constructor | pkg/game/rpg/systems.go:71-76 | an enabled system of priority 5 with an empty queue |
| RpgSystems.CombatSystem.QueueAttack | pkg/game/rpg/systems.go:79-81 | appends the attack to the queue |
| RpgSystems.CombatSystem.ProcessAttack | pkg/game/rpg/systems.go:95-109 | stops at the first failing guard (attacker, target, health component), and never reaches the damage path |
| RpgSystems.CombatSystem.Update | pkg/game/rpg/systems.go:84-92 | processes the queued attacks in FIFO order, one outcome each, and leaves the queue empty |
| Events.Event.constructor | pkg/core/event/event.go:22-31 | type and data as given, priority 0, not cancelled, no metadata |
| Events.Event.WithPriority | pkg/core/event/event.go:34-38 | as the plain constructor, with the given priority |
| Events.Event.Cancel | pkg/core/event/event.go:41-43 | IsCancelled holds afterwards |
| Events.Event.IsCancelled | pkg/core/event/event.go:46-48 | the cancelled flag |
| Events.Event.SetMetadata | pkg/core/event/event.go:51-53 | GetMetadata of the key returns the value, every other key reads as before |
| Events.Event.GetMetadata | pkg/core/event/event.go:56-59 | the stored value, or none for an absent key |
| Events.RuneId | pkg/core/event/event.go:280 | a one-character id, which is the code point itself below 0xD800 |
| Events.RuneIdDistinct | pkg/core/event/event.go:278-281 | counters below 0xD800 give distinct ids |
| Events.RuneIdCollides | pkg/core/event/event.go:280 | a surrogate counter gives the same id as U+FFFD, and a counter past 32 bits the same as its low bits |
| Events.FindListener | pkg/core/event/event.go:269-274 | the index of the first listener with the id, or none |
| Events.RemoveIdsStep | pkg/core/event/event.go:178-180 | removing a list of ids is removing them one at a time, in order |
| Events.RemoveByIdShrinks | pkg/core/event/event.go:263-275 | removing an id drops one listener when it is present, none otherwise, adds none, and with unique ids leaves none with that id |
| Events.RemoveIdsGone | pkg/core/event/event.go:176-182 | with unique ids, after removing a list of ids no remaining listener has one of them |
| Events.Run | pkg/core/event/event.go:313-323 | the listeners of one priority, in order, are no more than the list |
| Events.RunAppend | pkg/core/event/event.go:313-323 | the run of one priority in a concatenation is the concatenation of the runs |
| Events.Swap | pkg/core/event/event.go:318 | swapping two neighbours keeps the length |
| Events.RunPair | pkg/core/event/event.go:317-319 | swapping two listeners of different priorities keeps every run |
| Events.SwapKeepsRun | pkg/core/event/event.go:317-319 | a swap of neighbours with different priorities keeps the run of every priority |
| Events.SwapKeepsRuns | pkg/core/event/event.go:317-319 | such a swap is a permutation that keeps every run, which is what makes the sort stable |
| Events.SwapKeepsPartition | pkg/core/event/event.go:314-322 | a swap inside the unsorted prefix keeps the sorted, smaller-or-equal tail |
| Events.SameRunsTrans | pkg/core/event/event.go:314-322 | "same permutation and same runs" is transitive across passes |
| Events.PassStep | pkg/core/event/event.go:316-320 | one inner step carries the lowest priority forward and keeps the tail and the runs |
| Events.BubblePass | pkg/core/event/event.go:316-320 | one inner pass puts the lowest priority of the prefix at its end, keeping the tail sorted and the runs |
| Events.CompareSwap | pkg/core/event/event.go:317-319 | swaps neighbours exactly when the first has the strictly lower priority |
| Events.GrowTail | pkg/core/event/event.go:314-315 | after a pass the sorted tail is one longer |
| Events.SortListenersByPriority | pkg/core/event/event.go:313-323 | the array ends non-increasing by priority, as a permutation that keeps equal priorities in their old order |
| Events.Reached | pkg/core/event/event.go:163-173 | how many listeners run: all before the first cancelling one, that one included, or all |
| Events.OnceIds | pkg/core/event/event.go:170-172 | exactly the ids of once-listeners among those given |
| Events.Dispatch | pkg/core/event/event.go:162-173 | calls nothing for a cancelled event, else the listeners in order up to and including the first cancelling one; the event is cancelled afterwards iff it was or one called handler cancels; the ids of the once-listeners called are collected |
| Events.SortedCopy | pkg/core/event/event.go:150-155 | the listeners copied into a fresh slice and sorted there: same length, non-increasing priority, a permutation that keeps the order among equal priorities |
| Events.EventBus.constructor | pkg/core/event/event.go:84-96 | no listeners, an empty queue, neither running nor closed, counter 0, and one worker when fewer than one is asked for; a negative queue size is excluded, because making the channel panics |
| Events.EventBus.Start | pkg/core/event/event.go:99-114 | running; a closed queue stays closed; registry and queue unchanged |
| Events.EventBus.Stop | pkg/core/event/event.go:117-129 | not running, and the queue closed iff the bus was running or already closed; registry and queue unchanged; stopping a restarted bus is excluded, because closing a closed channel panics |
| Events.EventBus.GenerateID | pkg/core/event/event.go:278-281 | pre-increments the counter and returns the character of its new value |
| Events.EventBus.SubscribeWithPriority | pkg/core/event/event.go:213-227 | appends exactly one listener with the new id and priority, not once, and ListenerCount grows by one |
| Events.EventBus.Subscribe | pkg/core/event/event.go:208-210 | appends one listener of priority 0, not once, and the count grows by one |
| Events.EventBus.SubscribeOnce | pkg/core/event/event.go:230-244 | appends one once-listener of priority 0, and the count grows by one |
| Events.EventBus.RemoveListenerByID | pkg/core/event/event.go:263-275 | removes only the first listener with the id; an unknown type or id changes nothing |
| Events.EventBus.Unsubscribe | pkg/core/event/event.go:247-252 | as RemoveListenerByID, and the count drops by one exactly when the id was present |
| Events.EventBus.UnsubscribeAll | pkg/core/event/event.go:255-260 | the type has no listeners and count 0 afterwards, other types untouched |
| Events.EventBus.HasListeners | pkg/core/event/event.go:284-290 | true iff the type's count is positive |
| Events.EventBus.ListenerCount | pkg/core/event/event.go:293-302 | the number of listeners of the type, 0 for an unknown type |
| Events.EventBus.Clear | pkg/core/event/event.go:305-310 | no type has listeners |
| Events.EventBus.Emit | pkg/core/event/event.go:186-200 | queued iff the bus runs and the queue has room; a stopped bus changes nothing; emitting on a restarted bus is excluded, because sending on a closed channel panics |
| Events.EventBus.RemoveListenersByIDs | pkg/core/event/event.go:176-182 | removes the ids one by one from the type's listeners |
| Events.EventBus.ProcessEvent | pkg/core/event/event.go:145-183 | sorts a copy of the type's listeners (stable, non-increasing), calls them up to the first cancellation, then removes the once-listeners that ran, so none of them stays; no listeners means no change |
| Events.EventBus.EmitSync | pkg/core/event/event.go:203-205 | processes the event at once with ProcessEvent's whole contract: the listeners sorted by priority as a permutation, called in order until cancelled, the one-shot ones called removed, the event otherwise untouched |
| Input.CopyMap | pkg/platform/input/input.go:90-99 | the copy loop yields a map equal to its source |
| Input.InputManager.constructor | pkg/platform/input/input.go:75-82 | empty key and button maps, every coordinate 0 |
| Input.InputManager.Update | pkg/platform/input/input.go:85-110 | the previous maps equal the current ones, so nothing is just pressed or released; the delta is the move since the last frame and the scroll is 0 |
| Input.InputManager.OnKey | pkg/platform/input/input.go:113-122 | Press or Repeat holds the key, Release lets it go, any other action changes nothing; no other key changes, and the buttons, pointer and scroll are untouched |
| Input.InputManager.OnMouseButton | pkg/platform/input/input.go:125-134 | Press holds, Release lets go, Repeat and other actions are ignored; keys, pointer and scroll untouched |
| Input.InputManager.OnMouseMove | pkg/platform/input/input.go:137-143 | the position is the one given; the key and button maps, previous position, delta and scroll untouched |
| Input.InputManager.OnMouseScroll | pkg/platform/input/input.go:146-152 | the scroll is overwritten, not accumulated; everything else untouched |
| Input.InputManager.IsKeyPressed | pkg/platform/input/input.go:155-160 | true iff the key is present and true in the map; false for an absent key |
| Input.InputManager.IsKeyJustPressed | pkg/platform/input/input.go:163-168 | held now and not before; so pressed, and not just released |
| Input.InputManager.IsKeyJustReleased | pkg/platform/input/input.go:171-176 | held before and not now; so not pressed |
| Input.InputManager.IsMouseButtonPressed | pkg/platform/input/input.go:179-184 | true iff the button is present and true in the map |
| Input.InputManager.IsMouseButtonJustPressed | pkg/platform/input/input.go:187-192 | held now and not before; so pressed, and not just released |
| Input.InputManager.IsMouseButtonJustReleased | pkg/platform/input/input.go:195-200 | held before and not now; so not pressed |
| Input.InputManager.GetMousePosition | pkg/platform/input/input.go:203-208 | the current position |
| Input.InputManager.GetMouseDelta | pkg/platform/input/input.go:211-216 | the delta of the last frame step |
| Input.InputManager.GetScroll | pkg/platform/input/input.go:219-224 | the scroll of this frame |
| Input.InputManager.GetAxis | pkg/platform/input/input.go:228-240 | in {−1, 0, 1}: −1 iff only the negative key is held, 1 iff only the positive one, 0 when both or neither are |
| Input.InputManager.Clear | pkg/platform/input/input.go:243-255 | every key and button map empty, delta and scroll 0, position kept; nothing pressed |
| Resources.Resource.constructor | pkg/core/resource/resource.go:221-228 | id and path the given path, the type given, loading, one reference, no data, size 0 |
| Resources.Resource.AddRef | pkg/core/resource/resource.go:58-62 | the reference count grows by one |
| Resources.Resource.Release | pkg/core/resource/resource.go:65-73 | the count drops by one but never below 0, and the new value is returned |
| Resources.Resource.GetRefCount | pkg/core/resource/resource.go:76-80 | the current reference count |
| Resources.Resource.IsLoaded | pkg/core/resource/resource.go:83-87 | true iff the state is Loaded |
| Resources.AppendOne | pkg/core/resource/resource.go:358-366 | evicting one more resource adds its path to the removed cache keys and its size to the freed size |
| Resources.ResourceManager.constructor | pkg/core/resource/resource.go:128-144 | empty maps, size 0, auto-unload on, and 4 workers when fewer than one is asked for |
| Resources.ResourceManager.RegisterLoader | pkg/core/resource/resource.go:191-196 | the loader is installed for its type, replacing any earlier one |
| Resources.ResourceManager.LoadSync | pkg/core/resource/resource.go:199-259 | a cached, loaded path returns the same id with one more reference and no load; no loader for the type is an error that adds nothing; otherwise a new entry with id = path and one reference goes into both maps, in state Error with the loader's error or Loaded with its data, which may be nil; other resources are untouched |
| Resources.ResourceManager.LoadEntry | pkg/core/resource/resource.go:221-258 | the new-entry path: a fresh resource stored under the path in both maps, in state Error or Loaded (with the data, possibly nil) by the loader's outcome; the cache check that follows evicts nothing, since no resource has a size |
| Resources.ResourceManager.Store | pkg/core/resource/resource.go:230-233 | the resource is filed under its id and its path, the size unchanged |
| Resources.ResourceManager.Get | pkg/core/resource/resource.go:294-304 | the resource for a known id, else ErrResourceNotFound |
| Resources.ResourceManager.Unload | pkg/core/resource/resource.go:307-338 | an unknown id gives ErrResourceNotFound; while references remain only the count drops; at the last one the entry leaves both maps and the loader's unload error, if any, is returned |
| Resources.ResourceManager.CheckCacheSize | pkg/core/resource/resource.go:341-374 | no change when there is no limit or the size is within it; otherwise it evicts only unreferenced entries, each while the size is still over the limit, and all of them if it stays over |
| Resources.ResourceManager.EvictUntilWithin | pkg/core/resource/resource.go:358-373 | evicts a prefix of the candidates, each while over the limit, and stops early only within the limit |
| Resources.ResourceManager.EvictOne | pkg/core/resource/resource.go:363-366 | one eviction extends the evicted prefix by one |
| Resources.ResourceManager.CollectUnreferenced | pkg/core/resource/resource.go:350-355 | exactly the ids with reference count 0, without duplicates |
| Resources.ResourceManager.Clear | pkg/core/resource/resource.go:377-391 | both maps empty and the size 0; the resources handed to a loader's unload are exactly those with a loader and data |
| Resources.ResourceManager.GetLoadedCount | pkg/core/resource/resource.go:394-398 | the number of resources held |
| Resources.ResourceManager.GetCacheSize | pkg/core/resource/resource.go:401-405 | the size counter, which stays 0 because no resource has a size |
| Strings.HasPrefixIsConcat | pkg/ui/html/htmlui.go:74 | Go `strings.HasPrefix`: a line starts with the prefix exactly when it is the prefix followed by the rest |
| Strings.IndexFrom | pkg/ui/html/htmlui.go:84 | the first occurrence of sub at or after k, or none when there is none |
| Strings.Index | pkg/ui/html/htmlui.go:83 | Go `strings.Index`: the first occurrence of sub, or none |
| Strings.IndexOf | pkg/ui/html/htmlui.go:145 | the first position of a character, or none |
| Strings.IndexOfFrom | pkg/ui/html/htmlui.go:84 | the first position of a character at or after k, or none |
| Strings.OccursChar | pkg/ui/html/htmlui.go:145 | a one-character substring occurs at j iff that character is at j |
| Strings.IndexOfIsIndex | pkg/ui/html/htmlui.go:145 | searching for a character is searching for the one-character string |
| Strings.Contains | pkg/ui/html/htmlui.go:82 | Go `strings.Contains`: true iff sub occurs somewhere |
| Strings.Split | pkg/ui/html/htmlui.go:66 | Go `strings.Split` on one separator: at least one piece, none holding the separator |
| Strings.SplitJoin | pkg/ui/html/htmlui.go:66 | joining the pieces with the separator gives the string back |
| Strings.SplitPiece | pkg/ui/html/htmlui.go:66 | a piece without the separator, then the separator, splits off as the first piece |
| Strings.JoinSplit | pkg/ui/html/htmlui.go:66 | splitting a join of separator-free pieces gives the pieces back |
| Strings.SplitAround | pkg/ui/html/htmlui.go:66 | splitting around one separator is splitting both sides |
| Strings.GlueFirst | pkg/ui/html/htmlui.go:66 | regrouping a prefix glued onto the first piece |
| Strings.SplitWhole | pkg/ui/html/htmlui.go:163-164 | one piece exactly when the separator does not occur |
| Strings.SplitAt | pkg/ui/html/htmlui.go:163-169 | two pieces are the text before and after the one separator |
| Strings.SplitCount | pkg/ui/html/htmlui.go:163-164 | the number of pieces is the number of separators plus one |
| Strings.TrimLeft | pkg/ui/html/htmlui.go:69 | drops the leading white space, and only that |
| Strings.TrimRight | pkg/ui/html/htmlui.go:69 | drops the trailing white space, and only that |
| Strings.TrimSpace | pkg/ui/html/htmlui.go:69 | Go `strings.TrimSpace`: a trimmed string no longer than the input |
| Strings.TrimLeftWithin | pkg/ui/html/htmlui.go:69 | left trimming introduces no character |
| Strings.TrimRightWithin | pkg/ui/html/htmlui.go:69 | right trimming introduces no character |
| Strings.TrimSpaceWithin | pkg/ui/html/htmlui.go:150 | trimming introduces no character, so a trimmed selector keeps lacking `{` |
| Strings.TrimSpaceIdempotent | pkg/ui/html/htmlui.go:139 | trimming twice is trimming once |
| Strings.TrimmedFixed | pkg/ui/html/htmlui.go:158 | a trimmed string is its own trim |
| HtmlUi.AttrAbsent | pkg/ui/html/htmlui.go:82-86 | without `id="` (or `class="`) the attribute is empty |
| HtmlUi.AttrSpec | pkg/ui/html/htmlui.go:82-92 | the attribute is the text right after the key up to the next `"`, and holds no `"` |
| HtmlUi.UpToQuoteSpec | pkg/ui/html/htmlui.go:84-85 | the text from s up to the next `"`, which it does not contain |
| HtmlUi.ContentSpec | pkg/ui/html/htmlui.go:95-99 | the content is the text between the first `>` and the first `</` when both occur, else empty |
| HtmlUi.Around | pkg/ui/html/htmlui.go:98 | a string splits around a `>` and a later position into its three parts |
| HtmlUi.LineElement | pkg/ui/html/htmlui.go:74-121 | an element exactly for a line starting `<div` or `<button`, with that tag, its id and content; a div gets its class attribute, a button never gets a class |
| HtmlUi.Collect | pkg/ui/html/htmlui.go:68-122 | keeping the produced items yields no more items than inputs |
| HtmlUi.CollectFrom | pkg/ui/html/htmlui.go:68-122 | every kept item comes from some input |
| HtmlUi.CollectAppend | pkg/ui/html/htmlui.go:68-122 | collecting over a concatenation concatenates the results, so the order is the input order |
| HtmlUi.ParseLines | pkg/ui/html/htmlui.go:68-122 | at most one element per line |
| HtmlUi.ParseLinesTags | pkg/ui/html/htmlui.go:74-121 | every element is a div or a button, and a button has no class |
| HtmlUi.ParseLinesAppend | pkg/ui/html/htmlui.go:68-122 | the elements of two blocks of lines are those of each, in order |
| HtmlUi.ParseOneLine | pkg/ui/html/htmlui.go:68-121 | one line yields the element of its trimmed text, one element iff it starts `<div` or `<button`, else none |
| HtmlUi.ParseHtmlAppend | pkg/ui/html/htmlui.go:61-125 | parsing two documents joined by a newline yields the elements of each, in order |
| HtmlUi.ParseHtml | pkg/ui/html/htmlui.go:61-125 | at most one element per line of the document, each a div or a button, and a button never with a class |
| HtmlUi.LastWinsSpec | pkg/ui/html/htmlui.go:170-173 | building a map from entries has exactly their keys, each with the value of its last entry |
| HtmlUi.DeclEntry | pkg/ui/html/htmlui.go:157-171 | a declaration is kept iff its trimmed text is non-empty with exactly one `:`, as trimmed key and value |
| HtmlUi.DeclEntrySplits | pkg/ui/html/htmlui.go:163-169 | a kept declaration is the trimmed text before its one `:` mapped to the trimmed text after it |
| HtmlUi.ChunkEntry | pkg/ui/html/htmlui.go:139-151 | a chunk is kept iff its trimmed text holds `{`, with a trimmed selector |
| HtmlUi.ChunkEntrySplits | pkg/ui/html/htmlui.go:145-156 | a kept chunk is the trimmed text before its first `{`, which so holds no `{`, with the declarations of the text after it |
| HtmlUi.ParseCss | pkg/ui/html/htmlui.go:128-177 | the selectors are exactly those of the chunks between `}`s that hold a `{`, each trimmed and free of `{`; each maps to the declarations of the last chunk with that selector |
| HtmlUi.CssSelectors | pkg/ui/html/htmlui.go:139-174 | the last-wins map of the kept chunks has exactly their selectors as keys, each with the declarations of its last chunk |
| HtmlUi.StyledPrecedence | pkg/ui/html/htmlui.go:204-231 | the id rule beats the class rule, which beats the tag rule, which beats the old style; a key no rule mentions keeps its value or stays absent |
| HtmlUi.Styled | pkg/ui/html/htmlui.go:204-231 | the style after the cascade holds exactly the keys of the old style and of the tag, class and id rules that apply |
| HtmlUi.Overlay | pkg/ui/html/htmlui.go:207-209 | copying a layer into a style: the keys of both, the layer's value wherever it has one, the old value elsewhere |
| HtmlUi.HtmlElement.constructor | pkg/ui/html/htmlui.go:75-79 | the parsed tag, id, class and content with an empty style |
| HtmlUi.HtmlElement.Merge | pkg/ui/html/htmlui.go:207-209 | every declaration of the layer overrides the style, every other key keeps its value |
| HtmlUi.FindElement | pkg/ui/html/htmlui.go:274-279 | the index of the first element with the id, or none when no element has it |
| HtmlUi.HtmlRenderer.constructor | pkg/ui/html/htmlui.go:32-43 | no elements and no styles |
| HtmlUi.HtmlRenderer.LoadHtml | pkg/ui/html/htmlui.go:46-51 | replaces the elements with fresh ones, one per parsed element in order, unstyled; the styles are kept |
| HtmlUi.HtmlRenderer.NewElements | pkg/ui/html/htmlui.go:75-120 | one fresh, unstyled element per parsed line, in order |
| HtmlUi.HtmlRenderer.LoadCss | pkg/ui/html/htmlui.go:54-58 | replaces the stylesheet wholesale with the parsed one; the elements are kept |
| HtmlUi.HtmlRenderer.ApplyStyles | pkg/ui/html/htmlui.go:204-231 | the style becomes the tag rule, then the `.class` rule, then the `#id` rule over the old style |
| HtmlUi.HtmlRenderer.GetElementById | pkg/ui/html/htmlui.go:273-280 | the first element with the id, or none (Go's nil) when no element has it |
| Seqs.MapAddValues | pkg/core/ecs/component.go:62-66 | adding a new key adds its value to the map's values |
| Seqs.NoDupAppend | pkg/core/ecs/entity.go:110-114 | appending an element not yet present keeps the list free of duplicates |
| Seqs.UpdateTwice | pkg/core/ecs/component.go:101 | writing a key twice is writing it once with the last value |
| Seqs.RemoveAt | pkg/core/ecs/system.go:85 | Go's `append(s[:i], s[i+1:]...)`: one shorter, the elements before i kept and those after shifted down |
| Seqs.RemoveAtMultiset | pkg/core/ecs/system.go:85 | the splice removes exactly one copy of the element at i |
| Seqs.FirstIndex | pkg/core/ecs/system.go:83-84 | the index of the first occurrence of a present element |
| Seqs.RemoveFirstAbsent | pkg/core/ecs/system.go:83-88 | removing an absent value changes nothing |
| Seqs.RemoveFirstIsRemoveAt | pkg/core/ecs/system.go:83-88 | removing the first occurrence is splicing at its first index |
| Seqs.RemoveAtTail | pkg/core/ecs/system.go:85 | splicing behind the head splices the tail |

## Left out

- Locks, atomics and `sync.Pool`: every operation is one sequential step. The gap between the store insert and the mask update in `EntityManager.AddComponent` is a concurrency concern, so it is not modelled.
- The event bus workers, the channel queue and the worker's skip of cancelled events: these are goroutines. `Start` and `Stop` flip the running flag, `Stop` marks the queue closed, and `Emit` appends to a bounded sequence. Workers restarted on a closed queue would drain it and exit; that is not modelled.
- `Events.EventBus.Stop` and `Events.EventBus.Emit`: a bus stopped once and started again panics in Go on the next `Stop` (closing a closed channel) or `Emit` (sending on one). The model makes both a precondition rather than an outcome.
- `Events.EventBus.constructor`: Go panics when asked for a negative queue size; the model makes that a precondition.
- The resource manager's load workers, `LoadAsync`, and the `Start` and `Stop` that run those workers: these are goroutines. So the manager's `running` flag is a constant here.
- `EcsSystem.SystemManager.Update` and `EcsWorld.World.Update`: a system's own `Update` is outside the model. The model assumes it changes neither the enabled flags of the other systems nor the world. Go checks `Enabled()` on each system of the copied list as it reaches that system, so a system that disables a later one would skip it there.
- `EntityManager.GetComponentManager` (pkg/core/ecs/entity.go:197-200) hands callers the component store itself. Writing to that store directly bypasses the entity masks and breaks the invariant that masks follow the store. The model offers no such access, so its `Valid()` cannot be broken from outside.
- The loaders themselves: a load's outcome (`loaded`) and an unload's error (`unloadError`) are parameters, because loading is I/O.
- `Resources.ResourceManager.LoadSync`: the model fills in the new entry's state before storing it, whereas Go stores it first. Without concurrency nobody can see the difference.
- `Resource.Size` is a constant 0, because the Go code never assigns it.
- Eviction order in `CheckCacheSize` follows the candidate sequence; Go's map iteration order is unspecified.
- `reflect.TypeOf` identity: it is an abstract `TypeKey`.
- uint64 wrap-around of ids and counters (`nextID`, `nextType`, the listener counter): integers are unbounded. Reaching 2^64 is not a practical concern.
- Event handlers: a handler's only modelled effect is whether it cancels the event. Other effects would be calls into code outside the model.
- Pointer aliasing of `GetEntity` and `GetQuest`: they return values, because their callers only read them. A quest value still holds a reference to its objective map (`ObjectiveMap`), as the Go struct holds its map, so writes to that map through `UpdateObjective` are seen through every copy.
- A nil map is the empty map: Go reads both alike. The one place Go writes to a nil map's holder, a quest's `Objectives`, keeps nil as `null`.
- Go strings are UTF-8 bytes; here a string is a `seq<char>` of code points. So `Events.RuneId`, the listener id, is one character, where Go's `string(rune(n))` is one to four bytes, and the byte indices of the HTML and CSS parsers become character indices. The parsers only look for ASCII delimiters, so their results agree on the characters between them.
- `EcsSystem.SystemManager.AddSystem`: it inserts after equal priorities, but its contract claims only sortedness and permutation. Go's `sort.Slice` is not guaranteed stable.
- `RpgSystems.InventorySystem.TransferItem`: proved against inventories handed in by the caller (null for none). With the real entity manager, `TransferItemWith` shows the first guard always refuses, because token 104 is no mask bit.
- `RpgSystems.CombatSystem.ProcessAttack`: only the early exits are modelled. The damage path (float damage, critical roll, death handling) is never reached with the real manager, and it is float arithmetic.
- Float parts of the RPG package: Health, Mana and Stamina, damage and critical chance, `CurrentWeight`/`MaxWeight`, the Regeneration and LevelScaling systems. These are floating point.
- `RpgComponents.StatsComponent.LevelUp`: the threshold is 1.5·x truncated toward zero on integers, whereas Go goes through `float32`. The two agree for thresholds below 2^22, where float32 holds every value involved exactly.
- `CreateRPGCharacter`: a setup helper that builds float components.
- Mouse coordinates and scroll offsets are reals, so deltas are exact. `Input.InputManager.GetAxis` returns an integer where Go returns a `float32` of the same value.
- parseHTML's slice panic: a line with `id="` or `class="` and no closing quote, or with `</` before its first `>`, would panic in Go. `SafeHtml` excludes such documents.
- `Render`, `renderElement`, `IsElementClicked`, the element layout fields and children, and the text renderer created by `NewHTMLRenderer` (and its error): these are GL drawing and layout.
