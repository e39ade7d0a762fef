/**
 * The world facade of the ECS (pkg/core/ecs/world.go): one entity manager, one system
 * manager, one archetype index, two lifecycle flags, and a mask-building query.
 */
module EcsWorld {
  import opened Wrappers
  import opened Mask
  import Seqs
  import opened EcsComponent
  import opened EcsEntity
  import opened EcsSystem

  class World {
    const entityManager: EntityManager
    const systemManager: SystemManager
    const archetypeManager: ArchetypeManager
    var running: bool
    var paused: bool

    ghost predicate Valid()
      reads this, entityManager, entityManager.componentMgr, systemManager, archetypeManager
    {
      entityManager.Valid() && systemManager.Valid() && archetypeManager.Valid()
    }

    /** `NewWorld`: empty managers, neither running nor paused. */
    constructor ()
      ensures Valid() && !running && !paused
      ensures fresh(entityManager) && fresh(entityManager.componentMgr) && fresh(systemManager) && fresh(archetypeManager)
      ensures entityManager.entities == map[] && systemManager.systems == [] && archetypeManager.archetypes == map[]
    {
      entityManager := new EntityManager();
      systemManager := new SystemManager();
      archetypeManager := new ArchetypeManager();
      running := false;
      paused := false;
    }

    /** Delegates to the entity manager: a reused or fresh id, live with an empty mask. */
    method CreateEntity() returns (id: EntityId)
      requires Valid()
      modifies entityManager
      ensures Valid()
      ensures id !in old(entityManager.entities) && 2 <= id
      ensures entityManager.entities == old(entityManager.entities)[id := Entity(id, Zero)]
      ensures |entityManager.entities| == |old(entityManager.entities)| + 1
      ensures |old(entityManager.freeIDs)| > 0 ==>
        && id == old(entityManager.freeIDs)[|old(entityManager.freeIDs)| - 1]
        && entityManager.freeIDs == old(entityManager.freeIDs)[..|old(entityManager.freeIDs)| - 1]
        && entityManager.nextID == old(entityManager.nextID)
      ensures |old(entityManager.freeIDs)| == 0 ==>
        id == old(entityManager.nextID) + 1 && entityManager.nextID == id && entityManager.freeIDs == []
    {
      id := entityManager.CreateEntity();
    }

    /** Delegates to the entity manager: a live id loses its components and joins the free list. */
    method DestroyEntity(id: EntityId)
      requires Valid()
      modifies entityManager, entityManager.componentMgr
      ensures Valid()
      ensures !entityManager.Exists(id)
      ensures id !in old(entityManager.entities) ==>
        unchanged(entityManager) && unchanged(entityManager.componentMgr)
      ensures id in old(entityManager.entities) ==>
        && entityManager.entities == old(entityManager.entities) - {id}
        && entityManager.freeIDs == old(entityManager.freeIDs) + [id]
        && entityManager.nextID == old(entityManager.nextID)
        && entityManager.componentMgr.typeRegistry == old(entityManager.componentMgr.typeRegistry)
        && entityManager.componentMgr.components == WithoutEntity(old(entityManager.componentMgr.components), id)
    {
      entityManager.DestroyEntity(id);
    }

    /** Delegates to the entity manager: the store takes the component, then the mask bit is set. */
    method AddComponent(id: EntityId, c: Option<Component>) returns (err: Outcome<EcsError>)
      requires Valid()
      modifies entityManager, entityManager.componentMgr
      ensures Valid()
      ensures entityManager.nextID == old(entityManager.nextID) && entityManager.freeIDs == old(entityManager.freeIDs)
      ensures id !in old(entityManager.entities) ==>
        err == Fail(EntityNotFound) && unchanged(entityManager) && unchanged(entityManager.componentMgr)
      ensures id in old(entityManager.entities) && c.None? ==>
        err == Fail(InvalidComponent) && unchanged(entityManager) && unchanged(entityManager.componentMgr)
      ensures id in old(entityManager.entities) && c.Some? ==> entityManager.componentMgr.RegisteredNow(c.value.kind)
      ensures id in old(entityManager.entities) && c.Some? ==>
        var t := entityManager.componentMgr.typeRegistry[c.value.kind];
        && err == (if Holds(old(entityManager.componentMgr.components), id, t) then Fail(ComponentExists) else Pass)
        && entityManager.componentMgr.components ==
             (if err == Pass then Put(old(entityManager.componentMgr.components), t, id, c.value)
              else Registered(old(entityManager.componentMgr.components), t))
        && entityManager.entities ==
             (if err == Pass then old(entityManager.entities)[id := Entity(id, Or(old(entityManager.entities[id].componentMask), Bit(t)))]
              else old(entityManager.entities))
      ensures err == Pass ==>
        && c.Some? && c.value.kind in entityManager.componentMgr.typeRegistry
        && entityManager.GetComponent(id, entityManager.componentMgr.typeRegistry[c.value.kind]) == Success(c.value)
    {
      err := entityManager.AddComponent(id, c);
    }

    /** Delegates to the entity manager: the store drops (t, id), then the mask bit is cleared. */
    method RemoveComponent(id: EntityId, t: ComponentType) returns (err: Outcome<EcsError>)
      requires Valid()
      modifies entityManager, entityManager.componentMgr
      ensures Valid()
      ensures entityManager.nextID == old(entityManager.nextID) && entityManager.freeIDs == old(entityManager.freeIDs)
      ensures entityManager.componentMgr.typeRegistry == old(entityManager.componentMgr.typeRegistry)
      ensures id !in old(entityManager.entities) ==>
        err == Fail(EntityNotFound) && unchanged(entityManager) && unchanged(entityManager.componentMgr)
      ensures id in old(entityManager.entities) ==>
        && err == (if Holds(old(entityManager.componentMgr.components), id, t) then Pass else Fail(ComponentNotFound))
        && !entityManager.componentMgr.HasComponent(id, t)
        && entityManager.componentMgr.components ==
             (if err == Pass then old(entityManager.componentMgr.components)[t := old(entityManager.componentMgr.components)[t] - {id}]
              else old(entityManager.componentMgr.components))
        && entityManager.entities ==
             (if err == Pass then old(entityManager.entities)[id := Entity(id, AndNot(old(entityManager.entities[id].componentMask), Bit(t)))]
              else old(entityManager.entities))
    {
      err := entityManager.RemoveComponent(id, t);
    }

    function GetComponent(id: EntityId, t: ComponentType): (r: Result<Component, EcsError>)
      reads this, entityManager, entityManager.componentMgr, systemManager, archetypeManager
      requires Valid()
      ensures r == entityManager.GetComponent(id, t)
      ensures r.Success? ==> entityManager.Exists(id)
    {
      entityManager.GetComponent(id, t)
    }

    function HasComponent(id: EntityId, t: ComponentType): (b: bool)
      reads this, entityManager, entityManager.componentMgr, systemManager, archetypeManager
      requires Valid()
      ensures b <==> t < Width && entityManager.componentMgr.HasComponent(id, t)
    {
      entityManager.HasComponent(id, t)
    }

    method GetAllEntities() returns (r: seq<EntityId>)
      requires Valid()
      ensures Seqs.NoDup(r) && forall x :: x in r <==> x in entityManager.entities
    {
      r := entityManager.GetAllEntities();
    }

    method GetEntitiesWithComponents(m: Mask) returns (r: seq<EntityId>)
      requires Valid()
      ensures Seqs.NoDup(r)
      ensures forall x :: x in r <==> x in entityManager.entities && Covers(entityManager.entities[x].componentMask, m)
    {
      r := entityManager.GetEntitiesWithComponents(m);
    }

    method AddSystem(s: BaseSystem)
      requires Valid()
      modifies systemManager
      ensures Valid()
      ensures multiset(systemManager.systems) == multiset(old(systemManager.systems)) + multiset{s}
    {
      systemManager.AddSystem(s);
    }

    method RemoveSystem(s: BaseSystem)
      requires Valid()
      modifies systemManager
      ensures Valid()
      ensures systemManager.systems == Seqs.RemoveFirst(old(systemManager.systems), s)
    {
      systemManager.RemoveSystem(s);
    }

    /**
     * One frame: the system manager runs exactly when the world is running and not paused.
     * `called` tells whether it ran, `invoked` which systems it invoked.
     */
    method Update() returns (called: bool, invoked: seq<BaseSystem>)
      requires Valid()
      ensures called <==> running && !paused
      ensures invoked == if called then EnabledOf(systemManager.systems) else []
    {
      if !running || paused {
        return false, [];
      }
      called := true;
      invoked := systemManager.Update();
    }

    /** Runs the world and lifts any pause. */
    method Start()
      modifies this
      ensures running && !paused
    {
      running := true;
      paused := false;
    }

    /** Stops the world; the pause flag is left as it was. */
    method Stop()
      modifies this
      ensures !running && paused == old(paused)
    {
      running := false;
    }

    /** Sets the pause flag, whether or not the world is running. */
    method Pause()
      modifies this
      ensures paused && running == old(running)
    {
      paused := true;
    }

    /** Clears the pause flag, whether or not the world is running. */
    method Resume()
      modifies this
      ensures !paused && running == old(running)
    {
      paused := false;
    }

    function IsRunning(): (b: bool)
      reads this
      ensures b == running
    {
      running
    }

    function IsPaused(): (b: bool)
      reads this
      ensures b == paused
    {
      paused
    }

    /**
     * Removes every entity, component and archetype; the systems and the flags stay. The free
     * list is emptied but the id counter is not reset, so later ids are new ones.
     */
    method Clear()
      requires Valid()
      modifies entityManager, entityManager.componentMgr, archetypeManager
      ensures Valid()
      ensures entityManager.entities == map[] && archetypeManager.archetypes == map[]
      ensures entityManager.freeIDs == [] && entityManager.nextID == old(entityManager.nextID)
      ensures entityManager.componentMgr.typeRegistry == old(entityManager.componentMgr.typeRegistry)
      ensures entityManager.componentMgr.components == Emptied(old(entityManager.componentMgr.components))
      ensures forall x, t :: !entityManager.componentMgr.HasComponent(x, t)
      ensures unchanged(systemManager)
    {
      entityManager.Clear();
      archetypeManager.Clear();
    }

    /**
     * Stops the world and empties it of systems, entities and archetypes, as Clear does for
     * the entities: the id counter and the type registry are kept.
     */
    method Destroy()
      requires Valid()
      modifies this, entityManager, entityManager.componentMgr, systemManager, archetypeManager
      ensures Valid()
      ensures !running && paused == old(paused)
      ensures systemManager.systems == [] && entityManager.entities == map[] && archetypeManager.archetypes == map[]
      ensures entityManager.freeIDs == [] && entityManager.nextID == old(entityManager.nextID)
      ensures entityManager.componentMgr.typeRegistry == old(entityManager.componentMgr.typeRegistry)
      ensures entityManager.componentMgr.components == Emptied(old(entityManager.componentMgr.components))
      ensures forall x, t :: !entityManager.componentMgr.HasComponent(x, t)
    {
      Stop();
      systemManager.Clear();
      Clear();
    }

    function EntityCount(): (n: nat)
      reads this, entityManager, entityManager.componentMgr, systemManager, archetypeManager
      requires Valid()
      ensures n == |entityManager.entities|
    {
      entityManager.Count()
    }

    /** A new query over this world, requiring nothing yet (mask 0). */
    method NewQuery() returns (q: Query)
      ensures fresh(q) && q.world == this && q.componentMask == Zero
    {
      q := new Query(this);
    }
  }

  /** Go `Query`: a world and the mask of the components it requires. */
  class Query {
    const world: World
    var componentMask: Mask

    constructor (world: World)
      ensures this.world == world && componentMask == Zero
    {
      this.world := world;
      componentMask := Zero;
    }

    /** Requires token t too: ORs in `1 << t`, which adds nothing when t >= 64. */
    method With(t: ComponentType) returns (q: Query)
      modifies this
      ensures q == this
      ensures componentMask == Or(old(componentMask), Bit(t))
      ensures forall u :: HasBit(componentMask, u) <==> HasBit(old(componentMask), u) || (u == t && t < Width)
      ensures t >= Width ==> componentMask == old(componentMask)
    {
      forall u ensures HasBit(Or(componentMask, Bit(t)), u) <==> HasBit(componentMask, u) || (u == t && t < Width) {
        SetBit(componentMask, t, u);
      }
      componentMask := Or(componentMask, Bit(t));
      q := this;
    }

    /** The live entities that have every component the query requires. */
    method Execute() returns (r: seq<EntityId>)
      requires world.Valid()
      ensures Seqs.NoDup(r)
      ensures forall x :: x in r <==>
        x in world.entityManager.entities && Covers(world.entityManager.entities[x].componentMask, componentMask)
      ensures forall x :: x in r <==>
        x in world.entityManager.entities && forall t :: t in componentMask ==> world.entityManager.componentMgr.HasComponent(x, t)
    {
      r := world.entityManager.GetEntitiesWithComponents(componentMask);
    }
  }
}
