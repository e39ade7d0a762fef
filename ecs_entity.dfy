/**
 * The entity manager of the ECS (pkg/core/ecs/entity.go): ids come from a counter or, first,
 * from a LIFO list of freed ids; each live entity carries a 64-bit composition mask that is
 * kept in step with the component store.
 */
module EcsEntity {
  import opened Wrappers
  import opened Mask
  import Seqs
  import opened EcsComponent

  /** Go `Entity`: its id and its composition mask. */
  datatype Entity = Entity(ID: EntityId, componentMask: Mask)

  /** A set of ids drawn from lo .. hi-1 has at most hi - lo members. */
  lemma {:induction false} BoundedSetSize(ids: set<EntityId>, lo: nat, hi: nat)
    requires lo <= hi
    requires forall x :: x in ids ==> lo <= x < hi
    ensures |ids| <= hi - lo
    decreases hi - lo
  {
    if lo < hi {
      BoundedSetSize(ids - {hi - 1}, lo, hi - 1);
    } else {
      assert ids == {};
    }
  }

  /** Only live entities have components in the store s. */
  ghost predicate StoreLive(ents: map<EntityId, Entity>, s: Store)
  {
    forall x: EntityId, t: ComponentType :: Holds(s, x, t) ==> x in ents
  }

  /** Bit t of a live entity's mask is set exactly when t < 64 and s holds (t, id). */
  ghost predicate MasksInStep(ents: map<EntityId, Entity>, s: Store)
  {
    forall id: EntityId, t: ComponentType :: id in ents ==>
      (t in ents[id].componentMask <==> t < Width && Holds(s, id, t))
  }

  /** Registering a token adds at most an empty inner map, which keeps masks and store in step. */
  lemma RegisterKeepsStep(ents: map<EntityId, Entity>, s: Store, t: ComponentType)
    requires StoreLive(ents, s) && MasksInStep(ents, s)
    ensures StoreLive(ents, Registered(s, t)) && MasksInStep(ents, Registered(s, t))
  {
  }

  /** Storing (t, id) and setting bit t of id's mask keep masks and store in step. */
  lemma AddKeepsStep(ents: map<EntityId, Entity>, s: Store, id: EntityId, t: ComponentType, c: Component)
    requires StoreLive(ents, s) && MasksInStep(ents, s) && id in ents
    ensures var ents' := ents[id := Entity(id, Or(ents[id].componentMask, Bit(t)))];
            StoreLive(ents', Put(s, t, id, c)) && MasksInStep(ents', Put(s, t, id, c))
  {
    var ents' := ents[id := Entity(id, Or(ents[id].componentMask, Bit(t)))];
    forall x: EntityId, u: ComponentType | x in ents'
      ensures u in ents'[x].componentMask <==> u < Width && Holds(Put(s, t, id, c), x, u)
    {
      if x == id {
        assert ents'[x].componentMask == ents[id].componentMask + Bit(t);
      }
    }
  }

  /** Dropping (t, id) and clearing bit t of id's mask keep masks and store in step. */
  lemma RemoveKeepsStep(ents: map<EntityId, Entity>, s: Store, id: EntityId, t: ComponentType)
    requires StoreLive(ents, s) && MasksInStep(ents, s) && id in ents && t in s
    ensures var ents' := ents[id := Entity(id, AndNot(ents[id].componentMask, Bit(t)))];
            var s' := s[t := s[t] - {id}];
            StoreLive(ents', s') && MasksInStep(ents', s')
  {
    var ents' := ents[id := Entity(id, AndNot(ents[id].componentMask, Bit(t)))];
    var s' := s[t := s[t] - {id}];
    assert forall x, u :: Holds(s', x, u) <==> Holds(s, x, u) && !(x == id && u == t);
    forall x: EntityId, u: ComponentType | x in ents'
      ensures u in ents'[x].componentMask <==> u < Width && Holds(s', x, u)
    {
      if x == id {
        assert ents'[x].componentMask == ents[id].componentMask - Bit(t);
      }
    }
  }

  /** The live map is keyed by id, ids lie in 2 .. next, and freed ids are distinct, in range and dead. */
  ghost predicate IdsAgree(ents: map<EntityId, Entity>, free: seq<EntityId>, next: nat)
  {
    && next >= 1
    && (forall id :: id in ents ==> ents[id].ID == id && 2 <= id <= next)
    && (forall i :: 0 <= i < |free| ==> 2 <= free[i] <= next && free[i] !in ents)
    && Seqs.NoDup(free)
  }

  /** Replacing the mask of a live entity keeps the id bookkeeping. */
  lemma MaskChangeKeepsIds(ents: map<EntityId, Entity>, free: seq<EntityId>, next: nat, id: EntityId, m: Mask)
    requires IdsAgree(ents, free, next) && id in ents
    ensures IdsAgree(ents[id := Entity(id, m)], free, next)
  {
  }

  class EntityManager {
    /** The counter; the first id it hands out is 2, because the increment comes first. */
    var nextID: nat
    var entities: map<EntityId, Entity>
    var freeIDs: seq<EntityId>
    const componentMgr: ComponentManager

    /**
     * Ids are keyed by themselves and lie in 2 .. nextID; freed ids are distinct, in range
     * and not live; only live entities have stored components; and bit t of a live entity's
     * mask is set exactly when t < 64 and the store holds a component of token t for it.
     */
    ghost predicate Valid()
      reads this, componentMgr
    {
      && componentMgr.Valid()
      && IdsValid()
      && StoreLive(entities, componentMgr.components)
      && MasksInStep(entities, componentMgr.components)
    }

    /** The bookkeeping of ids: the live map, the counter and the free list agree. */
    ghost predicate IdsValid()
      reads this
    {
      IdsAgree(entities, freeIDs, nextID)
    }

    constructor ()
      ensures Valid() && fresh(componentMgr)
      ensures nextID == 1 && entities == map[] && freeIDs == []
      ensures componentMgr.nextType == 0 && componentMgr.components == map[]
    {
      nextID := 1;
      entities := map[];
      freeIDs := [];
      componentMgr := new ComponentManager();
    }

    /**
     * Makes a new live entity with an empty mask. The most recently freed id is reused
     * first; otherwise the counter is advanced and its new value is the id.
     */
    method CreateEntity() returns (id: EntityId)
      requires Valid()
      modifies this
      ensures Valid()
      ensures id !in old(entities) && 2 <= id
      ensures entities == old(entities)[id := Entity(id, Zero)]
      ensures |entities| == |old(entities)| + 1
      ensures |old(freeIDs)| > 0 ==>
        && id == old(freeIDs)[|old(freeIDs)| - 1]
        && freeIDs == old(freeIDs)[..|old(freeIDs)| - 1]
        && nextID == old(nextID)
      ensures |old(freeIDs)| == 0 ==> id == old(nextID) + 1 && nextID == id && freeIDs == []
    {
      if |freeIDs| > 0 {
        id := freeIDs[|freeIDs| - 1];
        freeIDs := freeIDs[..|freeIDs| - 1];
      } else {
        nextID := nextID + 1;
        id := nextID;
      }
      entities := entities[id := Entity(id, Zero)];
    }

    /**
     * Destroys a live entity: all its components go, and its id is pushed on the free list.
     * A dead id is ignored.
     */
    method DestroyEntity(id: EntityId)
      requires Valid()
      modifies this, componentMgr
      ensures Valid()
      ensures id !in old(entities) ==> unchanged(this) && unchanged(componentMgr)
      ensures id in old(entities) ==>
        && entities == old(entities) - {id}
        && freeIDs == old(freeIDs) + [id]
        && nextID == old(nextID)
        && componentMgr.typeRegistry == old(componentMgr.typeRegistry)
        && componentMgr.components == WithoutEntity(old(componentMgr.components), id)
    {
      if id !in entities {
        return;
      }
      componentMgr.RemoveAllComponents(id);
      entities := entities - {id};
      Seqs.NoDupAppend(freeIDs, id);
      freeIDs := freeIDs + [id];
    }

    /** The entity with this id, if it is live. */
    function GetEntity(id: EntityId): (r: Option<Entity>)
      reads this, componentMgr
      requires Valid()
      ensures r.Some? <==> id in entities
      ensures r.Some? ==> r.value.ID == id
      ensures r.Some? ==> forall t: ComponentType :: t in r.value.componentMask <==> t < Width && componentMgr.HasComponent(id, t)
    {
      if id in entities then Some(entities[id]) else None
    }

    /** Whether the id is live; live ids are never 0 or 1 and never beyond the counter. */
    function Exists(id: EntityId): (b: bool)
      reads this, componentMgr
      requires Valid()
      ensures b <==> id in entities
      ensures b ==> 2 <= id <= nextID
    {
      id in entities
    }

    /** Every live id, once each, in unspecified (map) order. */
    method GetAllEntities() returns (r: seq<EntityId>)
      requires Valid()
      ensures Seqs.NoDup(r)
      ensures forall x :: x in r <==> x in entities
      ensures |r| == Count()
    {
      r := [];
      var todo := entities.Keys;
      while todo != {}
        invariant todo <= entities.Keys
        invariant Seqs.NoDup(r)
        invariant forall x :: x in r <==> x in entities.Keys - todo
        invariant |r| + |todo| == |entities|
        decreases todo
      {
        var x :| x in todo;
        Seqs.NoDupAppend(r, x);
        r := r + [x];
        todo := todo - {x};
      }
    }

    /**
     * The live ids whose mask covers m, once each. Because the masks follow the store, these
     * are exactly the live entities that hold a component of every token in m.
     */
    method GetEntitiesWithComponents(m: Mask) returns (r: seq<EntityId>)
      requires Valid()
      ensures Seqs.NoDup(r)
      ensures forall x :: x in r <==> x in entities && Covers(entities[x].componentMask, m)
      ensures forall x :: x in r <==> x in entities && forall t :: t in m ==> componentMgr.HasComponent(x, t)
    {
      r := [];
      var todo := entities.Keys;
      while todo != {}
        invariant todo <= entities.Keys
        invariant Seqs.NoDup(r)
        invariant forall x :: x in r <==> x in entities.Keys - todo && Covers(entities[x].componentMask, m)
        decreases todo
      {
        var x :| x in todo;
        if And(entities[x].componentMask, m) == m {
          Seqs.NoDupAppend(r, x);
          r := r + [x];
        }
        todo := todo - {x};
      }
      forall x | x in entities
        ensures Covers(entities[x].componentMask, m) <==> forall t :: t in m ==> componentMgr.HasComponent(x, t)
      {
        assert Covers(entities[x].componentMask, m) <==> m <= entities[x].componentMask;
      }
    }

    /**
     * Adds a component to a live entity through the store, then sets the bit of its token in
     * the mask. A dead id is refused first; a store error is passed on and leaves the mask
     * alone; a token of 64 or more sets no bit.
     */
    method AddComponent(id: EntityId, c: Option<Component>) returns (err: Outcome<EcsError>)
      requires Valid()
      modifies this, componentMgr
      ensures Valid()
      ensures nextID == old(nextID) && freeIDs == old(freeIDs)
      ensures id !in old(entities) ==>
        err == Fail(EntityNotFound) && unchanged(this) && unchanged(componentMgr)
      ensures id in old(entities) && c.None? ==>
        err == Fail(InvalidComponent) && unchanged(this) && unchanged(componentMgr)
      ensures id in old(entities) && c.Some? ==> componentMgr.RegisteredNow(c.value.kind)
      ensures id in old(entities) && c.Some? ==>
        var t := componentMgr.typeRegistry[c.value.kind];
        && err == (if Holds(old(componentMgr.components), id, t) then Fail(ComponentExists) else Pass)
        && componentMgr.components == (if err == Pass then Put(old(componentMgr.components), t, id, c.value)
                                       else Registered(old(componentMgr.components), t))
        && entities == (if err == Pass then old(entities)[id := Entity(id, Or(old(entities[id].componentMask), Bit(t)))]
                        else old(entities))
    {
      if id !in entities {
        return Fail(EntityNotFound);
      }
      err := componentMgr.AddComponent(id, c);
      if err != Pass {
        if c.Some? {
          RegisterKeepsStep(entities, old(componentMgr.components), componentMgr.typeRegistry[c.value.kind]);
        }
        return;
      }
      var t := componentMgr.GetComponentType(c.value.kind);
      SetMaskBit(id, t, old(componentMgr.components), c.value);
    }

    /** After the store took (t, id), sets bit t of id's mask, which keeps the two in step. */
    method SetMaskBit(id: EntityId, t: ComponentType, ghost s: Store, ghost c: Component)
      requires componentMgr.Valid() && IdsValid() && id in entities
      requires StoreLive(entities, s) && MasksInStep(entities, s)
      requires componentMgr.components == Put(s, t, id, c)
      modifies this
      ensures Valid()
      ensures entities == old(entities)[id := Entity(id, Or(old(entities[id].componentMask), Bit(t)))]
      ensures nextID == old(nextID) && freeIDs == old(freeIDs)
    {
      var m := Or(entities[id].componentMask, Bit(t));
      AddKeepsStep(entities, s, id, t, c);
      MaskChangeKeepsIds(entities, freeIDs, nextID, id, m);
      entities := entities[id := Entity(id, m)];
    }

    /**
     * Removes a component of a live entity through the store, then clears the bit of its
     * token. A dead id is refused first; a store error is passed on and leaves the mask alone.
     */
    method RemoveComponent(id: EntityId, t: ComponentType) returns (err: Outcome<EcsError>)
      requires Valid()
      modifies this, componentMgr
      ensures Valid()
      ensures nextID == old(nextID) && freeIDs == old(freeIDs)
      ensures componentMgr.typeRegistry == old(componentMgr.typeRegistry)
      ensures id !in old(entities) ==>
        err == Fail(EntityNotFound) && unchanged(this) && unchanged(componentMgr)
      ensures id in old(entities) ==>
        && err == (if Holds(old(componentMgr.components), id, t) then Pass else Fail(ComponentNotFound))
        && !componentMgr.HasComponent(id, t)
        && componentMgr.components ==
             (if err == Pass then old(componentMgr.components)[t := old(componentMgr.components)[t] - {id}]
              else old(componentMgr.components))
        && entities == (if err == Pass then old(entities)[id := Entity(id, AndNot(old(entities[id].componentMask), Bit(t)))]
                        else old(entities))
    {
      if id !in entities {
        return Fail(EntityNotFound);
      }
      var entity := entities[id];
      err := componentMgr.RemoveComponent(id, t);
      if err != Pass {
        return;
      }
      RemoveKeepsStep(entities, old(componentMgr.components), id, t);
      MaskChangeKeepsIds(entities, freeIDs, nextID, id, AndNot(entity.componentMask, Bit(t)));
      entities := entities[id := Entity(id, AndNot(entity.componentMask, Bit(t)))];
    }

    /**
     * The stored component of (id, t), read from the store without an existence check. It is
     * found only for live entities, and for a token below 64 exactly when the mask says so.
     */
    function GetComponent(id: EntityId, t: ComponentType): (r: Result<Component, EcsError>)
      reads this, componentMgr
      requires Valid()
      ensures r.Success? ==> Holds(componentMgr.components, id, t) && id in entities && r.value == componentMgr.components[t][id]
      ensures r.Failure? ==> r.error == ComponentNotFound
      ensures t < Width ==> (r.Success? <==> HasComponent(id, t))
    {
      var r := componentMgr.GetComponent(id, t);
      assert r.Success? ==> Holds(componentMgr.components, id, t);
      r
    }

    /**
     * Tests the mask bit of t for a live id. This agrees with the store for tokens below 64,
     * and is false for every token of 64 or more (`1 << t` is then 0).
     */
    function HasComponent(id: EntityId, t: ComponentType): (b: bool)
      reads this, componentMgr
      requires Valid()
      ensures b <==> t < Width && componentMgr.HasComponent(id, t)
      ensures b ==> id in entities
    {
      HasBitIsMember(if id in entities then entities[id].componentMask else Zero, t);
      id in entities && HasBit(entities[id].componentMask, t)
    }

    /** The number of live entities; never more than the ids the counter has handed out. */
    function Count(): (n: nat)
      reads this, componentMgr
      requires Valid()
      ensures n == |entities.Keys|
      ensures n <= nextID - 1
    {
      BoundedSetSize(entities.Keys, 2, nextID + 1);
      |entities|
    }

    /**
     * Removes every live entity and all their components; the free list is emptied and the
     * counter kept, so the freed ids are not handed out again.
     */
    method Clear()
      requires Valid()
      modifies this, componentMgr
      ensures Valid()
      ensures entities == map[] && freeIDs == [] && nextID == old(nextID)
      ensures componentMgr.typeRegistry == old(componentMgr.typeRegistry)
      ensures componentMgr.components == Emptied(old(componentMgr.components))
    {
      var todo := entities.Keys;
      assert StoreLive(entities, componentMgr.components);
      while todo != {}
        invariant todo <= entities.Keys
        invariant entities == old(entities) && freeIDs == old(freeIDs) && nextID == old(nextID)
        invariant componentMgr.Valid()
        invariant componentMgr.typeRegistry == old(componentMgr.typeRegistry)
        invariant componentMgr.components.Keys == old(componentMgr.components).Keys
        invariant forall x, t :: Holds(componentMgr.components, x, t) <==>
          Holds(old(componentMgr.components), x, t) && x in todo
        decreases todo
      {
        var x :| x in todo;
        componentMgr.RemoveAllComponents(x);
        todo := todo - {x};
      }
      entities := map[];
      freeIDs := freeIDs[..0];
      forall t | t in componentMgr.components
        ensures componentMgr.components[t] == map[]
      {
        forall x | x in componentMgr.components[t] ensures false {
          assert Holds(componentMgr.components, x, t);
        }
        assert componentMgr.components[t].Keys == {};
      }
    }
  }
}
