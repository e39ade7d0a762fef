/**
 * The component store of the ECS (pkg/core/ecs/component.go): a registry that hands out
 * type tokens 0, 1, 2, ... in order of first use, and a nested store token -> entity -> payload.
 */
module EcsComponent {
  import opened Wrappers
  import Seqs

  /** Go `EntityID` (uint64). */
  type EntityId = nat

  /** Go `ComponentType` (uint64): a registry token, also the mask bit of the component. */
  type ComponentType = nat

  /** The `reflect.Type` of a component value, abstracted to a name. */
  type TypeKey = string

  /**
   * A component value. `declaredType` is what the component's own `Type()` method answers;
   * the store never consults it, it keys everything by the registry token of `kind`.
   */
  datatype Component = Component(kind: TypeKey, declaredType: ComponentType, payload: int)

  /** The error values declared by the ECS package. */
  datatype EcsError =
    | EntityNotFound
    | ComponentNotFound
    | ComponentExists
    | InvalidComponent
    | MaxComponentsLimit

  type Store = map<ComponentType, map<EntityId, Component>>

  /** The inner map of token t, or the empty map when t has none (a Go nil-map read). */
  function Inner(s: Store, t: ComponentType): map<EntityId, Component>
  {
    if t in s then s[t] else map[]
  }

  /** Whether the store holds a payload for (t, e). */
  predicate Holds(s: Store, e: EntityId, t: ComponentType)
  {
    t in s && e in s[t]
  }

  /** The store once token t is registered: t gets an empty inner map unless it has one. */
  function Registered(s: Store, t: ComponentType): (r: Store)
    ensures t in r && r.Keys == s.Keys + {t}
    ensures forall u, x :: Holds(r, x, u) <==> Holds(s, x, u)
  {
    if t in s then s else s[t := map[]]
  }

  /** The store with payload c put at (t, e), registering t if need be. */
  function Put(s: Store, t: ComponentType, e: EntityId, c: Component): (r: Store)
    ensures r.Keys == s.Keys + {t}
    ensures forall u, x :: Holds(r, x, u) <==> Holds(s, x, u) || (u == t && x == e)
    ensures t in r && e in r[t] && r[t][e] == c
  {
    s[t := Inner(s, t)[e := c]]
  }

  /** Registering t first does not change where a put lands. */
  lemma PutRegistered(s: Store, t: ComponentType, e: EntityId, c: Component)
    ensures Put(Registered(s, t), t, e, c) == Put(s, t, e, c)
  {
  }

  /** The store with every payload of entity e dropped, under every token. */
  function WithoutEntity(s: Store, e: EntityId): (r: Store)
    ensures r.Keys == s.Keys
    ensures forall t, x :: Holds(r, x, t) <==> Holds(s, x, t) && x != e
  {
    map t | t in s :: s[t] - {e}
  }

  /** The store with every inner map emptied; the tokens stay. */
  function Emptied(s: Store): (r: Store)
    ensures r.Keys == s.Keys
    ensures forall t, x :: !Holds(r, x, t)
  {
    map t | t in s :: map[]
  }

  class ComponentManager {
    var components: Store
    var typeRegistry: map<TypeKey, ComponentType>
    var nextType: nat

    /**
     * The registry maps distinct type keys to distinct tokens, and its tokens are exactly
     * 0 .. nextType-1, each with an inner map in the store.
     */
    ghost predicate Valid()
      reads this
    {
      && (forall k :: k in typeRegistry ==> typeRegistry[k] < nextType)
      && (forall k1, k2 :: k1 in typeRegistry && k2 in typeRegistry && typeRegistry[k1] == typeRegistry[k2] ==> k1 == k2)
      && components.Keys == typeRegistry.Values
      && (forall t: ComponentType :: t in components <==> t < nextType)
    }

    /** The registration of k, seen between the pre-state and the current state. */
    twostate predicate RegisteredNow(k: TypeKey)
      reads this
    {
      && k in typeRegistry
      && (k in old(typeRegistry) ==> typeRegistry == old(typeRegistry) && nextType == old(nextType))
      && (k !in old(typeRegistry) ==>
            typeRegistry == old(typeRegistry)[k := old(nextType)] && nextType == old(nextType) + 1)
    }

    constructor ()
      ensures Valid()
      ensures components == map[] && typeRegistry == map[] && nextType == 0
    {
      components := map[];
      typeRegistry := map[];
      nextType := 0;
    }

    /**
     * Returns the token of k, registering it first if it is new. New keys get consecutive
     * tokens; a token is never handed out twice; registration never fails.
     */
    method RegisterComponentType(k: TypeKey) returns (t: ComponentType)
      requires Valid()
      modifies this
      ensures Valid() && RegisteredNow(k) && t == typeRegistry[k]
      ensures components == Registered(old(components), t)
      ensures k in old(typeRegistry) ==> t == old(typeRegistry[k]) && t in old(components)
      ensures k !in old(typeRegistry) ==> t == old(nextType) && t !in old(typeRegistry.Values) && t !in old(components)
    {
      if k in typeRegistry {
        return typeRegistry[k];
      }
      t := nextType;
      nextType := nextType + 1;
      Seqs.MapAddValues(typeRegistry, k, t);
      typeRegistry := typeRegistry[k := t];
      components := components[t := map[]];
    }

    /** Looks k up, and registers it when it is unseen, so it never fails. */
    method GetComponentType(k: TypeKey) returns (t: ComponentType)
      requires Valid()
      modifies this
      ensures Valid() && RegisteredNow(k) && t == typeRegistry[k]
      ensures components == Registered(old(components), t)
      ensures k in old(typeRegistry) ==> t == old(typeRegistry[k]) && t in old(components)
      ensures k !in old(typeRegistry) ==> t == old(nextType) && t !in old(components)
    {
      if k in typeRegistry {
        t := typeRegistry[k];
      } else {
        t := RegisterComponentType(k);
      }
    }

    /**
     * Stores c for e under the token of c's type. `None` (Go nil) is refused before anything
     * happens; a second payload of the same type is refused and the first one kept. The type
     * is registered even when the payload is refused as a duplicate. Entity existence is not
     * checked here.
     */
    method AddComponent(e: EntityId, c: Option<Component>) returns (err: Outcome<EcsError>)
      requires Valid()
      modifies this
      ensures Valid()
      ensures c.None? ==> err == Fail(InvalidComponent) && unchanged(this)
      ensures c.Some? ==> RegisteredNow(c.value.kind)
      ensures c.Some? ==>
        var t := typeRegistry[c.value.kind];
        && err == (if Holds(old(components), e, t) then Fail(ComponentExists) else Pass)
        && components == (if err == Pass then Put(old(components), t, e, c.value) else Registered(old(components), t))
    {
      if c.None? {
        return Fail(InvalidComponent);
      }
      var t := GetComponentType(c.value.kind);
      if e in components[t] {
        return Fail(ComponentExists);
      }
      ghost var registered := components;
      var inner: map<EntityId, Component> := components[t];
      components := components[t := inner[e := c.value]];
      assert components == Put(registered, t, e, c.value);
      PutRegistered(old(components), t, e, c.value);
      return Pass;
    }

    /** Deletes the payload of (t, e); refuses with ComponentNotFound when there is none. */
    method RemoveComponent(e: EntityId, t: ComponentType) returns (err: Outcome<EcsError>)
      requires Valid()
      modifies this
      ensures Valid()
      ensures typeRegistry == old(typeRegistry) && nextType == old(nextType)
      ensures err == (if Holds(old(components), e, t) then Pass else Fail(ComponentNotFound))
      ensures components == if err == Pass then old(components)[t := old(components)[t] - {e}]
                            else old(components)
    {
      if t !in components {
        return Fail(ComponentNotFound);
      }
      if e !in components[t] {
        return Fail(ComponentNotFound);
      }
      components := components[t := components[t] - {e}];
      return Pass;
    }

    /** The payload of (t, e), or ComponentNotFound. */
    function GetComponent(e: EntityId, t: ComponentType): (r: Result<Component, EcsError>)
      reads this
      requires Valid()
      ensures r.Success? <==> Holds(components, e, t)
      ensures r.Success? ==> t < nextType && r.value == components[t][e]
      ensures r.Failure? ==> r.error == ComponentNotFound
    {
      if t !in components then Failure(ComponentNotFound)
      else if e !in components[t] then Failure(ComponentNotFound)
      else Success(components[t][e])
    }

    /** Whether a payload is stored for (t, e); false for every unregistered token. */
    function HasComponent(e: EntityId, t: ComponentType): (b: bool)
      reads this
      ensures b <==> e in Inner(components, t)
    {
      Holds(components, e, t)
    }

    /** The tokens under which e has a payload. */
    ghost function TokensOf(e: EntityId): set<ComponentType>
      reads this
    {
      set t | t in components && e in components[t]
    }

    /** Every payload of e, one per token that holds one, in unspecified (map) order. */
    method GetAllComponents(e: EntityId) returns (r: seq<Component>)
      requires Valid()
      ensures |r| == |TokensOf(e)|
      ensures forall c :: c in r <==> exists t :: t in components && e in components[t] && components[t][e] == c
    {
      r := [];
      var todo := components.Keys;
      ghost var seen: set<ComponentType> := {};
      while todo != {}
        invariant todo <= components.Keys
        invariant seen == set t | t in components.Keys - todo && e in components[t]
        invariant |r| == |seen|
        invariant forall c :: c in r <==> exists t :: t in components.Keys - todo && e in components[t] && components[t][e] == c
        decreases todo
      {
        var t :| t in todo;
        if e in components[t] {
          r := r + [components[t][e]];
          seen := seen + {t};
        }
        todo := todo - {t};
      }
      assert seen == TokensOf(e);
    }

    /** Drops e's payload under every token; other entities are untouched. */
    method RemoveAllComponents(e: EntityId)
      requires Valid()
      modifies this
      ensures Valid()
      ensures typeRegistry == old(typeRegistry) && nextType == old(nextType)
      ensures components == WithoutEntity(old(components), e)
    {
      var todo := components.Keys;
      while todo != {}
        invariant todo <= components.Keys == old(components).Keys
        invariant typeRegistry == old(typeRegistry) && nextType == old(nextType)
        invariant forall t :: t in components ==>
          components[t] == if t in todo then old(components)[t] else old(components)[t] - {e}
        decreases todo
      {
        var t :| t in todo;
        components := components[t := components[t] - {e}];
        todo := todo - {t};
      }
    }

    /** The entities holding a payload of token t, each once; empty for an unregistered token. */
    method GetEntitiesWithComponent(t: ComponentType) returns (r: seq<EntityId>)
      requires Valid()
      ensures Seqs.NoDup(r)
      ensures forall x :: x in r <==> HasComponent(x, t)
      ensures |r| == GetComponentCount(t)
    {
      if t !in components {
        return [];
      }
      r := [];
      var todo := components[t].Keys;
      while todo != {}
        invariant todo <= components[t].Keys
        invariant Seqs.NoDup(r)
        invariant forall x :: x in r <==> x in components[t].Keys - todo
        invariant |r| + |todo| == |components[t]|
        decreases todo
      {
        var x :| x in todo;
        Seqs.NoDupAppend(r, x);
        r := r + [x];
        todo := todo - {x};
      }
    }

    /** The number of payloads stored under token t; 0 for an unregistered token. */
    function GetComponentCount(t: ComponentType): (n: nat)
      reads this
      requires Valid()
      ensures n == |Inner(components, t)|
      ensures t >= nextType ==> n == 0
    {
      if t !in components then 0 else |components[t]|
    }

    /** Empties every inner map; the registry and its tokens stay. */
    method Clear()
      requires Valid()
      modifies this
      ensures Valid()
      ensures typeRegistry == old(typeRegistry) && nextType == old(nextType)
      ensures components == Emptied(old(components))
    {
      var todo := components.Keys;
      while todo != {}
        invariant todo <= components.Keys == old(components).Keys
        invariant typeRegistry == old(typeRegistry) && nextType == old(nextType)
        invariant forall t :: t in components ==>
          components[t] == if t in todo then old(components)[t] else map[]
        decreases todo
      {
        var t :| t in todo;
        components := components[t := map[]];
        todo := todo - {t};
      }
    }
  }
}
