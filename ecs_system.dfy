/**
 * Systems and archetypes of the ECS (pkg/core/ecs/system.go): a priority-ordered list of
 * update units with an enabled flag, and a standalone index of archetypes keyed by mask.
 */
module EcsSystem {
  import opened Mask
  import Seqs
  import opened EcsComponent

  /**
   * Go `BaseSystem`: a priority (lower runs earlier) and an enabled flag. The concrete
   * systems embed it; their own `Update` bodies are opaque to the manager.
   */
  class BaseSystem {
    const priority: int
    var enabled: bool

    /** `NewBaseSystem`: a new system starts enabled. */
    constructor (priority: int)
      ensures this.priority == priority && enabled
    {
      this.priority := priority;
      enabled := true;
    }

    function Priority(): (p: int)
      ensures p == priority
    {
      priority
    }

    function Enabled(): (b: bool)
      reads this
      ensures b == enabled
    {
      enabled
    }

    /** Sets the flag; the priority cannot change. */
    method SetEnabled(enabled: bool)
      modifies this
      ensures Enabled() == enabled
    {
      this.enabled := enabled;
    }
  }

  /** The list is non-decreasing by priority. */
  predicate SortedByPriority(s: seq<BaseSystem>)
  {
    forall i, j :: 0 <= i < j < |s| ==> s[i].priority <= s[j].priority
  }

  /** The enabled systems of s, in list order: the ones an update invokes. */
  ghost function EnabledOf(s: seq<BaseSystem>): (r: seq<BaseSystem>)
    reads s
    ensures |r| <= |s|
    ensures forall i :: 0 <= i < |r| ==> r[i] in s && r[i].enabled
    ensures forall i :: 0 <= i < |s| && s[i].enabled ==> s[i] in r
  {
    if s == [] then []
    else if s[0].enabled then [s[0]] + EnabledOf(s[1..])
    else EnabledOf(s[1..])
  }

  /** Only an enabled system, or none, changes the invoked list of a longer list. */
  lemma {:induction false} EnabledOfAppend(s: seq<BaseSystem>, x: BaseSystem)
    ensures EnabledOf(s + [x]) == EnabledOf(s) + (if x.enabled then [x] else [])
  {
    if s != [] {
      assert (s + [x])[1..] == s[1..] + [x];
      EnabledOfAppend(s[1..], x);
    } else {
      assert [x][1..] == [];
    }
  }

  /** Removing one element keeps a list sorted. */
  lemma RemoveAtKeepsSorted(s: seq<BaseSystem>, i: nat)
    requires i < |s| && SortedByPriority(s)
    ensures SortedByPriority(Seqs.RemoveAt(s, i))
  {
    var r := Seqs.RemoveAt(s, i);
    forall a, b | 0 <= a < b < |r| ensures r[a].priority <= r[b].priority {
      var a' := if a < i then a else a + 1;
      var b' := if b < i then b else b + 1;
      assert r[a] == s[a'] && r[b] == s[b'];
    }
  }

  /**
   * The sorted list with x placed after every priority not greater than its own: one
   * ordering that the re-sort after an append can produce.
   */
  function InsertSorted(s: seq<BaseSystem>, x: BaseSystem): (r: seq<BaseSystem>)
    ensures |r| == |s| + 1
  {
    if s == [] then [x]
    else if x.priority < s[0].priority then [x] + s
    else [s[0]] + InsertSorted(s[1..], x)
  }

  /** Every element of the insertion result is one of the list or x itself. */
  lemma {:induction false} InsertSortedMultiset(s: seq<BaseSystem>, x: BaseSystem)
    ensures multiset(InsertSorted(s, x)) == multiset(s) + multiset{x}
  {
    if s != [] && x.priority >= s[0].priority {
      InsertSortedMultiset(s[1..], x);
      assert s == [s[0]] + s[1..];
    }
  }

  /** Inserting into a sorted list keeps it sorted. */
  lemma {:induction false} InsertSortedKeepsSorted(s: seq<BaseSystem>, x: BaseSystem)
    requires SortedByPriority(s)
    ensures SortedByPriority(InsertSorted(s, x))
    ensures s != [] ==> InsertSorted(s, x)[0] == (if x.priority < s[0].priority then x else s[0])
  {
    if s != [] && x.priority >= s[0].priority {
      var tail := InsertSorted(s[1..], x);
      InsertSortedKeepsSorted(s[1..], x);
      InsertSortedMultiset(s[1..], x);
      forall j | 0 <= j < |tail| ensures s[0].priority <= tail[j].priority {
        assert tail[j] in multiset(s[1..]) + multiset{x};
      }
    }
  }

  /** Go `SystemManager`: the systems in priority order. */
  class SystemManager {
    var systems: seq<BaseSystem>

    ghost predicate Valid()
      reads this
    {
      SortedByPriority(systems)
    }

    constructor ()
      ensures Valid() && systems == []
    {
      systems := [];
    }

    /**
     * Appends the system and re-sorts by priority. The order among equal priorities is not
     * promised (the library sort used is not stable): only sortedness and the contents are.
     */
    method AddSystem(s: BaseSystem)
      requires Valid()
      modifies this
      ensures Valid()
      ensures multiset(systems) == multiset(old(systems)) + multiset{s}
      ensures |systems| == |old(systems)| + 1
    {
      InsertSortedKeepsSorted(systems, s);
      InsertSortedMultiset(systems, s);
      systems := InsertSorted(systems, s);
    }

    /** Splices out the first occurrence of the very same system; an absent one changes nothing. */
    method RemoveSystem(s: BaseSystem)
      requires Valid()
      modifies this
      ensures Valid()
      ensures systems == Seqs.RemoveFirst(old(systems), s)
      ensures s !in old(systems) ==> systems == old(systems)
      ensures s in old(systems) ==> multiset(systems) == multiset(old(systems)) - multiset{s}
    {
      var i := 0;
      while i < |systems|
        invariant 0 <= i <= |systems|
        invariant systems == old(systems)
        invariant forall k :: 0 <= k < i ==> systems[k] != s
      {
        if systems[i] == s {
          Seqs.RemoveFirstIsRemoveAt(systems, s);
          Seqs.RemoveAtMultiset(systems, i);
          RemoveAtKeepsSorted(systems, i);
          systems := systems[..i] + systems[i + 1..];
          return;
        }
        i := i + 1;
      }
      Seqs.RemoveFirstAbsent(systems, s);
    }

    /**
     * One frame: every enabled system is invoked once, in list order; disabled ones are
     * skipped but stay listed. The result is the sequence of invoked systems.
     */
    method Update() returns (invoked: seq<BaseSystem>)
      requires Valid()
      ensures invoked == EnabledOf(systems)
      ensures forall x :: x in invoked <==> x in systems && x.enabled
    {
      var snapshot := systems;
      invoked := [];
      var i := 0;
      while i < |snapshot|
        invariant 0 <= i <= |snapshot|
        invariant invoked == EnabledOf(snapshot[..i])
      {
        EnabledOfAppend(snapshot[..i], snapshot[i]);
        assert snapshot[..i + 1] == snapshot[..i] + [snapshot[i]];
        if snapshot[i].enabled {
          invoked := invoked + [snapshot[i]];
        }
        i := i + 1;
      }
      assert snapshot[..i] == snapshot;
    }

    /** A copy of the list, in priority order. */
    method GetSystems() returns (r: seq<BaseSystem>)
      requires Valid()
      ensures SortedByPriority(r)
      ensures r == systems
    {
      r := systems;
    }

    method Clear()
      modifies this
      ensures Valid() && systems == []
    {
      systems := [];
    }
  }

  /** Go `Archetype`: a fixed mask and a list of entity ids, with no deduplication. */
  class Archetype {
    const componentMask: Mask
    var entities: seq<EntityId>

    constructor (componentMask: Mask)
      ensures this.componentMask == componentMask && entities == []
    {
      this.componentMask := componentMask;
      entities := [];
    }

    /** Appends, even when the id is already listed. */
    method AddEntity(id: EntityId)
      modifies this
      ensures entities == old(entities) + [id]
      ensures Count() == old(Count()) + 1
    {
      entities := entities + [id];
    }

    /** Splices out the first occurrence of id only; an absent id changes nothing. */
    method RemoveEntity(id: EntityId)
      modifies this
      ensures entities == Seqs.RemoveFirst(old(entities), id)
      ensures id in old(entities) ==> multiset(entities) == multiset(old(entities)) - multiset{id}
      ensures id !in old(entities) ==> entities == old(entities)
    {
      var i := 0;
      while i < |entities|
        invariant 0 <= i <= |entities|
        invariant entities == old(entities)
        invariant forall k :: 0 <= k < i ==> entities[k] != id
      {
        if entities[i] == id {
          Seqs.RemoveFirstIsRemoveAt(entities, id);
          Seqs.RemoveAtMultiset(entities, i);
          entities := entities[..i] + entities[i + 1..];
          return;
        }
        i := i + 1;
      }
      Seqs.RemoveFirstAbsent(entities, id);
    }

    /** A copy of the id list. */
    method GetEntities() returns (r: seq<EntityId>)
      ensures r == entities
    {
      r := entities;
    }

    function Count(): (n: nat)
      reads this
      ensures n == |entities|
    {
      |entities|
    }

    /**
     * `entityMask & mask == mask`: every bit of the archetype is set in the given mask, that
     * is, the archetype's mask is a subset of it (not a superset).
     */
    function Matches(entityMask: Mask): (b: bool)
      ensures b <==> componentMask <= entityMask
      ensures b <==> forall t :: HasBit(componentMask, t) ==> HasBit(entityMask, t)
    {
      forall t | t in componentMask ensures HasBit(componentMask, t) && (t in entityMask <==> HasBit(entityMask, t)) {
        HasBitIsMember(componentMask, t);
        HasBitIsMember(entityMask, t);
      }
      forall t ensures HasBit(componentMask, t) ==> t in componentMask {
        HasBitIsMember(componentMask, t);
      }
      assert And(entityMask, componentMask) == componentMask <==> componentMask <= entityMask;
      Covers(entityMask, componentMask)
    }
  }

  /** Go `ArchetypeManager`: one archetype per exact mask. */
  class ArchetypeManager {
    var archetypes: map<Mask, Archetype>

    /** Each archetype is stored under its own mask, so distinct keys hold distinct archetypes. */
    ghost predicate Valid()
      reads this
    {
      forall m :: m in archetypes ==> archetypes[m].componentMask == m
    }

    constructor ()
      ensures Valid() && archetypes == map[]
    {
      archetypes := map[];
    }

    /**
     * The archetype of exactly this mask, made empty on first request. The map grows by at
     * most one entry, and a second request for the same mask returns the same archetype.
     */
    method GetOrCreateArchetype(m: Mask) returns (a: Archetype)
      requires Valid()
      modifies this
      ensures Valid()
      ensures m in archetypes && archetypes[m] == a && a.componentMask == m
      ensures m in old(archetypes) ==> a == old(archetypes[m]) && archetypes == old(archetypes)
      ensures m !in old(archetypes) ==> fresh(a) && a.entities == [] && archetypes == old(archetypes)[m := a]
    {
      if m in archetypes {
        return archetypes[m];
      }
      a := new Archetype(m);
      archetypes := archetypes[m := a];
    }

    /**
     * The stored archetypes whose mask is a subset of m (`Matches(m)`), each once, in
     * unspecified (map) order.
     */
    method FindArchetypes(m: Mask) returns (r: seq<Archetype>)
      requires Valid()
      ensures Seqs.NoDup(r)
      ensures forall a :: a in r <==> a in archetypes.Values && a.Matches(m)
      ensures forall a :: a in r ==> a.componentMask <= m
    {
      r := [];
      var todo := archetypes.Keys;
      while todo != {}
        invariant todo <= archetypes.Keys
        invariant Seqs.NoDup(r)
        invariant forall a :: a in r ==> a.componentMask in archetypes.Keys - todo
        invariant forall a :: a in r <==>
          exists k :: k in archetypes.Keys - todo && archetypes[k] == a && a.Matches(m)
        decreases todo
      {
        var k :| k in todo;
        var a := archetypes[k];
        if a.Matches(m) {
          Seqs.NoDupAppend(r, a);
          r := r + [a];
        }
        todo := todo - {k};
      }
    }

    method Clear()
      modifies this
      ensures Valid() && archetypes == map[]
    {
      archetypes := map[];
    }
  }
}
