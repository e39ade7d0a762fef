/**
 * The publish/subscribe bus (pkg/core/event/event.go): a registry of listeners per event
 * type, ids made from a counter, a stable bubble sort by descending priority, synchronous
 * dispatch that stops at cancellation, and the removal of one-shot listeners afterwards.
 */
module Events {
  import opened Wrappers
  import Seqs

  type EventType = string

  /** An event's data or a metadata value (Go `interface{}`), abstracted to a handle. */
  type Payload = int

  /** The identity of a handler function. */
  type HandlerId = nat

  /** Go `Event`, without its timestamp. */
  class Event {
    const Type: EventType
    const Data: Payload
    var Priority: int
    var Cancelled: bool
    var Metadata: map<string, Payload>

    /** `NewEvent`: priority 0, not cancelled, no metadata. */
    constructor (eventType: EventType, data: Payload)
      ensures Type == eventType && Data == data
      ensures Priority == 0 && !Cancelled && Metadata == map[]
    {
      Type := eventType;
      Data := data;
      Priority := 0;
      Cancelled := false;
      Metadata := map[];
    }

    /** `NewEventWithPriority`. */
    constructor WithPriority(eventType: EventType, data: Payload, priority: int)
      ensures Type == eventType && Data == data
      ensures Priority == priority && !Cancelled && Metadata == map[]
    {
      Type := eventType;
      Data := data;
      Priority := priority;
      Cancelled := false;
      Metadata := map[];
    }

    method Cancel()
      modifies this
      ensures IsCancelled()
      ensures Priority == old(Priority) && Metadata == old(Metadata)
    {
      Cancelled := true;
    }

    function IsCancelled(): (b: bool)
      reads this
      ensures b == Cancelled
    {
      Cancelled
    }

    method SetMetadata(key: string, value: Payload)
      modifies this
      ensures Metadata == old(Metadata)[key := value]
      ensures GetMetadata(key) == Some(value)
      ensures forall k :: k != key ==> GetMetadata(k) == old(GetMetadata(k))
      ensures Cancelled == old(Cancelled) && Priority == old(Priority)
    {
      Metadata := Metadata[key := value];
    }

    /** The value under key, or None (Go's `(nil, false)`). */
    function GetMetadata(key: string): (r: Option<Payload>)
      reads this
      ensures r.Some? <==> key in Metadata
      ensures r.Some? ==> r.value == Metadata[key]
    {
      if key in Metadata then Some(Metadata[key]) else None
    }
  }

  /** Go `EventListener` (held by pointer in Go; only its fields are ever consulted). */
  datatype EventListener = EventListener(ID: string, Handler: HandlerId, Priority: int, Once: bool)

  // ---------------------------------------------------------------- ids

  /**
   * `string(rune(n))` for the uint64 counter: the low 32 bits as a signed rune, and U+FFFD
   * for anything that is not a Unicode scalar value (negative, a surrogate, beyond U+10FFFF).
   */
  function RuneId(n: nat): (id: string)
    ensures |id| == 1
    ensures n < 0xD800 ==> id[0] as int == n
  {
    var r := n % 0x1_0000_0000;
    if r < 0xD800 || (0xE000 <= r <= 0x10FFFF) then [r as char] else ['�']
  }

  /** Counter values below the surrogates give pairwise different ids. */
  lemma RuneIdDistinct(a: nat, b: nat)
    requires a < 0xD800 && b < 0xD800 && a != b
    ensures RuneId(a) != RuneId(b)
  {
    assert RuneId(a)[0] != RuneId(b)[0];
  }

  /** The first surrogate counter value already repeats the id of counter 0xFFFD. */
  lemma RuneIdCollides()
    ensures RuneId(0xD800) == RuneId(0xFFFD)
    ensures RuneId(0x1_0000_0000 + 7) == RuneId(7)
  {
  }

  // ---------------------------------------------------------------- listener lists

  /** The index of the first listener with this id, if any. */
  function FindListener(ls: seq<EventListener>, id: string): (r: Option<nat>)
    ensures r.Some? ==> r.value < |ls| && ls[r.value].ID == id
    ensures r.Some? ==> forall k :: 0 <= k < r.value ==> ls[k].ID != id
    ensures r.None? <==> forall k :: 0 <= k < |ls| ==> ls[k].ID != id
  {
    if ls == [] then None
    else if ls[0].ID == id then Some(0)
    else match FindListener(ls[1..], id)
      case None => None
      case Some(k) => Some(k + 1)
  }

  /** The list without its first listener of this id; unchanged when there is none. */
  function RemoveById(ls: seq<EventListener>, id: string): seq<EventListener>
  {
    match FindListener(ls, id)
    case None => ls
    case Some(k) => Seqs.RemoveAt(ls, k)
  }

  /** RemoveById for each id in turn. */
  function RemoveIds(ls: seq<EventListener>, ids: seq<string>): seq<EventListener>
  {
    if ids == [] then ls else RemoveById(RemoveIds(ls, ids[..|ids| - 1]), ids[|ids| - 1])
  }

  /** Removing the first k + 1 ids is removing the first k, then the next one. */
  lemma RemoveIdsStep(ls: seq<EventListener>, ids: seq<string>, k: nat)
    requires k < |ids|
    ensures RemoveIds(ls, ids[..k + 1]) == RemoveById(RemoveIds(ls, ids[..k]), ids[k])
  {
    assert ids[..k + 1][..k] == ids[..k];
  }

  /** No two listeners share an id. */
  predicate UniqueListenerIds(ls: seq<EventListener>)
  {
    forall i, j :: 0 <= i < j < |ls| ==> ls[i].ID != ls[j].ID
  }

  /** RemoveById takes one listener away exactly when one has the id, and adds none. */
  lemma RemoveByIdShrinks(ls: seq<EventListener>, id: string)
    ensures |RemoveById(ls, id)| == if FindListener(ls, id).Some? then |ls| - 1 else |ls|
    ensures forall l :: l in RemoveById(ls, id) ==> l in ls
    ensures UniqueListenerIds(ls) ==> UniqueListenerIds(RemoveById(ls, id))
    ensures UniqueListenerIds(ls) ==> forall l :: l in RemoveById(ls, id) ==> l.ID != id
  {
    match FindListener(ls, id)
    case None =>
    case Some(k) =>
      var r := Seqs.RemoveAt(ls, k);
      forall l | l in r ensures l in ls {
        var m :| 0 <= m < |r| && r[m] == l;
        if m >= k { assert r[m] == ls[m + 1]; }
      }
      if UniqueListenerIds(ls) {
        forall a, b | 0 <= a < b < |r| ensures r[a].ID != r[b].ID {
          var a' := if a < k then a else a + 1;
          var b' := if b < k then b else b + 1;
          assert r[a] == ls[a'] && r[b] == ls[b'];
        }
        forall l | l in r ensures l.ID != id {
          var m :| 0 <= m < |r| && r[m] == l;
          if m >= k { assert r[m] == ls[m + 1]; }
        }
      }
  }

  /**
   * Removing a list of ids from a list with unique ids leaves no listener with any of them,
   * and only listeners that were there.
   */
  lemma {:induction false} RemoveIdsGone(ls: seq<EventListener>, ids: seq<string>)
    requires UniqueListenerIds(ls)
    ensures UniqueListenerIds(RemoveIds(ls, ids))
    ensures forall l :: l in RemoveIds(ls, ids) ==> l in ls && l.ID !in ids
  {
    if ids != [] {
      var front := ids[..|ids| - 1];
      var last := ids[|ids| - 1];
      RemoveIdsGone(ls, front);
      RemoveByIdShrinks(RemoveIds(ls, front), last);
      assert ids == front + [last];
    }
  }

  // ---------------------------------------------------------------- sorting

  /** Non-increasing priority. */
  predicate SortedDesc(s: seq<EventListener>)
  {
    forall i, j :: 0 <= i < j < |s| ==> s[i].Priority >= s[j].Priority
  }

  /** The listeners of priority p, in their order in s. */
  function Run(s: seq<EventListener>, p: int): (r: seq<EventListener>)
    ensures |r| <= |s|
  {
    if s == [] then []
    else Run(s[..|s| - 1], p) + (if s[|s| - 1].Priority == p then [s[|s| - 1]] else [])
  }

  lemma {:induction false} RunAppend(a: seq<EventListener>, b: seq<EventListener>, p: int)
    ensures Run(a + b, p) == Run(a, p) + Run(b, p)
  {
    if b == [] {
      assert a + b == a;
    } else {
      var b' := b[..|b| - 1];
      assert (a + b)[..|a + b| - 1] == a + b';
      assert (a + b)[|a + b| - 1] == b[|b| - 1];
      RunAppend(a, b', p);
    }
  }

  /** Two adjacent listeners of different priorities exchanged. */
  function Swap(s: seq<EventListener>, j: nat): (r: seq<EventListener>)
    requires j + 1 < |s|
    ensures |r| == |s|
  {
    s[j := s[j + 1]][j + 1 := s[j]]
  }

  /** Two listeners of different priorities never fall into the same run. */
  lemma RunPair(x: EventListener, y: EventListener, p: int)
    requires x.Priority != y.Priority
    ensures Run([x, y], p) == Run([y, x], p)
  {
    assert [x, y][..1] == [x] && [y, x][..1] == [y];
    assert [x][..0] == [] && [y][..0] == [];
  }

  /** Exchanging neighbours of different priorities leaves the run of p as it was. */
  lemma SwapKeepsRun(s: seq<EventListener>, j: nat, p: int)
    requires j + 1 < |s| && s[j].Priority != s[j + 1].Priority
    ensures Run(Swap(s, j), p) == Run(s, p)
  {
    var pre, x, y, post := s[..j], s[j], s[j + 1], s[j + 2..];
    var xy, yx := pre + [x, y], pre + [y, x];
    assert s == xy + post;
    assert Swap(s, j) == yx + post;
    RunAppend(xy, post, p);
    RunAppend(yx, post, p);
    RunAppend(pre, [x, y], p);
    RunAppend(pre, [y, x], p);
    RunPair(x, y, p);
  }

  /** Exchanging neighbours of different priorities changes no run, nor the multiset. */
  lemma SwapKeepsRuns(s: seq<EventListener>, j: nat)
    requires j + 1 < |s| && s[j].Priority != s[j + 1].Priority
    ensures multiset(Swap(s, j)) == multiset(s)
    ensures forall p :: Run(Swap(s, j), p) == Run(s, p)
  {
    var s1 := s[j := s[j + 1]];
    assert multiset(s1) == multiset(s) - multiset{s[j]} + multiset{s[j + 1]};
    assert multiset(s1[j + 1 := s[j]]) == multiset(s1) - multiset{s[j + 1]} + multiset{s[j]};
    forall p ensures Run(Swap(s, j), p) == Run(s, p) {
      SwapKeepsRun(s, j, p);
    }
  }

  /** Every listener before k has at least the priority of every listener from k on. */
  predicate Partitioned(s: seq<EventListener>, k: nat)
  {
    forall x, y :: 0 <= x < k <= y < |s| ==> s[x].Priority >= s[y].Priority
  }

  /** The listeners from k on are in non-increasing priority. */
  predicate SortedFrom(s: seq<EventListener>, k: nat)
  {
    forall x, y :: k <= x < y < |s| ==> s[x].Priority >= s[y].Priority
  }

  /** A swap inside the first k places keeps both the partition at k and the sorted tail. */
  lemma SwapKeepsPartition(s: seq<EventListener>, j: nat, k: nat)
    requires j + 1 < k <= |s|
    requires Partitioned(s, k) && SortedFrom(s, k)
    ensures Partitioned(Swap(s, j), k) && SortedFrom(Swap(s, j), k)
  {
    var r := Swap(s, j);
    forall x, y | 0 <= x < k <= y < |r| ensures r[x].Priority >= r[y].Priority {
      assert r[y] == s[y];
      assert r[x] == s[x] || r[x] == s[j] || r[x] == s[j + 1];
    }
    forall x, y | k <= x < y < |r| ensures r[x].Priority >= r[y].Priority {
      assert r[x] == s[x] && r[y] == s[y];
    }
  }

  /** Same listeners, and the same order within each priority. */
  ghost predicate SameRuns(s: seq<EventListener>, t: seq<EventListener>)
  {
    multiset(s) == multiset(t) && forall p :: Run(s, p) == Run(t, p)
  }

  lemma SameRunsTrans(a: seq<EventListener>, b: seq<EventListener>, c: seq<EventListener>)
    requires SameRuns(a, b) && SameRuns(b, c)
    ensures SameRuns(a, c)
  {
  }

  /** The first len places are partitioned off from a sorted tail. */
  predicate TailReady(s: seq<EventListener>, len: nat)
  {
    Partitioned(s, len) && SortedFrom(s, len)
  }

  /** No listener before j has lower priority than the one at j. */
  predicate LowestAt(s: seq<EventListener>, j: nat)
    requires j < |s|
  {
    forall k :: 0 <= k < j ==> s[k].Priority >= s[j].Priority
  }

  /** One compare-and-swap step of a pass keeps the pass invariant for the next place. */
  lemma PassStep(s: seq<EventListener>, j: nat, len: nat, orig: seq<EventListener>)
    requires j + 1 < len <= |s|
    requires LowestAt(s, j) && TailReady(s, len) && SameRuns(s, orig)
    ensures var r := if s[j].Priority < s[j + 1].Priority then Swap(s, j) else s;
            LowestAt(r, j + 1) && TailReady(r, len) && SameRuns(r, orig)
  {
    if s[j].Priority < s[j + 1].Priority {
      SwapKeepsRuns(s, j);
      SwapKeepsPartition(s, j, len);
    }
  }

  /**
   * One pass of the bubble sort over the first len places: each lower-priority listener is
   * carried right past higher-priority ones, so the last of those places ends up holding a
   * lowest priority among them. The places from len on are left alone.
   */
  method BubblePass(a: array<EventListener>, len: nat)
    requires 0 < len <= a.Length
    requires TailReady(a[..], len)
    modifies a
    ensures TailReady(a[..], len) && LowestAt(a[..], len - 1)
    ensures SameRuns(a[..], old(a[..]))
  {
    var j := 0;
    while j < len - 1
      invariant 0 <= j <= len - 1
      invariant LowestAt(a[..], j) && TailReady(a[..], len) && SameRuns(a[..], old(a[..]))
    {
      PassStep(a[..], j, len, old(a[..]));
      CompareSwap(a, j);
      j := j + 1;
    }
  }

  /** Swaps the neighbours at j and j + 1 when the left one has strictly lower priority. */
  method CompareSwap(a: array<EventListener>, j: nat)
    requires j + 1 < a.Length
    modifies a
    ensures a[..] == if old(a[j].Priority < a[j + 1].Priority) then Swap(old(a[..]), j) else old(a[..])
  {
    if a[j].Priority < a[j + 1].Priority {
      a[j], a[j + 1] := a[j + 1], a[j];
    }
  }

  /** The pass's lowest listener joins the sorted tail. */
  lemma GrowTail(s: seq<EventListener>, len: nat)
    requires 0 < len <= |s|
    requires TailReady(s, len) && LowestAt(s, len - 1)
    ensures TailReady(s, len - 1)
  {
  }

  /**
   * Go `sortListenersByPriority`: bubble sort that swaps neighbours only when the left one has
   * strictly lower priority. The result is in non-increasing priority, a permutation of the
   * input, and stable: the listeners of each priority keep their relative order.
   */
  method SortListenersByPriority(a: array<EventListener>)
    modifies a
    ensures SortedDesc(a[..])
    ensures multiset(a[..]) == multiset(old(a[..]))
    ensures forall p :: Run(a[..], p) == Run(old(a[..]), p)
  {
    var n := a.Length;
    var i := 0;
    while i < n - 1
      invariant 0 <= i <= n
      invariant TailReady(a[..], n - i) && SameRuns(a[..], old(a[..]))
    {
      ghost var before := a[..];
      BubblePass(a, n - i);
      GrowTail(a[..], n - i);
      SameRunsTrans(a[..], before, old(a[..]));
      i := i + 1;
    }
    assert n > 0 ==> SortedFrom(a[..], 0);
  }

  // ---------------------------------------------------------------- dispatch

  /**
   * How many listeners of s get called when handlers in `cancelling` cancel the event: all
   * up to and including the first cancelling one, or all of them.
   */
  function Reached(s: seq<EventListener>, cancelling: set<HandlerId>): (n: nat)
    ensures n <= |s|
    ensures forall k :: 0 <= k < n - 1 ==> s[k].Handler !in cancelling
    ensures n < |s| ==> 0 < n && s[n - 1].Handler in cancelling
    ensures s != [] ==> 0 < n
  {
    if s == [] then 0
    else if s[0].Handler in cancelling then 1
    else 1 + Reached(s[1..], cancelling)
  }

  /** The ids of the one-shot listeners of s, in order. */
  function OnceIds(s: seq<EventListener>): (ids: seq<string>)
    ensures forall id :: id in ids <==> exists l :: l in s && l.Once && l.ID == id
  {
    if s == [] then []
    else OnceIds(s[..|s| - 1]) + (if s[|s| - 1].Once then [s[|s| - 1].ID] else [])
  }

  /**
   * The call loop of `processEvent`: calls the listeners of order in turn, checking for
   * cancellation before each call, and collects the ids of the one-shot listeners it called.
   */
  method Dispatch(order: seq<EventListener>, event: Event, cancelling: set<HandlerId>)
    returns (called: seq<EventListener>, onceIds: seq<string>)
    modifies event
    ensures called == if old(event.Cancelled) then [] else order[..Reached(order, cancelling)]
    ensures onceIds == OnceIds(called)
    ensures event.Cancelled <==> old(event.Cancelled) || (exists l :: l in called && l.Handler in cancelling)
    ensures event.Metadata == old(event.Metadata) && event.Priority == old(event.Priority)
  {
    ghost var reach := if event.Cancelled then 0 else Reached(order, cancelling);
    onceIds := [];
    called := [];
    var i := 0;
    while i < |order|
      invariant 0 <= i <= reach
      invariant called == order[..i] && onceIds == OnceIds(called)
      invariant event.Cancelled <==> old(event.Cancelled) || (0 < i && order[i - 1].Handler in cancelling)
      invariant event.Metadata == old(event.Metadata) && event.Priority == old(event.Priority)
      invariant forall l :: l in called && l.Handler in cancelling ==> l == order[i - 1]
    {
      if event.Cancelled {
        break;
      }
      var l := order[i];
      assert order[..i + 1] == called + [l];
      called := called + [l];
      if l.Handler in cancelling {
        event.Cancel();
      }
      if l.Once {
        onceIds := onceIds + [l.ID];
      }
      i := i + 1;
    }
    assert i == reach;
  }

  /**
   * The copy that `processEvent` iterates over: the listeners copied into a fresh slice and
   * sorted there by priority, so the registered list itself keeps its order.
   */
  method SortedCopy(ls: seq<EventListener>) returns (order: seq<EventListener>)
    ensures |order| == |ls|
    ensures SortedDesc(order) && multiset(order) == multiset(ls)
    ensures forall p :: Run(order, p) == Run(ls, p)
  {
    var arr := new EventListener[|ls|](k requires 0 <= k < |ls| => ls[k]);
    assert arr[..] == ls;
    SortListenersByPriority(arr);
    order := arr[..];
  }

  /** Go `EventBus`, without its workers, its lock and its wait group. */
  class EventBus {
    var listeners: map<EventType, seq<EventListener>>
    var queue: seq<Event>
    const queueSize: nat
    const workerNum: nat
    var running: bool
    /** Whether Stop has closed the queue channel; a Go channel cannot be reopened. */
    var closed: bool
    var nextID: nat

    /**
     * `NewEventBus`: at least one worker, no listeners, not running, counter 0. Making a
     * channel of negative capacity panics in Go, hence the precondition.
     */
    constructor (queueSize: int, workerNum: int)
      requires queueSize >= 0
      ensures listeners == map[] && queue == [] && !running && !closed && nextID == 0
      ensures this.queueSize == queueSize
      ensures this.workerNum == if workerNum <= 0 then 1 else workerNum
    {
      listeners := map[];
      queue := [];
      this.queueSize := queueSize;
      this.workerNum := if workerNum <= 0 then 1 else workerNum;
      running := false;
      closed := false;
      nextID := 0;
    }

    /** The listeners of t; none when t has no entry. */
    function ListenersOf(t: EventType): seq<EventListener>
      reads this
    {
      if t in listeners then listeners[t] else []
    }

    /**
     * Sets the running flag (the workers it starts are not modelled). A closed queue stays
     * closed, so a bus restarted after Stop runs on a closed channel.
     */
    method Start()
      modifies this
      ensures running && closed == old(closed)
      ensures listeners == old(listeners) && queue == old(queue) && nextID == old(nextID)
    {
      if running {
        return;
      }
      running := true;
    }

    /**
     * Clears the running flag of a running bus and closes its queue (joining the workers is
     * not modelled); a stopped bus is left alone. Closing a closed channel panics in Go,
     * hence the precondition: a restarted bus cannot be stopped again.
     */
    method Stop()
      requires running ==> !closed
      modifies this
      ensures !running
      ensures closed <==> old(running) || old(closed)
      ensures listeners == old(listeners) && queue == old(queue) && nextID == old(nextID)
    {
      if !running {
        return;
      }
      running := false;
      closed := true;
    }

    /** Advances the counter and returns its one-rune string. */
    method GenerateID() returns (id: string)
      modifies this
      ensures nextID == old(nextID) + 1 && id == RuneId(nextID)
      ensures listeners == old(listeners) && queue == old(queue) && running == old(running) && closed == old(closed)
    {
      nextID := nextID + 1;
      id := RuneId(nextID);
    }

    /** Appends one listener of the given priority, not one-shot, and returns its id. */
    method SubscribeWithPriority(t: EventType, handler: HandlerId, priority: int) returns (id: string)
      modifies this
      ensures nextID == old(nextID) + 1 && id == RuneId(nextID)
      ensures listeners == old(listeners)[t := old(ListenersOf(t)) + [EventListener(id, handler, priority, false)]]
      ensures ListenerCount(t) == old(ListenerCount(t)) + 1 && HasListeners(t)
      ensures queue == old(queue) && running == old(running) && closed == old(closed)
    {
      id := GenerateID();
      listeners := listeners[t := ListenersOf(t) + [EventListener(id, handler, priority, false)]];
    }

    /** Subscribe at priority 0. */
    method Subscribe(t: EventType, handler: HandlerId) returns (id: string)
      modifies this
      ensures nextID == old(nextID) + 1 && id == RuneId(nextID)
      ensures listeners == old(listeners)[t := old(ListenersOf(t)) + [EventListener(id, handler, 0, false)]]
      ensures ListenerCount(t) == old(ListenerCount(t)) + 1
      ensures queue == old(queue) && running == old(running) && closed == old(closed)
    {
      id := SubscribeWithPriority(t, handler, 0);
    }

    /** Appends one one-shot listener of priority 0 and returns its id. */
    method SubscribeOnce(t: EventType, handler: HandlerId) returns (id: string)
      modifies this
      ensures nextID == old(nextID) + 1 && id == RuneId(nextID)
      ensures listeners == old(listeners)[t := old(ListenersOf(t)) + [EventListener(id, handler, 0, true)]]
      ensures ListenerCount(t) == old(ListenerCount(t)) + 1
      ensures queue == old(queue) && running == old(running) && closed == old(closed)
    {
      id := GenerateID();
      listeners := listeners[t := ListenersOf(t) + [EventListener(id, handler, 0, true)]];
    }

    /**
     * Go `removeListenerByID`: splices out the first listener of t with that id. An unknown
     * type or id changes nothing, and no entry is created for an unknown type.
     */
    method RemoveListenerByID(t: EventType, id: string)
      modifies this
      ensures t !in old(listeners) ==> listeners == old(listeners)
      ensures t in old(listeners) ==> listeners == old(listeners)[t := RemoveById(old(listeners)[t], id)]
      ensures queue == old(queue) && running == old(running) && closed == old(closed) && nextID == old(nextID)
    {
      if t !in listeners {
        return;
      }
      var ls := listeners[t];
      var i := 0;
      while i < |ls|
        invariant 0 <= i <= |ls| && listeners == old(listeners)
        invariant forall k :: 0 <= k < i ==> ls[k].ID != id
      {
        if ls[i].ID == id {
          assert FindListener(ls, id) == Some(i);
          listeners := listeners[t := ls[..i] + ls[i + 1..]];
          return;
        }
        i := i + 1;
      }
      assert listeners == old(listeners)[t := ls];
    }

    method Unsubscribe(t: EventType, id: string)
      modifies this
      ensures t !in old(listeners) ==> listeners == old(listeners)
      ensures t in old(listeners) ==> listeners == old(listeners)[t := RemoveById(old(listeners)[t], id)]
      ensures ListenerCount(t) == old(ListenerCount(t)) - (if FindListener(old(ListenersOf(t)), id).Some? then 1 else 0)
      ensures queue == old(queue) && running == old(running) && closed == old(closed) && nextID == old(nextID)
    {
      if t in listeners {
        RemoveByIdShrinks(listeners[t], id);
      }
      RemoveListenerByID(t, id);
    }

    /** Drops the entry of t; the other types keep theirs. */
    method UnsubscribeAll(t: EventType)
      modifies this
      ensures listeners == old(listeners) - {t}
      ensures !HasListeners(t) && ListenerCount(t) == 0
      ensures queue == old(queue) && running == old(running) && closed == old(closed) && nextID == old(nextID)
    {
      listeners := listeners - {t};
    }

    /** Whether t has a non-empty list; an entry emptied by removals counts as none. */
    function HasListeners(t: EventType): (b: bool)
      reads this
      ensures b <==> ListenerCount(t) > 0
    {
      t in listeners && |listeners[t]| > 0
    }

    /** The length of t's list, 0 without an entry. */
    function ListenerCount(t: EventType): (n: nat)
      reads this
      ensures n == |ListenersOf(t)|
      ensures t !in listeners ==> n == 0
    {
      if t !in listeners then 0 else |listeners[t]|
    }

    /** Removes every listener of every type; the counter is not reset. */
    method Clear()
      modifies this
      ensures listeners == map[]
      ensures forall t :: !HasListeners(t)
      ensures queue == old(queue) && running == old(running) && closed == old(closed) && nextID == old(nextID)
    {
      listeners := map[];
    }

    /**
     * Queues the event when the bus runs and the queue has room; otherwise drops it. The
     * workers that drain the queue are not modelled. Sending on a closed channel panics in
     * Go, even under `select` with a default, hence the precondition for a running bus.
     */
    method Emit(event: Event) returns (queued: bool)
      requires running ==> !closed
      modifies this
      ensures queued <==> old(running) && |old(queue)| < queueSize
      ensures queue == if queued then old(queue) + [event] else old(queue)
      ensures listeners == old(listeners) && running == old(running) && closed == old(closed) && nextID == old(nextID)
    {
      if !running {
        return false;
      }
      if |queue| < queueSize {
        queue := queue + [event];
        return true;
      }
      return false;
    }

    /** The removal loop of `processEvent`: each id in turn, under one event type. */
    method RemoveListenersByIDs(t: EventType, ids: seq<string>)
      requires t in listeners
      modifies this
      ensures listeners == old(listeners)[t := RemoveIds(old(listeners)[t], ids)]
      ensures queue == old(queue) && running == old(running) && closed == old(closed) && nextID == old(nextID)
    {
      var ls := listeners[t];
      var k := 0;
      while k < |ids|
        invariant 0 <= k <= |ids| && t in listeners
        invariant listeners == old(listeners)[t := RemoveIds(ls, ids[..k])]
        invariant queue == old(queue) && running == old(running) && closed == old(closed) && nextID == old(nextID)
      {
        ghost var cur := RemoveIds(ls, ids[..k]);
        RemoveListenerByID(t, ids[k]);
        RemoveIdsStep(ls, ids, k);
        Seqs.UpdateTwice(old(listeners), t, cur, RemoveById(cur, ids[k]));
        k := k + 1;
      }
      assert ids[..k] == ids;
    }

    /**
     * Go `processEvent` (and `EmitSync`): sorts a copy of the event type's listeners, calls
     * them in that order until the event is cancelled, then removes the one-shot listeners
     * that were called. A handler's only modelled effect is cancelling the event, which the
     * handlers in `cancelling` do.
     */
    method ProcessEvent(event: Event, cancelling: set<HandlerId>)
      returns (order: seq<EventListener>, called: seq<EventListener>)
      modifies this, event
      ensures order == [] <==> old(ListenersOf(event.Type)) == []
      ensures SortedDesc(order) && multiset(order) == multiset(old(ListenersOf(event.Type)))
      ensures forall p :: Run(order, p) == Run(old(ListenersOf(event.Type)), p)
      ensures called == if old(event.Cancelled) then [] else order[..Reached(order, cancelling)]
      ensures event.Cancelled <==> old(event.Cancelled) || (exists l :: l in called && l.Handler in cancelling)
      ensures event.Metadata == old(event.Metadata) && event.Priority == old(event.Priority)
      ensures old(ListenersOf(event.Type)) == [] ==> listeners == old(listeners)
      ensures old(ListenersOf(event.Type)) != [] ==>
        listeners == old(listeners)[event.Type := RemoveIds(old(listeners)[event.Type], OnceIds(called))]
      ensures old(UniqueListenerIds(ListenersOf(event.Type))) ==>
        forall l :: l in ListenersOf(event.Type) ==> !(l in called && l.Once)
      ensures queue == old(queue) && running == old(running) && closed == old(closed) && nextID == old(nextID)
    {
      var t := event.Type;
      if t !in listeners || |listeners[t]| == 0 {
        return [], [];
      }
      var ls := listeners[t];
      order := SortedCopy(ls);
      var toRemove;
      called, toRemove := Dispatch(order, event, cancelling);
      if |toRemove| > 0 {
        RemoveListenersByIDs(t, toRemove);
      }
      if UniqueListenerIds(ls) {
        RemoveIdsGone(ls, toRemove);
      }
    }

    /** Dispatches the event on the calling thread: exactly ProcessEvent. */
    method EmitSync(event: Event, cancelling: set<HandlerId>) returns (order: seq<EventListener>, called: seq<EventListener>)
      modifies this, event
      ensures order == [] <==> old(ListenersOf(event.Type)) == []
      ensures SortedDesc(order) && multiset(order) == multiset(old(ListenersOf(event.Type)))
      ensures forall p :: Run(order, p) == Run(old(ListenersOf(event.Type)), p)
      ensures called == if old(event.Cancelled) then [] else order[..Reached(order, cancelling)]
      ensures event.Cancelled <==> old(event.Cancelled) || (exists l :: l in called && l.Handler in cancelling)
      ensures event.Metadata == old(event.Metadata) && event.Priority == old(event.Priority)
      ensures old(ListenersOf(event.Type)) == [] ==> listeners == old(listeners)
      ensures old(ListenersOf(event.Type)) != [] ==>
        listeners == old(listeners)[event.Type := RemoveIds(old(listeners)[event.Type], OnceIds(called))]
      ensures old(UniqueListenerIds(ListenersOf(event.Type))) ==>
        forall l :: l in ListenersOf(event.Type) ==> !(l in called && l.Once)
      ensures queue == old(queue) && running == old(running) && closed == old(closed) && nextID == old(nextID)
    {
      order, called := ProcessEvent(event, cancelling);
    }
  }
}
