/** mcp_code_indexer/events.py: the event bus subscriber registry. Callbacks
    are opaque values compared with `==`, as Python's list membership does. */
module Events {
  import opened Wrappers
  import opened PyValue
  import CommonUtils

  datatype EventType =
    | IndexingStarted | IndexingProgress | IndexingCompleted | IndexingFailed
    | SearchStarted | SearchCompleted | SearchFailed
    | SystemReady | SystemError | SystemShutdown
    | ComponentInitialized | ComponentError
  {
    /** The enum member's string value. */
    function Value(): string {
      match this
      case IndexingStarted => "indexing_started"
      case IndexingProgress => "indexing_progress"
      case IndexingCompleted => "indexing_completed"
      case IndexingFailed => "indexing_failed"
      case SearchStarted => "search_started"
      case SearchCompleted => "search_completed"
      case SearchFailed => "search_failed"
      case SystemReady => "system_ready"
      case SystemError => "system_error"
      case SystemShutdown => "system_shutdown"
      case ComponentInitialized => "component_initialized"
      case ComponentError => "component_error"
    }
  }

  /** An event; the creation timestamp is left out. */
  datatype Event = Event(eventType: EventType, data: Value, source: Option<string>)

  /** The subscribers of `t`, or none when the type has no entry. */
  function SubscribersOf<C>(subs: map<EventType, seq<C>>, t: EventType): seq<C> {
    if t in subs then subs[t] else []
  }

  class EventBus<C(==, !new)> {
    var subscribers: map<EventType, seq<C>>

    /** No event type lists a callback twice. */
    ghost predicate Valid()
      reads this
    {
      forall t :: t in subscribers ==> NoDups(subscribers[t])
    }

    /** `__init__` on a fresh instance. */
    constructor ()
      ensures Valid() && subscribers == map[]
    {
      subscribers := map[];
    }

    /** `subscribe`: the callback is appended unless already present; the
        type gets an (empty) entry in any case; other types are untouched. */
    method Subscribe(t: EventType, callback: C)
      requires Valid()
      modifies this
      ensures Valid()
      ensures t in subscribers
      ensures callback in SubscribersOf(old(subscribers), t) ==> subscribers[t] == old(subscribers)[t]
      ensures callback !in SubscribersOf(old(subscribers), t) ==> subscribers[t] == SubscribersOf(old(subscribers), t) + [callback]
      ensures forall u :: u != t ==> (u in subscribers <==> u in old(subscribers))
      ensures forall u :: u != t && u in subscribers ==> subscribers[u] == old(subscribers)[u]
    {
      if t !in subscribers {
        subscribers := subscribers[t := []];
      }
      if callback !in subscribers[t] {
        var l := subscribers[t] + [callback];
        assert NoDups(l) by {
          forall i, j | 0 <= i < j < |l| ensures l[i] != l[j] {
            if j == |l| - 1 { assert l[i] in subscribers[t]; }
          }
        }
        subscribers := subscribers[t := l];
      }
    }

    /** `unsubscribe`: removes the callback when listed, otherwise a no-op. */
    method Unsubscribe(t: EventType, callback: C)
      requires Valid()
      modifies this
      ensures Valid()
      ensures callback !in SubscribersOf(old(subscribers), t) ==> subscribers == old(subscribers)
      ensures callback in SubscribersOf(old(subscribers), t) ==>
                subscribers == old(subscribers)[t := CommonUtils.RemoveFirst(old(subscribers)[t], callback)]
      ensures callback !in SubscribersOf(subscribers, t)
    {
      if t in subscribers && callback in subscribers[t] {
        var l := CommonUtils.RemoveFirst(subscribers[t], callback);
        subscribers := subscribers[t := l];
      }
    }

    /** `publish`: every subscriber of the event's type is called, in
        subscription order; `raises` tells which calls raise, and those are
        logged and skipped over rather than stopping the loop, so every
        subscriber is called. Returns the callbacks called and the ones that
        raised. */
    method Publish(event: Event, raises: C -> bool) returns (called: seq<C>, failed: seq<C>)
      ensures called == SubscribersOf(subscribers, event.eventType)
      ensures failed == Raising(called, raises)
      ensures event.eventType !in subscribers ==> called == [] && failed == []
    {
      called, failed := [], [];
      if event.eventType !in subscribers {
        return;
      }
      var callbacks := subscribers[event.eventType];
      for i := 0 to |callbacks|
        invariant called == callbacks[..i]
        invariant failed == Raising(called, raises)
      {
        var callback := callbacks[i];
        RaisingAppend(called, callback, raises);
        called := called + [callback];
        if raises(callback) {
          failed := failed + [callback];
        }
      }
      assert callbacks[..|callbacks|] == callbacks;
    }
  }

  /** The callbacks of `cs`, in order, for which `raises` holds. */
  function Raising<C(!new)>(cs: seq<C>, raises: C -> bool): (r: seq<C>)
    ensures |r| <= |cs|
    ensures forall c :: c in r <==> c in cs && raises(c)
  {
    if cs == [] then []
    else Raising(cs[..|cs| - 1], raises) + (if raises(cs[|cs| - 1]) then [cs[|cs| - 1]] else [])
  }

  lemma RaisingAppend<C(!new)>(cs: seq<C>, c: C, raises: C -> bool)
    ensures Raising(cs + [c], raises) == Raising(cs, raises) + (if raises(c) then [c] else [])
  {
    assert (cs + [c])[..|cs|] == cs;
  }

  /** `EventBus()`: the class holds at most one instance. The first call makes
      it with an empty registry; every later call returns that same object
      without resetting its subscribers. */
  class EventBusClass<C(==, !new)> {
    var instance: EventBus?<C>

    constructor ()
      ensures instance == null
    {
      instance := null;
    }

    method New() returns (bus: EventBus<C>)
      modifies this
      ensures old(instance) != null ==> bus == old(instance)
      ensures old(instance) == null ==> fresh(bus) && bus.subscribers == map[] && bus.Valid()
      ensures instance == bus
    {
      if instance == null {
        instance := new EventBus();
      }
      bus := instance;
    }
  }
}
