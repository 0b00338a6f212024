/**
  The in-memory subscription registry of the event bus: a table from event
  type to the ordered, duplicate-free list of handler types registered for it.

  The C# class keeps a `Dictionary<Type, List<Type>>`. Lookups by name go
  through `Keys.FirstOrDefault`, so the order in which keys enumerate matters
  when two event types share a simple name; a dictionary that is never
  removed from enumerates in insertion order, which `order` records.
 */
module Subscriptions {
  import opened Wrappers

  /** A `System.Type`: its identity (full name) and its simple `Name`. */
  datatype TypeRef = TypeRef(fullName: string, name: string)

  datatype Registry = Registry(order: seq<TypeRef>, handlers: map<TypeRef, seq<TypeRef>>)

  predicate Distinct<X(==)>(s: seq<X>)
  {
    forall i, j :: 0 <= i < j < |s| ==> s[i] != s[j]
  }

  /** Representation invariant: `order` lists each key once, and no handler list has a duplicate. */
  predicate Valid(r: Registry)
  {
    && Distinct(r.order)
    && (forall t :: t in r.order ==> t in r.handlers)
    && (forall t :: t in r.handlers ==> t in r.order)
    && (forall t :: t in r.handlers ==> Distinct(r.handlers[t]))
  }

  /** The registry of a freshly constructed manager. */
  function Empty(): (r: Registry)
    ensures Valid(r)
    ensures forall t :: t !in r.handlers
  {
    Registry([], map[])
  }

  /** Whether `handlerType` is registered for `eventType`. */
  predicate Subscribed(r: Registry, eventType: TypeRef, handlerType: TypeRef)
  {
    eventType in r.handlers && handlerType in r.handlers[eventType]
  }

  /**
    `AddSubscription<T, TH>()`: make `T` a key if it is not one, then append
    `TH` to its list unless it is already there.
   */
  function AddSubscription(r: Registry, eventType: TypeRef, handlerType: TypeRef): (r': Registry)
    requires Valid(r)
    ensures Valid(r')
    ensures Subscribed(r', eventType, handlerType)
    ensures Subscribed(r, eventType, handlerType) ==> r' == r
    ensures !Subscribed(r, eventType, handlerType) ==>
      r'.handlers[eventType] == (if eventType in r.handlers then r.handlers[eventType] else []) + [handlerType]
    ensures r'.handlers.Keys == r.handlers.Keys + {eventType}
    ensures r'.order == if eventType in r.handlers then r.order else r.order + [eventType]
    ensures forall t :: t in r.handlers && t != eventType ==> r'.handlers[t] == r.handlers[t]
  {
    var withKey :=
      if eventType in r.handlers then r
      else Registry(r.order + [eventType], r.handlers[eventType := []]);
    if handlerType in withKey.handlers[eventType] then withKey
    else withKey.(handlers := withKey.handlers[eventType := withKey.handlers[eventType] + [handlerType]])
  }

  /** Adding the same pair twice leaves the registry exactly as after one add. */
  lemma AddSubscriptionIdempotent(r: Registry, eventType: TypeRef, handlerType: TypeRef)
    requires Valid(r)
    ensures AddSubscription(AddSubscription(r, eventType, handlerType), eventType, handlerType)
         == AddSubscription(r, eventType, handlerType)
  {
  }

  /** Nothing is ever removed: every key stays, and every handler list only grows at its end. */
  lemma AddSubscriptionOnlyGrows(r: Registry, eventType: TypeRef, handlerType: TypeRef)
    requires Valid(r)
    ensures var r' := AddSubscription(r, eventType, handlerType);
      && r.order <= r'.order
      && forall t :: t in r.handlers ==> t in r'.handlers && r.handlers[t] <= r'.handlers[t]
  {
  }

  /**
    `GetEventKey<T>(T? @event)`: the simple name of the static type argument.
    The argument itself is never inspected.
   */
  function GetEventKey<V>(staticType: TypeRef, event: Option<V>): (key: string)
    ensures key == staticType.name
  {
    staticType.name
  }

  /** The key does not depend on the event passed, not even on whether it is null. */
  lemma EventKeyIgnoresArgument<V>(staticType: TypeRef, e1: Option<V>, e2: Option<V>)
    ensures GetEventKey(staticType, e1) == GetEventKey(staticType, e2)
    ensures GetEventKey(staticType, e1) == GetEventKey<V>(staticType, None)
  {
  }

  /** Index of the first type in `s` whose simple name is `name`. */
  function FirstNamed(s: seq<TypeRef>, name: string): (i: Option<nat>)
    ensures i.Some? ==> i.value < |s| && s[i.value].name == name
    ensures i.Some? ==> forall j :: 0 <= j < i.value ==> s[j].name != name
    ensures i.None? ==> forall j :: 0 <= j < |s| ==> s[j].name != name
  {
    if s == [] then None
    else if s[0].name == name then Some(0)
    else match FirstNamed(s[1..], name)
      case None => None
      case Some(k) => Some(k + 1)
  }

  /** `GetEventType(eventName)`: the first registered event type with that simple name, or null. */
  function GetEventType(r: Registry, eventName: string): (t: Option<TypeRef>)
    requires Valid(r)
    ensures t.None? <==> forall k :: k in r.handlers ==> k.name != eventName
    ensures t.Some? ==> t.value in r.handlers && t.value.name == eventName
    ensures t.Some? ==> forall j :: 0 <= j < |r.order| && r.order[j] == t.value ==>
      forall i :: 0 <= i < j ==> r.order[i].name != eventName
  {
    match FirstNamed(r.order, eventName)
    case None => None
    case Some(i) => Some(r.order[i])
  }

  /** `GetHandlersForEvent(eventName)`: null, or a copy of the handler list of the type `GetEventType` finds. */
  function GetHandlersForEvent(r: Registry, eventName: string): (hs: Option<seq<TypeRef>>)
    requires Valid(r)
    ensures hs.None? <==> forall k :: k in r.handlers ==> k.name != eventName
    ensures hs.Some? ==> GetEventType(r, eventName).Some? && hs.value == r.handlers[GetEventType(r, eventName).value]
    ensures hs.Some? ==> Distinct(hs.value)
  {
    match GetEventType(r, eventName)
    case None => None
    case Some(k) => Some(r.handlers[k])
  }

  /** `HasSubscriptionsForEvent(eventName)`: whether `GetEventType` finds a type. */
  function HasSubscriptionsForEvent(r: Registry, eventName: string): (b: bool)
    requires Valid(r)
    ensures b <==> exists k :: k in r.handlers && k.name == eventName
    ensures b <==> GetHandlersForEvent(r, eventName).Some?
  {
    GetEventType(r, eventName).Some?
  }

  /** After subscribing a handler, lookups by the event's name find a list holding a handler of that type's key. */
  lemma LookupAfterSubscribe(r: Registry, eventType: TypeRef, handlerType: TypeRef)
    requires Valid(r)
    ensures var r' := AddSubscription(r, eventType, handlerType);
      && HasSubscriptionsForEvent(r', eventType.name)
      && GetEventType(r', eventType.name).Some?
  {
    var r' := AddSubscription(r, eventType, handlerType);
    assert eventType in r'.handlers && eventType.name == eventType.name;
  }

  /**
    When no other registered type shares the event type's simple name, the
    lookup by name returns exactly that type's list, which now holds the handler.
   */
  lemma {:induction false} LookupFindsSubscribedHandler(r: Registry, eventType: TypeRef, handlerType: TypeRef)
    requires Valid(r)
    requires forall k :: k in r.handlers && k.name == eventType.name ==> k == eventType
    ensures var r' := AddSubscription(r, eventType, handlerType);
      && GetHandlersForEvent(r', eventType.name) == Some(r'.handlers[eventType])
      && handlerType in GetHandlersForEvent(r', eventType.name).value
  {
    var r' := AddSubscription(r, eventType, handlerType);
    var t := GetEventType(r', eventType.name);
    assert t.Some?;
    assert t.value == eventType;
  }
}
