/** Observable cells: a `Property` holds a value and announces every write
    with a `changed` event; a `ComputedProperty` holds `fn` of the values of
    its dependencies and recomputes on every `changed` of one of them. */
module Cells {
  import opened JsValues
  import opened Events

  /** `Property`: a writable cell and the event target it notifies on. */
  class Property {
    var value: Value
    const events: EventTarget

    ghost predicate Valid()
      reads this, events
    {
      events.Valid()
    }

    constructor(defaultValue: Value)
      ensures Valid() && value == defaultValue
      ensures fresh(events) && events.listeners == [] && events.history == []
    {
      value := defaultValue;
      events := new EventTarget();
    }

    /** `set(v)`: stores `v` and dispatches one `changed` event carrying it,
        whether or not `v` differs from the old value. */
    method Set(v: Value) returns (invoked: seq<Callback>)
      requires Valid()
      modifies this, events
      ensures Valid() && value == v
      ensures events.history == old(events.history) + [Event("changed", v)]
      ensures events.listeners == Dispatched(old(events.listeners), "changed")
      ensures invoked == Invoked(old(events.listeners), "changed") && Distinct(invoked)
    {
      value := v;
      invoked := events.DispatchEvent(Event("changed", v));
    }
  }

  /** Anything with `get()` and a `changed` event: a dependency of a computed
      property, the value shown by a renderer, the end of a link. */
  datatype Observable = Plain(p: Property) | Computed(c: ComputedProperty)

  function Holder(o: Observable): object {
    if o.Plain? then o.p else o.c
  }

  function Target(o: Observable): EventTarget {
    if o.Plain? then o.p.events else o.c.events
  }

  /** `o.get()`. */
  function Get(o: Observable): Value
    reads Holder(o)
  {
    if o.Plain? then o.p.value else o.c.value
  }

  function Holders(ds: seq<Observable>): set<object> {
    set i | 0 <= i < |ds| :: Holder(ds[i])
  }

  function Targets(ds: seq<Observable>): set<EventTarget> {
    set i | 0 <= i < |ds| :: Target(ds[i])
  }

  /** `ds.map((d) => d.get())`. */
  function Values(ds: seq<Observable>): (r: seq<Value>)
    reads Holders(ds)
    ensures |r| == |ds|
  {
    if ds == [] then []
    else
      assert Holders(ds[1..]) <= Holders(ds) by {
        forall x | x in Holders(ds[1..]) ensures x in Holders(ds) {
          var i :| 0 <= i < |ds[1..]| && Holder(ds[1..][i]) == x;
          assert Holder(ds[i + 1]) == x;
        }
      }
      [Get(ds[0])] + Values(ds[1..])
  }

  /** Entry `i` of `Values(ds)` is the current value of `ds[i]`. */
  lemma {:induction false} ValuesAt(ds: seq<Observable>, i: nat)
    requires i < |ds|
    ensures Values(ds)[i] == Get(ds[i])
  {
    if i > 0 {
      ValuesAt(ds[1..], i - 1);
    }
  }

  /** A cell is never an event target. */
  lemma HolderNotTarget(o: Observable, t: EventTarget)
    ensures Holder(o) != t
  {
  }

  /** A step that leaves the holder alone keeps the value. */
  twostate lemma GetKept(o: Observable)
    requires unchanged(Holder(o))
    ensures Get(o) == old(Get(o))
  {
  }

  /** `Values` depends on the holders' values only. */
  twostate lemma {:induction false} ValuesFrame(ds: seq<Observable>)
    requires forall i :: 0 <= i < |ds| ==> unchanged(Holder(ds[i]))
    ensures Values(ds) == old(Values(ds))
  {
    if ds != [] {
      ValuesFrame(ds[1..]);
    }
  }

  /** The frames of the dependencies' event targets are valid. */
  ghost predicate TargetsValid(ds: seq<Observable>)
    reads Targets(ds)
  {
    forall i :: 0 <= i < |ds| ==> Target(ds[i]).Valid()
  }

  /** A step that leaves the dependencies' event targets alone keeps their
      listener lists, their histories and their validity. */
  twostate lemma TargetsFrame(ds: seq<Observable>)
    requires old(TargetsValid(ds))
    requires forall i :: 0 <= i < |ds| ==> unchanged(Target(ds[i]))
    ensures TargetsValid(ds)
    ensures forall i :: 0 <= i < |ds| ==>
      (Target(ds[i]).listeners == old(Target(ds[i]).listeners)
      && Target(ds[i]).history == old(Target(ds[i]).history))
  {
  }

  /** The subscription loop of the `ComputedProperty` constructor:
      `addEventListener("changed", cb)` on every dependency, in order. Since a
      repeated registration is ignored, a dependency listed twice ends up
      subscribed once. */
  method SubscribeAll(ds: seq<Observable>, cb: Callback)
    requires TargetsValid(ds)
    modifies Targets(ds)
    ensures TargetsValid(ds)
    ensures forall j :: 0 <= j < |ds| ==>
      (Target(ds[j]).listeners == Added(old(Target(ds[j]).listeners), "changed", cb, false)
      && Target(ds[j]).history == old(Target(ds[j]).history))
  {
    var i := 0;
    while i < |ds|
      invariant 0 <= i <= |ds|
      invariant TargetsValid(ds)
      invariant forall j :: 0 <= j < |ds| ==>
        (Target(ds[j]).history == old(Target(ds[j]).history)
        && (Target(ds[j]).listeners == Added(old(Target(ds[j]).listeners), "changed", cb, false)
           || (i <= j && Target(ds[j]).listeners == old(Target(ds[j]).listeners))))
    {
      var t := Target(ds[i]);
      AddedIdempotent(old(t.listeners), "changed", cb, false, false);
      t.AddEventListener("changed", cb, false);
      i := i + 1;
    }
  }

  /** `ComputedProperty(fn, ...deps)`. */
  class ComputedProperty {
    var value: Value
    const fn: seq<Value> -> Value
    const deps: seq<Observable>
    const events: EventTarget

    ghost predicate Valid()
      reads this, events
    {
      events.Valid() && this !in Holders(deps)
    }

    /** Computes the first value, then subscribes the update callback, without
        `once`, to the `changed` event of every dependency. A dependency
        listed twice is subscribed once, as `addEventListener` ignores a
        repeated registration. */
    constructor(fn: seq<Value> -> Value, deps: seq<Observable>)
      requires TargetsValid(deps)
      modifies Targets(deps)
      ensures Valid() && this.fn == fn && this.deps == deps
      ensures value == fn(Values(deps))
      ensures fresh(events) && events.listeners == [] && events.history == [Event("changed", value)]
      ensures TargetsValid(deps)
      ensures forall i :: 0 <= i < |deps| ==>
        Registration("changed", Bound(this, ComputedUpdate), false) in Target(deps[i]).listeners
      ensures forall i :: 0 <= i < |deps| ==>
        (Target(deps[i]).listeners == Added(old(Target(deps[i]).listeners), "changed", Bound(this, ComputedUpdate), false)
        && Target(deps[i]).history == old(Target(deps[i]).history))
    {
      this.fn := fn;
      this.deps := deps;
      var first := fn(Values(deps));
      value := first;
      var target := new EventTarget();
      var _ := target.DispatchEvent(Event("changed", first));
      events := target;
      new;
      forall i | 0 <= i < |deps|
        ensures Holder(deps[i]) != this && Holder(deps[i]) != events && Target(deps[i]) != events
      {
        assert allocated(deps[i]);
      }
      ValuesFrame(deps);
      TargetsFrame(deps);
      label Subscribing:
      SubscribeAll(deps, Bound(this, ComputedUpdate));
      forall i | 0 <= i < |deps| ensures unchanged@Subscribing(Holder(deps[i])) {
        forall j | 0 <= j < |deps| ensures Holder(deps[i]) != Target(deps[j]) {
          HolderNotTarget(deps[i], Target(deps[j]));
        }
        assert Holder(deps[i]) !in Targets(deps);
      }
      ValuesFrame@Subscribing(deps);
      forall j | 0 <= j < |deps|
        ensures Registration("changed", Bound(this, ComputedUpdate), false) in Target(deps[j]).listeners
      {
        AddedFresh(old(Target(deps[j]).listeners), "changed", Bound(this, ComputedUpdate), false);
      }
    }

    /** The update callback: recomputes `fn` over the dependencies' current
        values and dispatches one `changed` event carrying the result. There
        is no equality check and no coalescing. */
    method Update() returns (invoked: seq<Callback>)
      requires Valid()
      modifies this, events
      ensures Valid()
      ensures value == fn(Values(deps)) && Values(deps) == old(Values(deps))
      ensures events.history == old(events.history) + [Event("changed", value)]
      ensures events.listeners == Dispatched(old(events.listeners), "changed")
      ensures invoked == Invoked(old(events.listeners), "changed") && Distinct(invoked)
    {
      forall i | 0 <= i < |deps| ensures Holder(deps[i]) != this && Holder(deps[i]) != events {
        HolderNotTarget(deps[i], events);
      }
      value := fn(Values(deps));
      invoked := events.DispatchEvent(Event("changed", value));
      ValuesFrame(deps);
    }
  }

  /** A computed property subscribed to a dependency is called back by every
      `changed` dispatch of that dependency, exactly once, and stays
      subscribed for the next one. */
  lemma UpdateRunsOncePerChange(ls: seq<Registration>, c: ComputedProperty)
    requires Unique(ls) && Registration("changed", Bound(c, ComputedUpdate), false) in ls
    ensures Bound(c, ComputedUpdate) in Invoked(ls, "changed")
    ensures forall i, j :: 0 <= i < j < |Invoked(ls, "changed")| ==> Invoked(ls, "changed")[i] != Invoked(ls, "changed")[j]
    ensures Registration("changed", Bound(c, ComputedUpdate), false) in Dispatched(ls, "changed")
  {
    ListenerPersists(ls, "changed", Bound(c, ComputedUpdate));
    InvokedDistinct(ls, "changed");
  }
}
