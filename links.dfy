/** Links between a cell and an element: a `DownLink` writes the cell's
    value into an attribute or a property of the element on every change,
    an `UpLink` writes into the cell what a DOM event of the element
    carries, and a `TwoWayLink` is both, re-announcing what the up link
    writes. */
module Links {
  import opened JsValues
  import opened Events
  import opened Dom
  import opened Cells
  import opened Refs

  /** Where a down link writes: `referenceAttribute` when it is truthy,
      otherwise the element property `referenceProperty` (`None` stands for
      `undefined`, which names the property `"undefined"`). */
  datatype Slot = Slot(referenceAttribute: Option<string>, referenceProperty: Option<string>)

  /** `if (this.#referenceAttribute)`: a non-empty attribute name. */
  predicate UsesAttribute(s: Slot) {
    s.referenceAttribute.Some? && s.referenceAttribute.value != ""
  }

  /** The property key `el[referenceProperty]` uses. */
  function PropertyKey(s: Slot): string {
    if s.referenceProperty.Some? then s.referenceProperty.value else "undefined"
  }

  /** The document after the down link's handler wrote `v` to `n`. */
  function Reflect(nodes: map<NodeId, NodeInfo>, n: NodeId, s: Slot, v: Value): map<NodeId, NodeInfo>
    requires n in nodes
  {
    if UsesAttribute(s) then
      nodes[n := nodes[n].(attributes := nodes[n].attributes[s.referenceAttribute.value := v])]
    else
      nodes[n := nodes[n].(fields := nodes[n].fields[PropertyKey(s) := v])]
  }

  /** The handler writes the value to exactly one place — the attribute
      when the attribute name is truthy, else the property — touches no
      other node and no other attribute or property, and writing the same
      value again changes nothing. */
  lemma ReflectSpec(nodes: map<NodeId, NodeInfo>, n: NodeId, s: Slot, v: Value)
    requires n in nodes
    ensures var r := Reflect(nodes, n, s, v);
      r.Keys == nodes.Keys
      && (forall k :: k in nodes && k != n ==> r[k] == nodes[k])
      && (UsesAttribute(s) ==>
            r[n].attributes == nodes[n].attributes[s.referenceAttribute.value := v]
            && r[n].fields == nodes[n].fields)
      && (!UsesAttribute(s) ==>
            r[n].fields == nodes[n].fields[PropertyKey(s) := v]
            && r[n].attributes == nodes[n].attributes)
      && r[n].(attributes := nodes[n].attributes, fields := nodes[n].fields) == nodes[n]
      && Reflect(r, n, s, v) == r
  {
    var r := Reflect(nodes, n, s, v);
    if UsesAttribute(s) {
      assert r[n].attributes[s.referenceAttribute.value := v] == r[n].attributes;
      assert r[n] == r[n].(attributes := r[n].attributes[s.referenceAttribute.value := v]);
    } else {
      assert r[n].fields[PropertyKey(s) := v] == r[n].fields;
      assert r[n] == r[n].(fields := r[n].fields[PropertyKey(s) := v]);
    }
  }

  /** Only the latest value shows: two writes leave what the second one
      wrote. */
  lemma ReflectLatest(nodes: map<NodeId, NodeInfo>, n: NodeId, s: Slot, v: Value, w: Value)
    requires n in nodes
    ensures Reflect(Reflect(nodes, n, s, v), n, s, w) == Reflect(nodes, n, s, w)
  {
    var r := Reflect(nodes, n, s, v);
    if UsesAttribute(s) {
      var a := s.referenceAttribute.value;
      assert r[n].attributes[a := w] == nodes[n].attributes[a := w];
      assert r[n].(attributes := r[n].attributes[a := w]) == nodes[n].(attributes := nodes[n].attributes[a := w]);
    } else {
      var k := PropertyKey(s);
      assert r[n].fields[k := w] == nodes[n].fields[k := w];
      assert r[n].(fields := r[n].fields[k := w]) == nodes[n].(fields := nodes[n].fields[k := w]);
    }
  }

  /** The link is neither the holder of its value nor the state of its
      reference. */
  lemma DownApart(d: DownLink, o: Observable, r: Ref)
    ensures Holder(o) != d && d !in RefState(r)
  {
  }

  /** `DownLink`: element attribute or property follows the cell. */
  class DownLink {
    const property: Observable
    const ref: Ref
    const slot: Slot
    const doc: Document

    ghost predicate Valid()
      reads Target(property), doc, RefState(ref)
    {
      Target(property).Valid() && doc.Valid() && doc == RefDoc(ref) && RefIn(ref)
    }

    constructor(property: Observable, ref: Ref, slot: Slot)
      requires Target(property).Valid() && RefDoc(ref).Valid() && RefIn(ref)
      ensures Valid() && this.property == property && this.ref == ref && this.slot == slot
    {
      this.property := property;
      this.ref := ref;
      this.slot := slot;
      doc := RefDoc(ref);
    }

    /** The constructor's closing `reference.onReady(this.#init)`: when
        `callNow` the caller runs `Init` at once. */
    method Start() returns (callNow: bool)
      requires RefValid(ref)
      modifies RefTargets(ref)
      ensures RefValid(ref) && callNow == RefReady(ref)
      ensures ref.Lazy? && !callNow ==>
        ref.l.events.listeners == Added(old(ref.l.events.listeners), "ready", Bound(this, DownInit), true)
      ensures ref.Lazy? ==> ref.l.events.history == old(ref.l.events.history)
      ensures ref.Lazy? && callNow ==> ref.l.events.listeners == old(ref.l.events.listeners)
    {
      callNow := RefOnReady(ref, Bound(this, DownInit));
    }

    /** `#init`: runs the handler first and subscribes it afterwards, so a
        handler that throws (`TypeError`, no element) leaves the link
        unsubscribed. */
    method Init() returns (ok: bool)
      requires Valid()
      modifies Target(property), doc
      ensures Valid()
      ensures ok == old(RefEl(ref)).Some?
      ensures !ok ==> doc.nodes == old(doc.nodes) && Target(property).listeners == old(Target(property).listeners)
      ensures ok ==> (doc.nodes == Reflect(old(doc.nodes), old(RefEl(ref)).value, slot, old(Get(property)))
        && Target(property).listeners == Added(old(Target(property).listeners), "changed", Bound(this, DownHandler), false))
      ensures Target(property).history == old(Target(property).history)
    {
      var t := Target(property);
      Apart(ref, property, doc, t);
      ok := Handler();
      if !ok {
        return;
      }
      HolderNotTarget(property, t);
      DownApart(this, property, ref);
      t.AddEventListener("changed", Bound(this, DownHandler), false);
      RefKept(ref);
    }

    /** `#handler`: `el.setAttribute(referenceAttribute, value.get())` when
        the attribute name is truthy, else `el[referenceProperty] =
        value.get()`; `TypeError` when the reference has no element. */
    method Handler() returns (ok: bool)
      requires Valid()
      modifies doc
      ensures Valid()
      ensures ok == old(RefEl(ref)).Some?
      ensures !ok ==> doc.nodes == old(doc.nodes)
      ensures ok ==> doc.nodes == Reflect(old(doc.nodes), old(RefEl(ref)).value, slot, old(Get(property)))
    {
      var el := RefEl(ref);
      if el.None? {
        ok := false;
        return;
      }
      ok := true;
      Apart(ref, property, doc, Target(property));
      if UsesAttribute(slot) {
        doc.SetAttribute(el.value, slot.referenceAttribute.value, Get(property));
      } else {
        doc.SetField(el.value, PropertyKey(slot), Get(property));
      }
      RefKept(ref);
      StillValid(Target(property));
    }
  }

  /** The link is neither the state of its reference nor its property. */
  lemma UpApart(u: UpLink, r: Ref, p: Property)
    ensures u !in RefState(r) && (u as object) != p
  {
  }

  /** `UpLink`: the cell follows a DOM event of the element. */
  class UpLink {
    const ref: Ref
    const referenceEventName: string
    /** `valueGetter(event)`, with the event given by what it carries. */
    const valueGetter: Value -> Value
    const property: Property
    const doc: Document
    /** The link's own `EventTarget` side, which announces `triggered`. */
    const events: EventTarget

    ghost predicate Valid()
      reads events, property, property.events, doc, RefState(ref)
    {
      events.Valid() && property.Valid() && events != property.events
      && doc.Valid() && doc == RefDoc(ref) && RefIn(ref)
    }

    constructor(ref: Ref, referenceEventName: string, valueGetter: Value -> Value, property: Property)
      requires property.Valid() && RefDoc(ref).Valid() && RefIn(ref)
      ensures Valid() && this.ref == ref && this.referenceEventName == referenceEventName
      ensures this.valueGetter == valueGetter && this.property == property
      ensures fresh(events) && events.listeners == [] && events.history == []
    {
      this.ref := ref;
      this.referenceEventName := referenceEventName;
      this.valueGetter := valueGetter;
      this.property := property;
      doc := RefDoc(ref);
      events := new EventTarget();
    }

    /** The constructor's closing `reference.onReady(this.#init)`. */
    method Start() returns (callNow: bool)
      requires RefValid(ref)
      modifies RefTargets(ref)
      ensures RefValid(ref) && callNow == RefReady(ref)
      ensures ref.Lazy? && !callNow ==>
        ref.l.events.listeners == Added(old(ref.l.events.listeners), "ready", Bound(this, UpInit), true)
      ensures ref.Lazy? ==> ref.l.events.history == old(ref.l.events.history)
      ensures ref.Lazy? && callNow ==> ref.l.events.listeners == old(ref.l.events.listeners)
    {
      callNow := RefOnReady(ref, Bound(this, UpInit));
    }

    /** `#init`: `el.addEventListener(referenceEventName, listener)` on the
        element; `TypeError` when the reference has no element. */
    method Init() returns (ok: bool)
      requires Valid()
      modifies doc
      ensures Valid()
      ensures ok == old(RefEl(ref)).Some?
      ensures !ok ==> doc.nodes == old(doc.nodes)
      ensures ok ==> var n := old(RefEl(ref)).value;
        doc.nodes == old(doc.nodes)[n := old(doc.nodes[n]).(listeners :=
          Added(old(doc.nodes[n].listeners), referenceEventName, Bound(this, UpListener), false))]
    {
      var el := RefEl(ref);
      if el.None? {
        ok := false;
        return;
      }
      ok := true;
      Apart(ref, Plain(property), doc, events);
      Apart(ref, Plain(property), doc, property.events);
      doc.AddListener(el.value, referenceEventName, Bound(this, UpListener));
      RefKept(ref);
      StillValid(events);
      StillValid(property.events);
    }

    /** The element listener, called with what the DOM event carries:
        `property.set(valueGetter(event))`, then one `triggered` event with
        that value. `changed` goes first, so `changed` listeners see the
        value before `triggered` listeners run. */
    method OnEvent(event: Value) returns (changed: seq<Callback>, triggered: seq<Callback>)
      requires Valid()
      modifies property, property.events, events
      ensures Valid()
      ensures property.value == valueGetter(event)
      ensures property.events.history == old(property.events.history) + [Event("changed", valueGetter(event))]
      ensures property.events.listeners == Dispatched(old(property.events.listeners), "changed")
      ensures changed == Invoked(old(property.events.listeners), "changed")
      ensures events.history == old(events.history) + [Event("triggered", valueGetter(event))]
      ensures events.listeners == Dispatched(old(events.listeners), "triggered")
      ensures triggered == Invoked(old(events.listeners), "triggered")
    {
      var value := valueGetter(event);
      Apart(ref, Plain(property), doc, events);
      Apart(ref, Plain(property), doc, property.events);
      UpApart(this, ref, property);
      changed := property.Set(value);
      StillValid(events);
      label Set:
      triggered := events.DispatchEvent(Event("triggered", value));
      StillValid@Set(property.events);
      RefKept(ref);
    }
  }

  /** `TwoWayLink`: a down link and an up link on the same cell and
      element; every `triggered` of the up link is re-announced as
      `up-link-triggered` with the same value. */
  class TwoWayLink {
    const down: DownLink
    const up: UpLink
    const events: EventTarget

    ghost predicate Valid()
      reads events, up.events
    {
      events.Valid() && up.events.Valid() && events != up.events
    }

    /** Builds the down link, then the up link, then subscribes the relay to
        the up link's `triggered`. Each part's own `onReady` is its `Start`,
        which the caller runs, down link first. */
    constructor(property: Property, ref: Ref, slot: Slot, referenceEventName: string, valueGetter: Value -> Value)
      requires property.Valid() && RefDoc(ref).Valid() && RefIn(ref)
      ensures Valid() && fresh(down) && fresh(up) && fresh(up.events)
      ensures down.property == Plain(property) && down.ref == ref && down.slot == slot
      ensures up.ref == ref && up.referenceEventName == referenceEventName
      ensures up.valueGetter == valueGetter && up.property == property
      ensures up.events.listeners == [Registration("triggered", Bound(this, TwoWayRelay), false)]
      ensures up.events.history == []
      ensures fresh(events) && events.listeners == [] && events.history == []
    {
      down := new DownLink(Plain(property), ref, slot);
      var u := new UpLink(ref, referenceEventName, valueGetter, property);
      up := u;
      events := new EventTarget();
      new;
      u.events.AddEventListener("triggered", Bound(this, TwoWayRelay), false);
    }

    /** The relay: one `up-link-triggered` event carrying the value of the
        `triggered` event it received. */
    method Relay(value: Value) returns (invoked: seq<Callback>)
      requires Valid()
      modifies events
      ensures Valid()
      ensures events.history == old(events.history) + [Event("up-link-triggered", value)]
      ensures events.listeners == Dispatched(old(events.listeners), "up-link-triggered")
      ensures invoked == Invoked(old(events.listeners), "up-link-triggered")
    {
      invoked := events.DispatchEvent(Event("up-link-triggered", value));
      StillValid(up.events);
    }
  }

  /** Every `triggered` dispatch of the up link calls the relay exactly
      once, and the relay stays subscribed for the next one. */
  lemma RelayRunsOnEveryTrigger(ls: seq<Registration>, link: TwoWayLink)
    requires Unique(ls) && Registration("triggered", Bound(link, TwoWayRelay), false) in ls
    ensures Bound(link, TwoWayRelay) in Invoked(ls, "triggered")
    ensures Distinct(Invoked(ls, "triggered"))
    ensures Registration("triggered", Bound(link, TwoWayRelay), false) in Dispatched(ls, "triggered")
  {
    ListenerPersists(ls, "triggered", Bound(link, TwoWayRelay));
    InvokedDistinct(ls, "triggered");
  }
}
