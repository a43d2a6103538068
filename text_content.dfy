/** `TextContentRenderer`: keeps the text content of the referenced element
    equal to the current value of an observable. */
module TextContent {
  import opened JsValues
  import opened Events
  import opened Dom
  import opened Cells
  import opened Refs

  /** Showing a value puts it on the element alone: the element's former
      children are detached, no other node changes, and showing the same
      value again changes nothing more, as nothing is left to detach. */
  lemma ShowTextSpec(nodes: map<NodeId, NodeInfo>, n: NodeId, v: Value)
    requires n in nodes
    ensures var r := ShowText(nodes, n, v);
      r.Keys == nodes.Keys && r[n] == nodes[n].(children := [], text := Some(v))
      && (forall c :: c in nodes && c != n && c in nodes[n].children ==> r[c] == nodes[c].(parent := None))
      && (forall k :: k in nodes && k != n && k !in nodes[n].children ==> r[k] == nodes[k])
      && ShowText(r, n, v) == r
      && (nodes[n].text == Some(v) && nodes[n].children == [] ==> r == nodes)
  {
    var r := ShowText(nodes, n, v);
    assert r[n] == r[n].(children := [], text := Some(v));
    if nodes[n].text == Some(v) && nodes[n].children == [] {
      assert nodes[n] == nodes[n].(children := [], text := Some(v));
    }
  }

  /** Only the latest value shows: two consecutive renders leave what the
      second one shows. */
  lemma ShowTextLatest(nodes: map<NodeId, NodeInfo>, n: NodeId, v: Value, w: Value)
    requires n in nodes
    ensures ShowText(ShowText(nodes, n, v), n, w) == ShowText(nodes, n, w)
  {
    var a := ShowText(ShowText(nodes, n, v), n, w);
    var b := ShowText(nodes, n, w);
    assert a.Keys == b.Keys;
    forall k | k in a ensures a[k] == b[k] {
    }
  }

  class TextContentRenderer {
    var rendered: bool
    const ref: Ref
    const value: Observable
    const doc: Document
    const events: EventTarget

    ghost predicate Valid()
      reads events, Target(value), doc, RefState(ref)
    {
      events.Valid() && Target(value).Valid() && events != Target(value)
      && doc.Valid() && doc == RefDoc(ref) && RefIn(ref)
    }

    constructor(ref: Ref, value: Observable)
      requires Target(value).Valid() && RefDoc(ref).Valid() && RefIn(ref)
      ensures Valid() && !rendered && this.ref == ref && this.value == value
      ensures fresh(events) && events.listeners == [] && events.history == []
    {
      rendered := false;
      this.ref := ref;
      this.value := value;
      doc := RefDoc(ref);
      events := new EventTarget();
    }

    /** The constructor's closing `ref.onReady(this.#init)`: when `callNow`
        the caller runs `Init` at once. */
    method Start() returns (callNow: bool)
      requires RefValid(ref)
      modifies RefTargets(ref)
      ensures RefValid(ref) && callNow == RefReady(ref)
      ensures ref.Lazy? && !callNow ==>
        ref.l.events.listeners == Added(old(ref.l.events.listeners), "ready", Bound(this, TextInit), true)
      ensures ref.Lazy? ==> ref.l.events.history == old(ref.l.events.history)
      ensures ref.Lazy? && callNow ==> ref.l.events.listeners == old(ref.l.events.listeners)
    {
      callNow := RefOnReady(ref, Bound(this, TextInit));
    }

    /** `#init`: subscribes the handler first, then runs it; the handler
        throws (`TypeError`) when the reference has no element, after the
        subscription and before `rendered` is set. */
    method Init() returns (ok: bool, invoked: seq<Callback>)
      requires Valid()
      modifies this, events, Target(value), doc
      ensures Valid()
      ensures Target(value).listeners == Added(old(Target(value).listeners), "changed", Bound(this, TextHandler), false)
      ensures Target(value).history == old(Target(value).history)
      ensures ok == old(RefEl(ref)).Some?
      ensures !ok ==> (doc.nodes == old(doc.nodes) && rendered == old(rendered) && invoked == []
        && events.listeners == old(events.listeners) && events.history == old(events.history))
      ensures ok ==> (doc.nodes == ShowText(old(doc.nodes), old(RefEl(ref)).value, old(Get(value)))
        && rendered
        && events.history == old(events.history) + [Event("rendered", Null)]
        && events.listeners == Dispatched(old(events.listeners), "rendered")
        && invoked == Invoked(old(events.listeners), "rendered"))
    {
      Apart(ref, value, doc, Target(value));
      Apart(ref, value, doc, events);
      HolderNotTarget(value, Target(value));
      Target(value).AddEventListener("changed", Bound(this, TextHandler), false);
      StillValid(events);
      RefKept(ref);
      GetKept(value);
      label Subscribed:
      ok := Handler();
      if !ok {
        invoked := [];
        return;
      }
      rendered := true;
      invoked := events.DispatchEvent(Event("rendered", Null));
      StillValid@Subscribed(Target(value));
    }

    /** `#handler`: `ref.el.textContent = value.get()`; `TypeError` when the
        reference has no element. */
    method Handler() returns (ok: bool)
      requires Valid()
      modifies doc
      ensures Valid()
      ensures ok == old(RefEl(ref)).Some?
      ensures !ok ==> doc.nodes == old(doc.nodes)
      ensures ok ==> doc.nodes == ShowText(old(doc.nodes), old(RefEl(ref)).value, old(Get(value)))
    {
      var el := RefEl(ref);
      if el.None? {
        ok := false;
        return;
      }
      ok := true;
      Apart(ref, value, doc, events);
      Apart(ref, value, doc, Target(value));
      doc.SetText(el.value, Get(value));
      RefKept(ref);
      StillValid(events);
      StillValid(Target(value));
    }

    /** `destroy()`: unsubscribes the handler, which no later `changed`
        dispatch calls. */
    method Destroy()
      requires Valid()
      modifies Target(value)
      ensures Valid()
      ensures Target(value).listeners == Removed(old(Target(value).listeners), "changed", Bound(this, TextHandler))
      ensures Bound(this, TextHandler) !in Invoked(Target(value).listeners, "changed")
      ensures Target(value).history == old(Target(value).history)
    {
      Target(value).RemoveEventListener("changed", Bound(this, TextHandler));
    }
  }
}
