/** `CondRenderer`: shows the referenced element while an observable is
    truthy and swaps it for an empty text node (the placeholder) while it is
    falsy, in the same slot of the same parent. */
module Conditional {
  import opened JsValues
  import opened Events
  import opened Dom
  import opened Cells
  import opened Refs

  /** `p.replaceChild(n, o)` succeeds: neither argument nor the parent is
      `null`, `n` is not `p`, and `o` is a child of `p`. */
  predicate CanSwap(nodes: map<NodeId, NodeInfo>, p: Option<NodeId>, n: Option<NodeId>, o: Option<NodeId>) {
    p.Some? && n.Some? && o.Some? && n.value != p.value && o.value in nodes && nodes[o.value].parent == p
  }

  /** `n.parentNode`, with `null` for a missing node. */
  function ParentOf(nodes: map<NodeId, NodeInfo>, n: Option<NodeId>): Option<NodeId> {
    if n.Some? && n.value in nodes then nodes[n.value].parent else None
  }

  /** `after` is `before` with `n` put in the slot of the child `o` of `p`. */
  ghost predicate Swapped(before: map<NodeId, NodeInfo>, after: map<NodeId, NodeInfo>,
                          p: Option<NodeId>, n: Option<NodeId>, o: Option<NodeId>) {
    p.Some? && n.Some? && o.Some? && p.value in before && n.value in before && o.value in before
    && o.value in before[p.value].children && after == Swap(before, p.value, n.value, o.value)
  }

  /** What taking the element and running the handler once does, from the
      document `before` to `after`: `e` is the element taken (`None` makes
      it throw), `p` its parent at that moment, `attached` the flag
      afterwards, `should` the truthiness of the value, `ok` whether no
      exception was thrown. Only a falsy value moves anything: the
      placeholder takes the element's slot. */
  ghost predicate AttachOutcome(before: map<NodeId, NodeInfo>, after: map<NodeId, NodeInfo>, e: Option<NodeId>,
                                p: Option<NodeId>, attached: bool, should: bool, noop: NodeId, ok: bool) {
    (e.Some? ==> p == ParentOf(before, e) && attached == (should || !ok))
    && ok == (e.Some? && (should || CanSwap(before, p, Some(noop), e)))
    && (ok && !should ==> Swapped(before, after, p, Some(noop), e))
    && (!ok || should ==> after == before)
  }

  /** Hiding the element and showing it again gives back the document as it
      was: the element returns to its own slot and the placeholder is
      detached again. */
  lemma HideShowRestores(nodes: map<NodeId, NodeInfo>, p: NodeId, noop: NodeId, el: NodeId)
    requires p in nodes && el in nodes && noop in nodes
    requires el in nodes[p].children && Distinct(nodes[p].children)
    requires nodes[el].parent == Some(p) && nodes[noop].parent == None && noop !in nodes[p].children
    requires noop != p && el != p && noop != el
    ensures var hidden := Swap(nodes, p, noop, el);
      noop in hidden[p].children && hidden[noop].parent == Some(p) && hidden[el].parent == None
      && Swap(hidden, p, el, noop) == nodes
  {
    var kids := nodes[p].children;
    var i := IndexOf(kids, el);
    SwapShape(nodes, p, noop, el);
    var hidden := Swap(nodes, p, noop, el);
    assert hidden[p].children == kids[i := noop];
    assert kids[i := noop][i] == noop;
    var hk := kids[i := noop];
    assert IndexOf(hk, noop) == i by {
      forall j | 0 <= j < i ensures hk[j] != noop {
        assert hk[j] == kids[j];
      }
      IndexOfFirst(hk, noop, i);
    }
    SwapShape(hidden, p, el, noop);
    var shown := Swap(hidden, p, el, noop);
    assert shown[p].children == kids[i := noop][i := el];
    assert kids[i := noop][i := el] == kids;
    assert shown[p] == nodes[p];
    assert shown[el] == nodes[el];
    assert shown[noop] == nodes[noop];
    assert shown.Keys == nodes.Keys;
  }

  /** The first position of `x` is the one position before which `x` does
      not occur. */
  lemma IndexOfFirst(s: seq<NodeId>, x: NodeId, i: nat)
    requires i < |s| && s[i] == x
    requires forall j :: 0 <= j < i ==> s[j] != x
    ensures IndexOf(s, x) == i
  {
  }

  /** The renderer is neither the holder of its value nor the state of its
      reference. */
  lemma RendererApart(c: CondRenderer, o: Observable, r: Ref)
    ensures Holder(o) != c && c !in RefState(r)
  {
  }

  class CondRenderer {
    var rendered: bool
    const ref: Ref
    const value: Observable
    const doc: Document
    /** The empty text node that holds the slot while the element is out. */
    const noop: NodeId
    var parent: Option<NodeId>
    var el: Option<NodeId>
    var attached: bool
    const events: EventTarget

    ghost predicate Valid()
      reads this`el, events, Target(value), doc, RefState(ref)
    {
      events.Valid() && Target(value).Valid() && events != Target(value)
      && doc.Valid() && doc == RefDoc(ref) && RefIn(ref)
      && noop in doc.nodes && (el.Some? ==> el.value in doc.nodes)
    }

    /** Exactly one of the element and the placeholder sits under the
        element's parent, and `attached` says which: the element while
        attached, the placeholder (in its place) while not. Before `#init`
        and when the element had no parent, the placeholder stays out of
        the tree. The placeholder, a text node, has no children. */
    ghost predicate Occupies()
      reads this`attached, this`parent, this`el, doc
    {
      noop in doc.nodes && doc.nodes[noop].children == []
      && (el.Some? ==> el.value in doc.nodes)
      && (parent.None? || el.None? ==> doc.nodes[noop].parent == None)
      && (parent.Some? && el.Some? ==>
            parent.value != noop && parent.value != el.value
            && (attached ==> doc.nodes[el.value].parent == parent && doc.nodes[noop].parent == None)
            && (!attached ==> doc.nodes[noop].parent == parent && doc.nodes[el.value].parent == None))
    }

    /** Creates the placeholder `document.createTextNode("")`; nothing is
        attached yet. */
    constructor(ref: Ref, value: Observable)
      requires Target(value).Valid() && RefDoc(ref).Valid() && RefIn(ref)
      modifies RefDoc(ref)
      ensures Valid() && Occupies() && !rendered && this.ref == ref && this.value == value
      ensures parent == None && el == None && !attached
      ensures noop !in old(RefDoc(ref).nodes) && RefDoc(ref).nodes == old(RefDoc(ref).nodes)[noop := Blank(Text(""), None, [])]
      ensures fresh(events) && events.listeners == [] && events.history == []
    {
      rendered := false;
      this.ref := ref;
      this.value := value;
      doc := RefDoc(ref);
      var n := RefDoc(ref).CreateNode(Text(""));
      noop := n;
      parent := None;
      el := None;
      attached := false;
      events := new EventTarget();
      new;
      RefKept(ref);
    }

    /** The constructor's closing `ref.onReady(this.#init)`: when `callNow`
        the caller runs `Init` at once. */
    method Start() returns (callNow: bool)
      requires RefValid(ref)
      modifies RefTargets(ref)
      ensures RefValid(ref) && callNow == RefReady(ref)
      ensures ref.Lazy? && !callNow ==>
        ref.l.events.listeners == Added(old(ref.l.events.listeners), "ready", Bound(this, CondInit), true)
      ensures ref.Lazy? ==> ref.l.events.history == old(ref.l.events.history)
      ensures ref.Lazy? && callNow ==> ref.l.events.listeners == old(ref.l.events.listeners)
    {
      callNow := RefOnReady(ref, Bound(this, CondInit));
    }

    /** `#init`: subscribes the handler first, then takes the element and
        runs the handler (`Attach`); `rendered` is set and announced only when
        that succeeds. */
    method Init() returns (ok: bool, invoked: seq<Callback>)
      requires Valid() && Occupies() && doc.nodes[noop].parent == None
      modifies this, events, Target(value), doc
      ensures Valid() && Occupies()
      ensures Target(value).listeners == Added(old(Target(value).listeners), "changed", Bound(this, CondHandler), false)
      ensures Target(value).history == old(Target(value).history)
      ensures el == old(RefEl(ref))
      ensures el.None? ==> parent == old(parent) && attached == old(attached)
      ensures AttachOutcome(old(doc.nodes), doc.nodes, el, parent, attached, old(Truthy(Get(value))), noop, ok)
      ensures !ok ==> (rendered == old(rendered) && invoked == []
        && events.listeners == old(events.listeners) && events.history == old(events.history))
      ensures ok ==> (rendered
        && events.history == old(events.history) + [Event("rendered", Null)]
        && events.listeners == Dispatched(old(events.listeners), "rendered")
        && invoked == Invoked(old(events.listeners), "rendered"))
    {
      Apart(ref, value, doc, Target(value));
      Apart(ref, value, doc, events);
      Subscribe();
      ok, invoked := Mount();
    }

    /** The part of `#init` after the subscription: the attachment, then the
        `rendered` event when it succeeded. */
    method Mount() returns (ok: bool, invoked: seq<Callback>)
      requires Valid() && Occupies() && doc.nodes[noop].parent == None
      modifies this`el, this`parent, this`attached, this`rendered, events, doc
      ensures Valid() && Occupies() && unchanged(Target(value))
      ensures el == old(RefEl(ref))
      ensures el.None? ==> parent == old(parent) && attached == old(attached)
      ensures AttachOutcome(old(doc.nodes), doc.nodes, el, parent, attached, old(Truthy(Get(value))), noop, ok)
      ensures !ok ==> (rendered == old(rendered) && invoked == []
        && events.listeners == old(events.listeners) && events.history == old(events.history))
      ensures ok ==> (rendered
        && events.history == old(events.history) + [Event("rendered", Null)]
        && events.listeners == Dispatched(old(events.listeners), "rendered")
        && invoked == Invoked(old(events.listeners), "rendered"))
    {
      Apart(ref, value, doc, events);
      ok := Attach();
      if !ok {
        invoked := [];
        return;
      }
      invoked := Announce();
    }

    /** The subscription `value.addEventListener("changed", this.#handler)`,
        which touches neither the value, the reference nor the document. */
    method Subscribe()
      requires Valid()
      modifies Target(value)
      ensures Valid() && (old(Occupies()) ==> Occupies())
      ensures Target(value).listeners == Added(old(Target(value).listeners), "changed", Bound(this, CondHandler), false)
      ensures Target(value).history == old(Target(value).history)
      ensures Get(value) == old(Get(value)) && RefEl(ref) == old(RefEl(ref))
      ensures doc.nodes == old(doc.nodes)
    {
      var t := Target(value);
      Apart(ref, value, doc, t);
      Apart(ref, value, doc, events);
      HolderNotTarget(value, t);
      t.AddEventListener("changed", Bound(this, CondHandler), false);
      StillValid(events);
      RefKept(ref);
      GetKept(value);
    }

    /** `rendered = true` and the `rendered` event. */
    method Announce() returns (invoked: seq<Callback>)
      requires Valid()
      modifies this`rendered, events
      ensures Valid() && rendered && unchanged(Target(value))
      ensures events.history == old(events.history) + [Event("rendered", Null)]
      ensures events.listeners == Dispatched(old(events.listeners), "rendered")
      ensures invoked == Invoked(old(events.listeners), "rendered")
    {
      Apart(ref, value, doc, events);
      rendered := true;
      invoked := events.DispatchEvent(Event("rendered", Null));
      RefKept(ref);
      StillValid(Target(value));
    }

    /** The attachment in `#init`: `el = ref.el` (a
        `TypeError` follows when it is `null`), `parent = el.parentNode`,
        `attached = true`, then the handler, whose failures leave `attached`
        set. The placeholder never moves when the value is truthy. */
    method Attach() returns (ok: bool)
      requires Valid() && Occupies() && doc.nodes[noop].parent == None
      modifies this`el, this`parent, this`attached, doc
      ensures Valid() && Occupies() && unchanged(Target(value), events)
      ensures el == old(RefEl(ref))
      ensures el.None? ==> parent == old(parent) && attached == old(attached)
      ensures AttachOutcome(old(doc.nodes), doc.nodes, el, parent, attached, old(Truthy(Get(value))), noop, ok)
    {
      RendererApart(this, value, ref);
      Apart(ref, value, doc, events);
      el := RefEl(ref);
      if el.None? {
        ok := false;
        return;
      }
      parent := ParentOf(doc.nodes, el);
      attached := true;
      RefKept(ref);
      GetKept(value);
      ok := Handler();
    }

    /** `#handler`: hides the element when it is attached and the value is
        falsy, shows it when it is detached and the value is truthy, and
        touches nothing when `attached` already agrees with the value. A
        `null` parent or element (`TypeError`) or an element that left the
        slot (`NotFoundError`) makes it throw with nothing changed. While
        `Occupies` holds, only a missing parent makes it throw, and it keeps
        `Occupies`. */
    method Handler() returns (ok: bool)
      requires Valid() && Occupies()
      modifies this`attached, doc
      ensures Valid() && Occupies() && unchanged(Target(value), events)
      ensures parent.Some? && el.Some? ==> ok
      ensures ok == (old(attached) == old(Truthy(Get(value)))
        || (old(attached) && CanSwap(old(doc.nodes), parent, Some(noop), el))
        || (!old(attached) && CanSwap(old(doc.nodes), parent, el, Some(noop))))
      ensures ok ==> attached == old(Truthy(Get(value)))
      ensures !ok ==> attached == old(attached) && doc.nodes == old(doc.nodes)
      ensures old(attached) == old(Truthy(Get(value))) ==> doc.nodes == old(doc.nodes)
      ensures ok && old(attached) && !attached ==> Swapped(old(doc.nodes), doc.nodes, parent, Some(noop), el)
      ensures ok && !old(attached) && attached ==> Swapped(old(doc.nodes), doc.nodes, parent, el, Some(noop))
    {
      var should := Truthy(Get(value));
      if attached == should {
        ok := true;
        return;
      }
      // The element leaves the slot when it is attached and enters it when not.
      var n, o := if attached then Some(noop) else el, if attached then el else Some(noop);
      if !CanSwap(doc.nodes, parent, n, o) {
        ok := false;
        return;
      }
      attached := should;
      Replace(n.value, o.value);
      ok := true;
    }

    /** `parent.replaceChild(n, o)` in the case where it succeeds. */
    method Replace(n: NodeId, o: NodeId)
      requires Valid() && n in doc.nodes && doc.nodes[n].parent == None
      requires CanSwap(doc.nodes, parent, Some(n), Some(o))
      modifies doc
      ensures Valid() && unchanged(Target(value), events)
      ensures Swapped(old(doc.nodes), doc.nodes, parent, Some(n), Some(o))
    {
      Apart(ref, value, doc, events);
      Apart(ref, value, doc, Target(value));
      var ok := doc.ReplaceChild(parent.value, n, o);
      RefKept(ref);
      StillValid(events);
      StillValid(Target(value));
    }

    /** `destroy()`: unsubscribes the handler. */
    method Destroy()
      requires Valid()
      modifies Target(value)
      ensures Valid()
      ensures Target(value).listeners == Removed(old(Target(value).listeners), "changed", Bound(this, CondHandler))
      ensures Bound(this, CondHandler) !in Invoked(Target(value).listeners, "changed")
      ensures Target(value).history == old(Target(value).history)
    {
      Apart(ref, value, doc, events);
      Target(value).RemoveEventListener("changed", Bound(this, CondHandler));
      RefKept(ref);
      StillValid(events);
    }
  }
}
