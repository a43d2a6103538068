/** References to elements and the renderer that fills a shadow root. A
    reference is either an `ElementRef` around an element that exists from
    the start, or a `LazyRef` that finds its element with a selector inside
    the shadow root of a `ShadowDomRenderer` once that renderer has
    rendered. The three classes refer to each other, so they share one
    module. */
module Refs {
  import opened JsValues
  import opened Events
  import opened Dom
  import opened Cells

  /** What a child of a shadow root renderer yields from `createDOM()`:
      a template's content (a fragment, whose top-level nodes are appended)
      or a style tag (one element). */
  datatype Source = Fragment(content: seq<Markup>) | Tag(root: Markup)

  /** The forest of markup that appending `createDOM()` inserts. */
  function Forest(s: Source): seq<Markup> {
    match s
    case Fragment(content) => content
    case Tag(root) => [root]
  }

  /** `new StringStyle(css)`: a `style` element holding the text `css`. */
  function StyleTag(css: string): Source {
    Tag(Markup(Element("style"), [Markup(Text(css), [])]))
  }

  /** The `children` argument of the renderer: one child or an array. */
  datatype Children = One(child: Source) | Many(items: seq<Source>)

  /** `Array.isArray(children) ? children : [children]`. */
  function ChildList(c: Children): (r: seq<Source>)
    ensures c.One? ==> r == [c.child]
    ensures c.Many? ==> r == c.items
  {
    match c
    case One(child) => [child]
    case Many(items) => items
  }

  /** The concatenation of the node lists appended for each child. */
  function Flatten(parts: seq<seq<NodeId>>): seq<NodeId> {
    if parts == [] then [] else Flatten(parts[..|parts| - 1]) + parts[|parts| - 1]
  }

  lemma FlattenAppend(parts: seq<seq<NodeId>>, last: seq<NodeId>)
    ensures Flatten(parts + [last]) == Flatten(parts) + last
  {
    assert (parts + [last])[..|parts|] == parts;
  }

  /** A reference to an element: `ElementRef` or `LazyRef`. */
  datatype Ref = Fixed(e: ElementRef) | Lazy(l: LazyRef)

  /** The document a reference points into. */
  function RefDoc(r: Ref): Document {
    if r.Fixed? then r.e.doc else r.l.renderer.doc
  }

  /** The objects whose fields `RefEl` and `RefReady` read. */
  function RefState(r: Ref): set<object> {
    if r.Lazy? then {r.l} else {}
  }

  /** `ref.el`, with `null` as `None`. */
  function RefEl(r: Ref): Option<NodeId>
    reads RefState(r)
  {
    if r.Fixed? then Some(r.e.el) else r.l.el
  }

  /** `ref.ready`. */
  function RefReady(r: Ref): bool
    reads RefState(r)
  {
    r.Fixed? || r.l.ready
  }

  /** The referenced element, once there is one, is a node of the document. */
  ghost predicate RefIn(r: Ref)
    reads RefState(r), RefDoc(r)
  {
    RefEl(r).Some? ==> RefEl(r).value in RefDoc(r).nodes
  }

  /** The event targets `ref.onReady` may register on. */
  function RefTargets(r: Ref): set<object> {
    if r.Lazy? then {r.l.events} else {}
  }

  ghost predicate RefValid(r: Ref)
    reads RefState(r), RefTargets(r)
  {
    r.Lazy? ==> r.l.events.Valid()
  }

  /** `ref.onReady(cb)`: `callNow` says that the caller runs `cb` right
      away; otherwise `cb` is queued, once, until the reference is ready. */
  method RefOnReady(r: Ref, cb: Callback) returns (callNow: bool)
    requires RefValid(r)
    modifies RefTargets(r)
    ensures RefValid(r)
    ensures callNow == RefReady(r)
    ensures r.Lazy? && !callNow ==>
      r.l.events.listeners == Added(old(r.l.events.listeners), "ready", cb, true)
    ensures r.Lazy? ==> r.l.events.history == old(r.l.events.history)
    ensures r.Lazy? && callNow ==> r.l.events.listeners == old(r.l.events.listeners)
  {
    if r.Fixed? {
      callNow := r.e.OnReady(cb);
    } else {
      callNow := r.l.OnReady(cb);
    }
  }

  /** A reference's own state is never a document or an event target, and
      the holder of a value is never a document. */
  lemma Apart(r: Ref, o: Observable, d: Document, t: EventTarget)
    ensures d !in RefState(r) && t !in RefState(r) && Holder(o) != d && (t as object) != d
  {
  }

  /** A step that leaves the reference alone keeps its element and its
      readiness. */
  twostate lemma RefKept(r: Ref)
    requires unchanged(RefState(r))
    ensures RefEl(r) == old(RefEl(r)) && RefReady(r) == old(RefReady(r))
  {
  }

  /** `ElementRef`: a reference that is ready from the start. */
  class ElementRef {
    const el: NodeId
    const doc: Document
    const ready: bool
    const events: EventTarget

    constructor(doc: Document, el: NodeId)
      ensures this.el == el && this.doc == doc && ready
      ensures fresh(events) && events.listeners == [] && events.history == []
    {
      this.el := el;
      this.doc := doc;
      ready := true;
      events := new EventTarget();
    }

    /** `onReady(cb)` calls `cb` at once, every time. */
    method OnReady(cb: Callback) returns (callNow: bool)
      ensures callNow
    {
      callNow := true;
    }
  }

  /** `LazyRef`: finds its element inside a renderer's shadow root when the
      renderer has rendered, then announces `ready`. */
  class LazyRef {
    const renderer: ShadowDomRenderer
    const selector: string
    var el: Option<NodeId>
    var ready: bool
    const events: EventTarget

    ghost predicate Valid()
      reads this, events
    {
      events.Valid()
    }

    /** Runs the initialisation at once when the renderer has already
        rendered; otherwise waits for the renderer's next `rendered` event
        with a `once` listener. */
    constructor(renderer: ShadowDomRenderer, selector: string)
      requires renderer.Valid()
      modifies renderer.events
      ensures Valid() && this.renderer == renderer && this.selector == selector
      ensures fresh(events) && events.listeners == []
      ensures renderer.rendered == old(renderer.rendered) && renderer.shadow == old(renderer.shadow)
      ensures old(renderer.rendered) ==>
        (ready && el == renderer.doc.QuerySelector(renderer.shadow.value, selector)
        && events.history == [Event("ready", Null)]
        && renderer.events.listeners == old(renderer.events.listeners))
      ensures !old(renderer.rendered) ==>
        (!ready && el == None && events.history == []
        && renderer.events.listeners == Added(old(renderer.events.listeners), "rendered", Bound(this, LazyInit), true))
      ensures renderer.events.history == old(renderer.events.history)
    {
      this.renderer := renderer;
      this.selector := selector;
      el := None;
      ready := false;
      events := new EventTarget();
      new;
      if renderer.rendered {
        var ok, _ := Init();
      } else {
        renderer.events.AddEventListener("rendered", Bound(this, LazyInit), true);
      }
    }

    /** `onReady(cb)`: `callNow` when the reference is ready, otherwise `cb`
        is queued as a `once` listener of `ready`. */
    method OnReady(cb: Callback) returns (callNow: bool)
      requires Valid()
      modifies events
      ensures Valid() && callNow == ready
      ensures !ready ==> events.listeners == Added(old(events.listeners), "ready", cb, true)
      ensures ready ==> events.listeners == old(events.listeners)
      ensures events.history == old(events.history)
    {
      if ready {
        callNow := true;
      } else {
        events.AddEventListener("ready", cb, true);
        callNow := false;
      }
    }

    /** `#init`: looks the element up in the renderer's shadow root, sets
        `ready` and dispatches `ready`. Without a shadow root the lookup
        throws (`TypeError`) and nothing changes. `ready` never goes back
        to false. */
    method Init() returns (ok: bool, invoked: seq<Callback>)
      requires Valid() && renderer.Valid()
      modifies this, events
      ensures Valid() && ok == renderer.shadow.Some?
      ensures old(ready) ==> ready
      ensures !ok ==> (el == old(el) && ready == old(ready) && invoked == []
        && events.listeners == old(events.listeners) && events.history == old(events.history))
      ensures ok ==> (ready && el == renderer.doc.QuerySelector(renderer.shadow.value, selector)
        && events.history == old(events.history) + [Event("ready", Null)]
        && events.listeners == Dispatched(old(events.listeners), "ready")
        && invoked == Invoked(old(events.listeners), "ready"))
    {
      var found := renderer.QuerySelector(selector);
      if found.None? {
        ok := false;
        invoked := [];
        return;
      }
      ok := true;
      el := found.value;
      ready := true;
      invoked := events.DispatchEvent(Event("ready", Null));
    }
  }

  /** The host can take a shadow root: `attachShadow` does not throw. */
  ghost predicate CanAttach(nodes: map<NodeId, NodeInfo>, h: NodeId) {
    IsElement(nodes, h) && nodes[h].shadow == None
  }

  /** `root` is a new shadow root of `h`, and no other node that existed
      before has changed. */
  ghost predicate Attached(before: map<NodeId, NodeInfo>, after: map<NodeId, NodeInfo>, h: NodeId, root: NodeId) {
    h in before && h in after && root !in before && root in after
    && after[h] == before[h].(shadow := Some(root))
    && forall k :: k in before && k != h ==> k in after && after[k] == before[k]
  }

  /** The children of `root` are, in order, the fresh top-level nodes of a
      clone of each of `sources`, one part per source. */
  ghost predicate Filled(before: map<NodeId, NodeInfo>, after: map<NodeId, NodeInfo>, root: NodeId,
                         parts: seq<seq<NodeId>>, sources: seq<Source>) {
    root in after && |parts| == |sources|
    && after[root].children == Flatten(parts)
    && (forall j :: 0 <= j < |parts| ==> ClonedFrom(after, parts[j], Forest(sources[j])))
    && (forall x :: x in after[root].children ==> x !in before)
  }

  /** One more clone appended to `root` extends what it is filled with. */
  lemma FilledStep(start: map<NodeId, NodeInfo>, before: map<NodeId, NodeInfo>, after: map<NodeId, NodeInfo>,
                   root: NodeId, parts: seq<seq<NodeId>>, sources: seq<Source>, tops: seq<NodeId>, s: Source)
    requires Filled(start, before, root, parts, sources)
    requires forall k :: k in start ==> k in before
    requires forall k :: k in before && k != root ==> k in after && after[k] == before[k]
    requires forall t :: t in tops ==> t !in before
    requires ClonedFrom(after, tops, Forest(s))
    requires root in after && after[root] == before[root].(children := before[root].children + tops)
    ensures Filled(start, after, root, parts + [tops], sources + [s])
  {
    FlattenAppend(parts, tops);
    var ps := parts + [tops];
    var ss := sources + [s];
    assert KindsKept(before, after) by {
      forall k | k in before ensures k in after && after[k].kind == before[k].kind {
      }
    }
    forall j | 0 <= j < |ps| ensures ClonedFrom(after, ps[j], Forest(ss[j])) {
      if j < |parts| {
        assert ps[j] == parts[j] && ss[j] == sources[j];
        ClonedFromKept(before, after, parts[j], Forest(sources[j]));
      }
    }
    forall x | x in after[root].children ensures x !in start {
      if x in tops {
        assert x !in before;
      }
    }
  }

  /** Attaching a shadow root and then filling it gives a host whose only
      change is the new root, a root filled with fresh nodes, and no other
      old node changed. */
  lemma AttachedFilled(start: map<NodeId, NodeInfo>, mid: map<NodeId, NodeInfo>, after: map<NodeId, NodeInfo>,
                       h: NodeId, root: NodeId, parts: seq<seq<NodeId>>, sources: seq<Source>)
    requires h in start && root !in start
    requires mid == start[root := Blank(ShadowRoot, None, [])][h := start[h].(shadow := Some(root))]
    requires forall k :: k in mid && k != root ==> k in after && after[k] == mid[k]
    requires Filled(mid, after, root, parts, sources)
    ensures Attached(start, after, h, root)
    ensures Filled(start, after, root, parts, sources)
  {
    assert h != root;
  }

  /** `ShadowDomRenderer`: attaches a shadow root to the referenced element
      and appends the children's content to it in declared order. */
  class ShadowDomRenderer {
    var rendered: bool
    const ref: Ref
    const children: seq<Source>
    const doc: Document
    var shadow: Option<NodeId>
    const events: EventTarget
    /** The top-level nodes appended for each child, in order. */
    ghost var parts: seq<seq<NodeId>>

    ghost predicate Valid()
      reads this, events, doc
    {
      events.Valid() && doc.Valid()
      && (shadow.Some? ==> shadow.value in doc.nodes)
      && (rendered ==> shadow.Some?)
    }

    constructor(ref: Ref, children: Children)
      requires RefDoc(ref).Valid()
      ensures Valid() && !rendered && shadow == None
      ensures this.ref == ref && this.children == ChildList(children) && doc == RefDoc(ref)
      ensures fresh(events) && events.listeners == [] && events.history == []
    {
      rendered := false;
      this.ref := ref;
      this.children := ChildList(children);
      doc := RefDoc(ref);
      shadow := None;
      parts := [];
      events := new EventTarget();
    }

    /** `render()`: asks the reference to run `#init` when it is ready. It
        has no guard: a second `render()` runs `#init` again. */
    method Render() returns (callNow: bool)
      requires RefValid(ref)
      modifies RefTargets(ref)
      ensures RefValid(ref) && callNow == RefReady(ref)
      ensures ref.Lazy? && !callNow ==>
        ref.l.events.listeners == Added(old(ref.l.events.listeners), "ready", Bound(this, ShadowInit), true)
      ensures ref.Lazy? ==> ref.l.events.history == old(ref.l.events.history)
      ensures ref.Lazy? && callNow ==> ref.l.events.listeners == old(ref.l.events.listeners)
    {
      callNow := RefOnReady(ref, Bound(this, ShadowInit));
    }

    /** `#init`. Throws when the reference has no element (`TypeError`) or
        the element cannot take a shadow root (`NotSupportedError`, which a
        second run on the same element also meets); nothing changes then.
        Otherwise attaches the shadow root, appends a fresh clone of every
        child in declared order, sets `rendered` and dispatches
        `rendered`. Only the host and new nodes are touched. */
    method Init() returns (ok: bool, invoked: seq<Callback>)
      requires Valid() && RefDoc(ref) == doc && RefIn(ref)
      modifies this, events, doc
      ensures Valid()
      ensures ok == (old(RefEl(ref)).Some? && CanAttach(old(doc.nodes), old(RefEl(ref)).value))
      ensures !ok ==> (doc.nodes == old(doc.nodes) && invoked == []
        && rendered == old(rendered) && shadow == old(shadow)
        && events.listeners == old(events.listeners) && events.history == old(events.history))
      ensures ok ==> (shadow.Some?
        && Attached(old(doc.nodes), doc.nodes, old(RefEl(ref)).value, shadow.value)
        && Filled(old(doc.nodes), doc.nodes, shadow.value, parts, children))
      ensures ok ==> (rendered
        && events.history == old(events.history) + [Event("rendered", Null)]
        && events.listeners == Dispatched(old(events.listeners), "rendered")
        && invoked == Invoked(old(events.listeners), "rendered"))
    {
      var host := RefEl(ref);
      if host.None? {
        ok := false;
        invoked := [];
        return;
      }
      var h := host.value;
      ghost var start := doc.nodes;
      var r := doc.AttachShadow(h);
      if r.None? {
        ok := false;
        invoked := [];
        return;
      }
      ok := true;
      ghost var mid := doc.nodes;
      AppendAll(r.value, h);
      AttachedFilled(start, mid, doc.nodes, h, r.value, parts, children);
      shadow, rendered := r, true;
      invoked := events.DispatchEvent(Event("rendered", Null));
    }

    /** The loop of `#init`: `shadow.appendChild(child.createDOM())` for
        every child, in declared order. */
    method AppendAll(root: NodeId, h: NodeId)
      requires doc.Valid() && root in doc.nodes && h in doc.nodes && root != h
      requires doc.nodes[root].children == []
      modifies this`parts, doc
      ensures doc.Valid()
      ensures forall k :: k in old(doc.nodes) && k != root ==> k in doc.nodes && doc.nodes[k] == old(doc.nodes)[k]
      ensures root in doc.nodes && doc.nodes[root] == old(doc.nodes)[root].(children := doc.nodes[root].children)
      ensures Filled(old(doc.nodes), doc.nodes, root, parts, children)
    {
      parts := [];
      var i := 0;
      while i < |children|
        invariant 0 <= i <= |children|
        invariant doc.Valid() && root in doc.nodes
        invariant forall k :: k in old(doc.nodes) && k != root ==> k in doc.nodes && doc.nodes[k] == old(doc.nodes)[k]
        invariant doc.nodes[root] == old(doc.nodes)[root].(children := doc.nodes[root].children)
        invariant Filled(old(doc.nodes), doc.nodes, root, parts, children[..i])
      {
        assert children[..i + 1] == children[..i] + [children[i]];
        ghost var before := doc.nodes;
        var tops := doc.AppendClone(root, Forest(children[i]));
        FilledStep(old(doc.nodes), before, doc.nodes, root, parts, children[..i], tops, children[i]);
        parts := parts + [tops];
        i := i + 1;
      }
      assert children[..i] == children;
    }

    /** `querySelector(selector)` on the shadow root; `None` before
        rendering stands for the `TypeError` of a missing root. */
    function QuerySelector(selector: string): (r: Option<Option<NodeId>>)
      reads this, doc
      ensures r.Some? <==> shadow.Some?
    {
      if shadow.None? then None else Some(doc.QuerySelector(shadow.value, selector))
    }
  }
}
