/** `ListRenderer`: keeps one template clone per entry of an array-valued
    cell under a root element. Each render reconciles the entries it has
    built so far (`#prev`) with the new array by index: entries past the
    new length lose their nodes and their item renderer, entries within
    both get the new value, and array entries past the old length get a
    fresh clone. `#prev` is only ever pushed to. */
module Lists {
  import opened JsValues
  import opened Events
  import opened Dom
  import opened Cells
  import opened Refs

  /** An entry of `#prev`: the top-level nodes its clone added to the root
      and the fresh property handed to its item renderer. The item renderer
      itself is the one made for this entry's position in `#prev`. */
  datatype Item = Item(addedNodes: seq<NodeId>, property: Property)

  /** The entries of the cell value as `length`, `slice` and iteration
      see them: an array's elements, or a string's characters. Anything
      else has no `slice` (`null` and `undefined` not even a `length`), so
      rendering it throws a `TypeError` before any change. */
  function Items(v: Value): (r: Option<seq<Value>>)
    ensures v.Arr? ==> r == Some(v.items)
    ensures v.Str? ==> r.Some? && |r.value| == |v.s| && forall i :: 0 <= i < |v.s| ==> r.value[i] == Str([v.s[i]])
    ensures !v.Arr? && !v.Str? ==> r.None?
  {
    match v
    case Arr(items) => Some(items)
    case Str(s) => Some(seq(|s|, i requires 0 <= i < |s| => Str([s[i]])))
    case _ => None
  }

  /** `prev.slice(n)`. */
  function ToRemove(prev: seq<Item>, n: nat): seq<Item> {
    if n < |prev| then prev[n..] else []
  }

  /** `prev.slice(0, n).length`. */
  function UpdateCount(prev: seq<Item>, n: nat): nat {
    if n < |prev| then n else |prev|
  }

  /** `arr.slice(m)`. */
  function ToAdd(arr: seq<Value>, m: nat): seq<Value> {
    if m < |arr| then arr[m..] else []
  }

  /** The three slices split by index: the updated entries and the removed
      ones make up `#prev` in order, the updated positions and the added
      values make up the array in order, and removing and adding never
      happen in the same render. */
  lemma Partition(prev: seq<Item>, arr: seq<Value>)
    ensures prev[..UpdateCount(prev, |arr|)] + ToRemove(prev, |arr|) == prev
    ensures UpdateCount(prev, |arr|) + |ToAdd(arr, |prev|)| == |arr|
    ensures arr[..UpdateCount(prev, |arr|)] + ToAdd(arr, |prev|) == arr
    ensures ToRemove(prev, |arr|) == [] || ToAdd(arr, |prev|) == []
    ensures |ToRemove(prev, |arr|)| == |prev| - UpdateCount(prev, |arr|)
  {
    if |arr| < |prev| {
      assert prev[..|arr|] + prev[|arr|..] == prev;
    } else {
      assert arr[..|prev|] + arr[|prev|..] == arr;
    }
  }

  /** The outcome of the removal phase: the document, the number of item
      renderers destroyed, and whether no exception was thrown. */
  datatype Removal = Removal(nodes: map<NodeId, NodeInfo>, destroyed: nat, ok: bool)

  /** `p.removeChild(c)` for each `c` of `cs` in order, stopping at the
      first one that is not a child of `p` (`NotFoundError`) or at the
      first one at all when there is no root (`TypeError`). */
  function DetachAll(nodes: map<NodeId, NodeInfo>, p: Option<NodeId>, cs: seq<NodeId>): (map<NodeId, NodeInfo>, bool) {
    if cs == [] then (nodes, true)
    else if p.Some? && p.value in nodes && cs[0] in nodes && nodes[cs[0]].parent == p then
      DetachAll(Detach(nodes, p.value, cs[0]), p, cs[1..])
    else (nodes, false)
  }

  /** One step of `DetachAll` on the nodes from `j` on. */
  lemma DetachAllUnfold(nodes: map<NodeId, NodeInfo>, p: Option<NodeId>, cs: seq<NodeId>, j: nat)
    requires j <= |cs|
    ensures j == |cs| ==> DetachAll(nodes, p, cs[j..]) == (nodes, true)
    ensures j < |cs| && !(p.Some? && p.value in nodes && cs[j] in nodes && nodes[cs[j]].parent == p) ==>
      DetachAll(nodes, p, cs[j..]) == (nodes, false)
    ensures j < |cs| && p.Some? && p.value in nodes && cs[j] in nodes && nodes[cs[j]].parent == p ==>
      DetachAll(nodes, p, cs[j..]) == DetachAll(Detach(nodes, p.value, cs[j]), p, cs[j + 1..])
  {
    if j < |cs| {
      assert cs[j..][0] == cs[j] && cs[j..][1..] == cs[j + 1..];
    }
  }

  /** The first loop of `#render`: for each entry in order, remove its
      nodes, then destroy its item renderer; an exception ends the loop
      with the renderers of the entries before it destroyed. */
  function RemoveAll(nodes: map<NodeId, NodeInfo>, p: Option<NodeId>, items: seq<Item>): Removal
    decreases |items|
  {
    if items == [] then Removal(nodes, 0, true)
    else
      var (n1, ok1) := DetachAll(nodes, p, items[0].addedNodes);
      if !ok1 then Removal(n1, 0, false)
      else
        var r := RemoveAll(n1, p, items[1..]);
        r.(destroyed := r.destroyed + 1)
  }

  /** A removal outcome after `i` more item renderers were destroyed
      before it. */
  function Shifted(r: Removal, i: nat): Removal {
    r.(destroyed := r.destroyed + i)
  }

  /** One step of `RemoveAll` on the entries from `i` on. */
  lemma RemoveAllUnfold(nodes: map<NodeId, NodeInfo>, p: Option<NodeId>, items: seq<Item>, i: nat)
    requires i <= |items|
    ensures i == |items| ==> RemoveAll(nodes, p, items[i..]) == Removal(nodes, 0, true)
    ensures i < |items| && !DetachAll(nodes, p, items[i].addedNodes).1 ==>
      RemoveAll(nodes, p, items[i..]) == Removal(DetachAll(nodes, p, items[i].addedNodes).0, 0, false)
    ensures i < |items| && DetachAll(nodes, p, items[i].addedNodes).1 ==>
      RemoveAll(nodes, p, items[i..]) == Shifted(RemoveAll(DetachAll(nodes, p, items[i].addedNodes).0, p, items[i + 1..]), 1)
  {
    if i < |items| {
      assert items[i..][0] == items[i] && items[i..][1..] == items[i + 1..];
    }
  }

  /** Removing nodes keeps every node and never gives a detached node a
      parent. */
  lemma {:induction false} DetachAllKeeps(nodes: map<NodeId, NodeInfo>, p: Option<NodeId>, cs: seq<NodeId>, x: NodeId)
    ensures DetachAll(nodes, p, cs).0.Keys == nodes.Keys
    ensures x in nodes && nodes[x].parent == None ==> DetachAll(nodes, p, cs).0[x].parent == None
  {
    if cs != [] && p.Some? && p.value in nodes && cs[0] in nodes && nodes[cs[0]].parent == p {
      DetachAllKeeps(Detach(nodes, p.value, cs[0]), p, cs[1..], x);
    }
  }

  /** When every removal succeeds, every node removed is in the document
      and detached afterwards. */
  lemma {:induction false} DetachAllDetaches(nodes: map<NodeId, NodeInfo>, p: Option<NodeId>, cs: seq<NodeId>, i: nat)
    requires DetachAll(nodes, p, cs).1 && i < |cs|
    ensures cs[i] in DetachAll(nodes, p, cs).0 && DetachAll(nodes, p, cs).0[cs[i]].parent == None
  {
    var n1 := Detach(nodes, p.value, cs[0]);
    if i == 0 {
      DetachAllKeeps(n1, p, cs[1..], cs[0]);
    } else {
      DetachAllDetaches(n1, p, cs[1..], i - 1);
    }
  }

  /** The removal phase keeps every node and never gives a detached node a
      parent. */
  lemma {:induction false} RemoveAllKeeps(nodes: map<NodeId, NodeInfo>, p: Option<NodeId>, items: seq<Item>, x: NodeId)
    ensures RemoveAll(nodes, p, items).nodes.Keys == nodes.Keys
    ensures x in nodes && nodes[x].parent == None ==> RemoveAll(nodes, p, items).nodes[x].parent == None
    ensures RemoveAll(nodes, p, items).destroyed <= |items|
    decreases |items|
  {
    if items != [] {
      DetachAllKeeps(nodes, p, items[0].addedNodes, x);
      var (n1, ok1) := DetachAll(nodes, p, items[0].addedNodes);
      if ok1 {
        RemoveAllKeeps(n1, p, items[1..], x);
      }
    }
  }

  /** A removal phase that throws nothing destroys every entry's item
      renderer and leaves every node of every entry detached. */
  lemma {:induction false} RemoveAllDetaches(nodes: map<NodeId, NodeInfo>, p: Option<NodeId>, items: seq<Item>, i: nat, j: nat)
    requires RemoveAll(nodes, p, items).ok && i < |items| && j < |items[i].addedNodes|
    decreases i
    ensures RemoveAll(nodes, p, items).destroyed == |items|
    ensures var c := items[i].addedNodes[j];
      c in RemoveAll(nodes, p, items).nodes && RemoveAll(nodes, p, items).nodes[c].parent == None
  {
    var (n1, ok1) := DetachAll(nodes, p, items[0].addedNodes);
    if i == 0 {
      DetachAllDetaches(nodes, p, items[0].addedNodes, j);
      RemoveAllKeeps(n1, p, items[1..], items[0].addedNodes[j]);
      RemoveAllCount(n1, p, items[1..]);
    } else {
      RemoveAllDetaches(n1, p, items[1..], i - 1, j);
    }
  }

  /** A removal phase that throws nothing destroys every entry's item
      renderer. */
  lemma {:induction false} RemoveAllCount(nodes: map<NodeId, NodeInfo>, p: Option<NodeId>, items: seq<Item>)
    requires RemoveAll(nodes, p, items).ok
    ensures RemoveAll(nodes, p, items).destroyed == |items|
    decreases |items|
  {
    if items != [] {
      var (n1, ok1) := DetachAll(nodes, p, items[0].addedNodes);
      RemoveAllCount(n1, p, items[1..]);
    }
  }

  /** An entry whose first node is already detached makes the removal
      phase throw, at that entry or before it: its item renderer and the
      ones after it are not destroyed. */
  lemma {:induction false} RemovingDetachedFails(nodes: map<NodeId, NodeInfo>, p: Option<NodeId>, items: seq<Item>, k: nat)
    requires k < |items| && items[k].addedNodes != []
    requires var c := items[k].addedNodes[0]; c in nodes ==> nodes[c].parent == None
    ensures !RemoveAll(nodes, p, items).ok && RemoveAll(nodes, p, items).destroyed <= k
    decreases k
  {
    var (n1, ok1) := DetachAll(nodes, p, items[0].addedNodes);
    if k > 0 && ok1 {
      var c := items[k].addedNodes[0];
      DetachAllKeeps(nodes, p, items[0].addedNodes, c);
      assert items[1..][k - 1] == items[k];
      RemovingDetachedFails(n1, p, items[1..], k - 1);
    }
  }

  /** `#prev` is not truncated, so a second shrink goes over the entries
      the first one removed: after a shrink to `m` that threw nothing, a
      shrink to any `k < m` throws (`NotFoundError`) once it reaches an
      entry past `m` with nodes, and never destroys that entry's item
      renderer again. */
  lemma SecondShrinkFails(nodes: map<NodeId, NodeInfo>, p: Option<NodeId>, prev: seq<Item>, m: nat, k: nat, e: nat)
    requires k < m <= e < |prev| && prev[e].addedNodes != []
    requires RemoveAll(nodes, p, ToRemove(prev, m)).ok
    ensures var again := RemoveAll(RemoveAll(nodes, p, ToRemove(prev, m)).nodes, p, ToRemove(prev, k));
      !again.ok && again.destroyed <= e - k
  {
    RemoveAllDetaches(nodes, p, ToRemove(prev, m), e - m, 0);
    assert ToRemove(prev, m)[e - m] == prev[e];
    assert ToRemove(prev, k)[e - k] == prev[e];
    RemovingDetachedFails(RemoveAll(nodes, p, ToRemove(prev, m)).nodes, p, ToRemove(prev, k), e - k);
  }

  /** Growing after a shrink uses the stale length: while the array is no
      longer than `#prev`, nothing is built, and every position below the
      new length is updated in place, including entries a shrink removed,
      whose nodes stay detached. */
  lemma StaleGrowth(nodes: map<NodeId, NodeInfo>, p: Option<NodeId>, prev: seq<Item>, m: nat, arr: seq<Value>, i: nat, j: nat)
    requires m < |prev| && |arr| <= |prev| && m <= i < |arr| && j < |prev[i].addedNodes|
    requires RemoveAll(nodes, p, ToRemove(prev, m)).ok
    ensures ToAdd(arr, |prev|) == [] && ToRemove(prev, |arr|) == prev[|arr|..]
    ensures i < UpdateCount(prev, |arr|)
    ensures var after := RemoveAll(nodes, p, ToRemove(prev, m)).nodes;
      prev[i].addedNodes[j] in after && after[prev[i].addedNodes[j]].parent == None
  {
    RemoveAllDetaches(nodes, p, ToRemove(prev, m), i - m, j);
    assert ToRemove(prev, m)[i - m] == prev[i];
  }

  /** The property of every entry. */
  function Props(items: seq<Item>): set<Property> {
    set i | 0 <= i < |items| :: items[i].property
  }

  /** The event target of every entry's property. */
  function PropTargets(items: seq<Item>): set<EventTarget> {
    set i | 0 <= i < |items| :: items[i].property.events
  }

  /** Every entry has a property of its own, whose event target is valid
      and neither `a` nor `b`. */
  ghost predicate ItemsOk(items: seq<Item>, a: EventTarget, b: EventTarget)
    reads PropTargets(items)
  {
    (forall i :: 0 <= i < |items| ==>
      items[i].property.events in PropTargets(items) && items[i].property.events.Valid()
      && items[i].property.events != a && items[i].property.events != b)
    && (forall i, j :: 0 <= i < j < |items| ==>
      items[i].property != items[j].property && items[i].property.events != items[j].property.events)
  }

  /** What one entry's property holds: its value and its event target's
      history and listeners. */
  datatype PropState = PropState(value: Value, history: seq<Event>, listeners: seq<Registration>)

  ghost function State(q: Property): PropState
    reads q, q.events
  {
    PropState(q.value, q.events.history, q.events.listeners)
  }

  /** What every entry's property holds, in order. */
  ghost function States(items: seq<Item>): (r: seq<PropState>)
    reads Props(items), PropTargets(items)
    ensures |r| == |items|
  {
    seq(|items|, i requires 0 <= i < |items| reads Props(items), PropTargets(items) =>
      assert items[i].property in Props(items) && items[i].property.events in PropTargets(items);
      State(items[i].property))
  }

  /** `set(v)` on a property that held `s`: the value is `v`, one `changed`
      event carrying it went out, and its once-only listeners are gone. */
  function SetStep(s: PropState, v: Value): (r: PropState)
    ensures r.value == v && r.history == s.history + [Event("changed", v)]
    ensures r.listeners == Dispatched(s.listeners, "changed")
  {
    PropState(v, s.history + [Event("changed", v)], Dispatched(s.listeners, "changed"))
  }

  /** The update phase on states: the first `|vals|` properties are set,
      in order, to the values of `vals`; the others are left alone. */
  function Applied(ss: seq<PropState>, vals: seq<Value>): (r: seq<PropState>)
    requires |vals| <= |ss|
    ensures |r| == |ss|
    ensures forall i :: 0 <= i < |vals| ==> r[i] == SetStep(ss[i], vals[i])
    ensures forall i :: |vals| <= i < |ss| ==> r[i] == ss[i]
  {
    seq(|ss|, i requires 0 <= i < |ss| => if i < |vals| then SetStep(ss[i], vals[i]) else ss[i])
  }

  /** Setting one more property extends the update phase by one step. */
  lemma AppliedStep(ss: seq<PropState>, vals: seq<Value>, i: nat)
    requires i < |vals| <= |ss|
    ensures Applied(ss, vals[..i])[i] == ss[i]
    ensures Applied(ss, vals[..i])[i := SetStep(ss[i], vals[i])] == Applied(ss, vals[..i + 1])
  {
    var a := Applied(ss, vals[..i])[i := SetStep(ss[i], vals[i])];
    var b := Applied(ss, vals[..i + 1]);
    assert |a| == |b|;
    forall j | 0 <= j < |a| ensures a[j] == b[j] {
      if j < i {
        assert vals[..i][j] == vals[j] == vals[..i + 1][j];
      }
    }
  }

  /** The callbacks the `changed` dispatches of the first `n` properties
      call, dispatch by dispatch, from the listeners they held before. */
  function Notified(ss: seq<PropState>, n: nat): seq<Callback>
    requires n <= |ss|
  {
    if n == 0 then [] else Notified(ss, n - 1) + Invoked(ss[n - 1].listeners, "changed")
  }

  /** What the properties of new entries hold: the values they were made
      with, and no event or listener yet. */
  function Initial(vals: seq<Value>): (r: seq<PropState>)
    ensures |r| == |vals|
    ensures forall i :: 0 <= i < |vals| ==> r[i] == PropState(vals[i], [], [])
  {
    seq(|vals|, i requires 0 <= i < |vals| => PropState(vals[i], [], []))
  }

  /** The top-level nodes of each entry, in order. */
  function Parts(items: seq<Item>): seq<seq<NodeId>> {
    seq(|items|, i requires 0 <= i < |items| => items[i].addedNodes)
  }

  /** The root's children grew by the fresh top-level nodes of a clone of
      `ms` for each of `parts`, in order, and no other node that existed
      before changed. */
  ghost predicate Grown(before: map<NodeId, NodeInfo>, after: map<NodeId, NodeInfo>, root: NodeId,
                        parts: seq<seq<NodeId>>, ms: seq<Markup>) {
    root in before && root in after
    && after[root] == before[root].(children := before[root].children + Flatten(parts))
    && (forall k :: k in before && k != root ==> k in after && after[k] == before[k])
    && (forall j :: 0 <= j < |parts| ==> ClonedFrom(after, parts[j], ms))
    && (forall x :: x in Flatten(parts) ==> x !in before)
  }

  /** One more clone appended to the root extends how it grew. */
  lemma GrownStep(start: map<NodeId, NodeInfo>, before: map<NodeId, NodeInfo>, after: map<NodeId, NodeInfo>,
                  root: NodeId, parts: seq<seq<NodeId>>, ms: seq<Markup>, tops: seq<NodeId>)
    requires Grown(start, before, root, parts, ms)
    requires forall k :: k in before && k != root ==> k in after && after[k] == before[k]
    requires forall t :: t in tops ==> t !in before
    requires ClonedFrom(after, tops, ms)
    requires root in after && after[root] == before[root].(children := before[root].children + tops)
    ensures Grown(start, after, root, parts + [tops], ms)
  {
    FlattenAppend(parts, tops);
    var ps := parts + [tops];
    assert KindsKept(before, after) by {
      forall k | k in before ensures k in after && after[k].kind == before[k].kind {
      }
    }
    forall j | 0 <= j < |ps| ensures ClonedFrom(after, ps[j], ms) {
      if j < |parts| {
        assert ps[j] == parts[j];
        ClonedFromKept(before, after, parts[j], ms);
      }
    }
    forall x | x in Flatten(ps) ensures x !in start {
      if x in tops {
        assert x !in before;
      }
    }
  }

  /** Entries pushed one at a time: the bookkeeping of one step. */
  lemma AppendOne(prev0: seq<Item>, added: seq<Item>, pushed: seq<Item>, item: Item)
    requires pushed == [item] || (|pushed| == 1 && item == pushed[0])
    ensures pushed == [item]
    ensures prev0 + added + pushed == prev0 + (added + pushed)
    ensures Parts(added + pushed) == Parts(added) + [item.addedNodes]
  {
    assert pushed == [item];
    assert Parts(added + pushed) == Parts(added) + [item.addedNodes];
  }

  lemma TakeOneMore<T>(s: seq<T>, i: nat)
    requires i <= |s|
    ensures i < |s| ==> s[..i] + [s[i]] == s[..i + 1]
    ensures s[..|s|] == s
  {
    if i < |s| {
      assert s[..i] + [s[i]] == s[..i + 1];
    }
  }

  lemma InitialPush(vs: seq<Value>, v: Value)
    ensures Initial(vs + [v]) == Initial(vs) + [PropState(v, [], [])]
  {
    assert Initial(vs + [v]) == Initial(vs) + [PropState(v, [], [])];
  }

  /** The states of one more entry are the old ones and the new entry's. */
  lemma StatesPush(a: seq<Item>, x: Item)
    ensures States(a + [x]) == States(a) + [State(x.property)]
  {
    var b := a + [x];
    forall i | 0 <= i < |b| ensures States(b)[i] == (States(a) + [State(x.property)])[i] {
      if i < |a| {
        assert b[i] == a[i];
      }
    }
  }

  /** The targets the entries' properties use are neither of the two that
      `ItemsOk` keeps them apart from. */
  lemma NotAProp(items: seq<Item>, a: EventTarget, b: EventTarget)
    requires ItemsOk(items, a, b)
    ensures a !in PropTargets(items) && b !in PropTargets(items)
  {
  }

  lemma PropsAppend(a: seq<Item>, b: seq<Item>)
    ensures Props(a + b) == Props(a) + Props(b)
    ensures PropTargets(a + b) == PropTargets(a) + PropTargets(b)
  {
    var c := a + b;
    forall x | x in Props(a) ensures x in Props(c) {
      var i :| 0 <= i < |a| && a[i].property == x;
      assert c[i] == a[i];
    }
    forall x | x in Props(b) ensures x in Props(c) {
      var i :| 0 <= i < |b| && b[i].property == x;
      assert c[|a| + i] == b[i];
    }
    forall x | x in PropTargets(a) ensures x in PropTargets(c) {
      var i :| 0 <= i < |a| && a[i].property.events == x;
      assert c[i] == a[i];
    }
    forall x | x in PropTargets(b) ensures x in PropTargets(c) {
      var i :| 0 <= i < |b| && b[i].property.events == x;
      assert c[|a| + i] == b[i];
    }
  }

  /** A step that leaves the entries' properties alone keeps their
      states. */
  twostate lemma StatesKept(items: seq<Item>)
    requires forall i :: 0 <= i < |items| ==> unchanged(items[i].property, items[i].property.events)
    ensures States(items) == old(States(items))
  {
  }

  /** The entries' properties and their event targets are neither the
      state of a reference nor a document. */
  lemma ApartItems(r: Ref, d: Document, items: seq<Item>)
    ensures forall o :: o in RefState(r) ==> o !in Props(items) && o !in PropTargets(items)
    ensures forall i :: 0 <= i < |items| ==> (items[i].property as object) != d && (items[i].property.events as object) != d
  {
  }

  lemma StatesAppend(a: seq<Item>, b: seq<Item>)
    ensures States(a + b) == States(a) + States(b)
  {
    var c := a + b;
    forall i | 0 <= i < |c| ensures States(c)[i] == (States(a) + States(b))[i] {
      if i < |a| {
        assert c[i] == a[i];
      } else {
        assert c[i] == b[i - |a|];
      }
    }
  }

  lemma SplitEq<T>(a: seq<T>, b: seq<T>, c: seq<T>, d: seq<T>)
    requires a + b == c + d && |a| == |c|
    ensures a == c && b == d
  {
    assert a == (a + b)[..|a|] && c == (c + d)[..|c|];
    assert b == (a + b)[|a|..] && d == (c + d)[|c|..];
  }

  /** A document is never the state of a reference. */
  lemma DocNotRef(r: Ref, d: Document)
    ensures d !in RefState(r)
  {
  }

  /** The inner loop of the removal phase: `rootRef.el.removeChild(node)`
      for each node of one entry, in order; the first failure ends it. */
  method DetachNodes(r: Ref, doc: Document, cs: seq<NodeId>) returns (ok: bool)
    requires doc.Valid() && doc == RefDoc(r) && RefIn(r)
    modifies doc
    ensures doc.Valid() && RefIn(r)
    ensures doc.nodes == DetachAll(old(doc.nodes), RefEl(r), cs).0
    ensures ok == DetachAll(old(doc.nodes), RefEl(r), cs).1
  {
    DocNotRef(r, doc);
    ghost var p := RefEl(r);
    ghost var res := DetachAll(doc.nodes, p, cs);
    ok := true;
    var j := 0;
    while j < |cs|
      invariant 0 <= j <= |cs|
      invariant doc.Valid() && doc.nodes.Keys == old(doc.nodes).Keys
      invariant res == DetachAll(doc.nodes, p, cs[j..])
    {
      DetachAllUnfold(doc.nodes, p, cs, j);
      var el := RefEl(r);
      if el.None? {
        ok := false;
        break;
      }
      var removed := doc.RemoveChild(el.value, cs[j]);
      if !removed {
        ok := false;
        break;
      }
      j := j + 1;
    }
    DetachAllUnfold(doc.nodes, p, cs, j);
  }

  /** The removal phase: for each entry in order, remove its nodes from
      the root and then call its item renderer's `destroy()`; `destroyed`
      counts those calls, made for the first `destroyed` entries. */
  method RemoveItems(r: Ref, doc: Document, items: seq<Item>) returns (destroyed: nat, ok: bool)
    requires doc.Valid() && doc == RefDoc(r) && RefIn(r)
    modifies doc
    ensures doc.Valid() && RefIn(r)
    ensures Removal(doc.nodes, destroyed, ok) == RemoveAll(old(doc.nodes), RefEl(r), items)
  {
    DocNotRef(r, doc);
    ghost var p := RefEl(r);
    ghost var res := RemoveAll(doc.nodes, p, items);
    destroyed := 0;
    var i := 0;
    while i < |items|
      invariant 0 <= i <= |items| && destroyed == i
      invariant doc.Valid() && RefIn(r)
      invariant res == Shifted(RemoveAll(doc.nodes, p, items[i..]), i)
    {
      RemoveAllUnfold(doc.nodes, p, items, i);
      ok := DetachNodes(r, doc, items[i].addedNodes);
      if !ok {
        return;
      }
      destroyed := destroyed + 1;
      i := i + 1;
    }
    RemoveAllUnfold(doc.nodes, p, items, i);
    ok := true;
  }

  /** What one `#render` did, begun on the document `before` with the
      entries `prev0`, whose properties held `states0`, the root element
      `p` and the cell value `v`, and ending with the document `after`,
      those properties holding `states1` and the new entries' properties
      holding `born`, their nodes being `parts`. A value with no entries
      throws before any change. Otherwise the entries past the new length
      are removed (`RemoveAll`), and when that throws nothing more
      happens; else the entries within both lengths get the new values,
      each `set` calling its `changed` listeners (`invoked`), and the
      values past the old length become new entries under the root, which
      throws when there is no root element and something to add. */
  ghost predicate Reconciled(before: map<NodeId, NodeInfo>, after: map<NodeId, NodeInfo>, prev0: seq<Item>,
                             states0: seq<PropState>, states1: seq<PropState>, born: seq<PropState>,
                             parts: seq<seq<NodeId>>, ms: seq<Markup>, p: Option<NodeId>, v: Value,
                             ok: bool, destroyed: nat, invoked: seq<Callback>)
  {
    |states0| == |prev0|
    && match Items(v)
       case None =>
         !ok && destroyed == 0 && invoked == [] && parts == [] && after == before && states1 == states0
       case Some(arr) =>
         var rm := RemoveAll(before, p, ToRemove(prev0, |arr|));
         var n := UpdateCount(prev0, |arr|);
         destroyed == rm.destroyed
         && (!rm.ok ==> !ok && invoked == [] && parts == [] && after == rm.nodes && states1 == states0)
         && (rm.ok ==>
              ok == (ToAdd(arr, |prev0|) == [] || p.Some?)
              && states1 == Applied(states0, arr[..n])
              && invoked == Notified(states0, n)
              && (p.None? ==> parts == [] && after == rm.nodes)
              && (p.Some? ==>
                   born == Initial(ToAdd(arr, |prev0|))
                   && Grown(rm.nodes, after, p.value, parts, ms)))
  }

  /** A render that got past the removal phase, put together from its
      three phases. */
  lemma ReconciledAll(before: map<NodeId, NodeInfo>, mid: map<NodeId, NodeInfo>, after: map<NodeId, NodeInfo>,
                      prev0: seq<Item>, states0: seq<PropState>, states1: seq<PropState>, born: seq<PropState>,
                      parts: seq<seq<NodeId>>, ms: seq<Markup>, p: Option<NodeId>, v: Value, arr: seq<Value>,
                      ok: bool, destroyed: nat, invoked: seq<Callback>)
    requires |states0| == |prev0| && Items(v) == Some(arr)
    requires Removal(mid, destroyed, true) == RemoveAll(before, p, ToRemove(prev0, |arr|))
    requires states1 == Applied(states0, arr[..UpdateCount(prev0, |arr|)])
    requires invoked == Notified(states0, UpdateCount(prev0, |arr|))
    requires ok == (ToAdd(arr, |prev0|) == [] || p.Some?)
    requires p.None? ==> parts == [] && after == mid
    requires p.Some? ==> born == Initial(ToAdd(arr, |prev0|)) && Grown(mid, after, p.value, parts, ms)
    ensures Reconciled(before, after, prev0, states0, states1, born, parts, ms, p, v, ok, destroyed, invoked)
  {
  }

  /** A render that threw nothing, position by position: it destroyed the
      item renderer of every entry at or past the new length, every entry
      below both lengths holds its array value (one more `changed` event,
      the `once` listeners gone) while the entries past the new length keep
      their state, and with a root element one new entry per array value
      past the old length was built, holding that value and nothing else.
      Without a root element there was nothing to add. */
  lemma ReconciledSpec(before: map<NodeId, NodeInfo>, after: map<NodeId, NodeInfo>, prev0: seq<Item>,
                       states0: seq<PropState>, states1: seq<PropState>, born: seq<PropState>,
                       parts: seq<seq<NodeId>>, ms: seq<Markup>, p: Option<NodeId>, v: Value,
                       destroyed: nat, invoked: seq<Callback>, arr: seq<Value>)
    requires Items(v) == Some(arr)
    requires Reconciled(before, after, prev0, states0, states1, born, parts, ms, p, v, true, destroyed, invoked)
    ensures destroyed == |prev0| - UpdateCount(prev0, |arr|)
    ensures |states1| == |prev0|
    ensures forall i :: 0 <= i < |prev0| ==>
      states1[i] == (if i < |arr| then SetStep(states0[i], arr[i]) else states0[i])
    ensures p.None? ==> |arr| <= |prev0|
    ensures p.Some? ==> |prev0| + |born| == (if |arr| < |prev0| then |prev0| else |arr|)
    ensures p.Some? ==> forall k :: 0 <= k < |born| ==> born[k] == PropState(arr[|prev0| + k], [], [])
  {
    Partition(prev0, arr);
    var rm := RemoveAll(before, p, ToRemove(prev0, |arr|));
    if !rm.ok {
      assert false;
    }
    RemoveAllCount(before, p, ToRemove(prev0, |arr|));
  }

  /** The renderer is not the state of its root reference. */
  lemma RendererApart(c: ListRenderer, r: Ref)
    ensures c !in RefState(r)
  {
  }

  /** `ListRenderer`. */
  class ListRenderer {
    var rendered: bool
    const rootRef: Ref
    /** The template whose `createDOM()` each new entry appends. */
    const template: Source
    const list: Observable
    const doc: Document
    /** `#prev`. */
    var prev: seq<Item>
    const events: EventTarget

    ghost predicate Valid()
      reads this`prev, events, Target(list), doc, RefState(rootRef), PropTargets(prev)
    {
      events.Valid() && Target(list).Valid() && events != Target(list)
      && doc.Valid() && doc == RefDoc(rootRef) && RefIn(rootRef)
      && ItemsOk(prev, events, Target(list))
    }

    constructor(rootRef: Ref, template: Source, list: Observable)
      requires Target(list).Valid() && RefDoc(rootRef).Valid() && RefIn(rootRef)
      ensures Valid() && !rendered && prev == []
      ensures this.rootRef == rootRef && this.template == template && this.list == list
      ensures fresh(events) && events.listeners == [] && events.history == []
    {
      rendered := false;
      this.rootRef := rootRef;
      this.template := template;
      this.list := list;
      doc := RefDoc(rootRef);
      prev := [];
      events := new EventTarget();
    }

    /** The constructor's closing `rootRef.onReady(this.#init)`: when
        `callNow` the caller runs `Init` at once. */
    method Start() returns (callNow: bool)
      requires RefValid(rootRef)
      modifies RefTargets(rootRef)
      ensures RefValid(rootRef) && callNow == RefReady(rootRef)
      ensures rootRef.Lazy? && !callNow ==>
        rootRef.l.events.listeners == Added(old(rootRef.l.events.listeners), "ready", Bound(this, ListInit), true)
      ensures rootRef.Lazy? ==> rootRef.l.events.history == old(rootRef.l.events.history)
      ensures rootRef.Lazy? && callNow ==> rootRef.l.events.listeners == old(rootRef.l.events.listeners)
    {
      callNow := RefOnReady(rootRef, Bound(this, ListInit));
    }

    /** One step of the update phase: `prev[i].property.set(v)`. */
    method UpdateOne(i: nat, v: Value) returns (more: seq<Callback>)
      requires Valid() && i < |prev|
      modifies prev[i].property, prev[i].property.events
      ensures Valid()
      ensures States(prev) == old(States(prev))[i := SetStep(old(States(prev))[i], v)]
      ensures more == Invoked(old(States(prev))[i].listeners, "changed")
    {
      var q := prev[i].property;
      assert q.events in PropTargets(prev);
      ghost var before := States(prev);
      more := q.Set(v);
      ghost var after := before[i := SetStep(before[i], v)];
      forall j | 0 <= j < |prev| ensures States(prev)[j] == after[j] {
        if j < i {
          assert prev[j].property != q;
        } else if j > i {
          assert prev[j].property != q;
        }
      }
    }

    /** The update phase: `prev[i].property.set(vals[i])` for each position
        of `vals`, in order; `invoked` lists the `changed` listeners those
        dispatches call, dispatch by dispatch. */
    method UpdateItems(vals: seq<Value>) returns (invoked: seq<Callback>)
      requires Valid() && |vals| <= |prev|
      modifies Props(prev), PropTargets(prev)
      ensures Valid()
      ensures States(prev) == Applied(old(States(prev)), vals)
      ensures invoked == Notified(old(States(prev)), |vals|)
    {
      ghost var start := States(prev);
      invoked := [];
      for i := 0 to |vals|
        invariant Valid()
        invariant States(prev) == Applied(start, vals[..i])
        invariant invoked == Notified(start, i)
      {
        assert prev[i].property in Props(prev) && prev[i].property.events in PropTargets(prev);
        AppliedStep(start, vals, i);
        var more := UpdateOne(i, vals[i]);
        invoked := invoked + more;
      }
      TakeOneMore(vals, |vals|);
    }

    /** One step of the add phase: `template.createDOM()` is appended to the
        root element, the children past the old count become the entry's
        `addedNodes`, and the entry gets a new property holding `v`;
        `TypeError` when the reference has no element. `pushed` is what
        went onto `#prev`. */
    method AddOne(v: Value) returns (ok: bool, ghost pushed: seq<Item>)
      requires Valid()
      modifies this`prev, doc
      ensures Valid()
      ensures ok == old(RefEl(rootRef)).Some?
      ensures RefEl(rootRef) == old(RefEl(rootRef))
      ensures prev == old(prev) + pushed
      ensures !ok ==> doc.nodes == old(doc.nodes) && pushed == []
      ensures ok ==> (|pushed| == 1 && fresh(pushed[0].property)
        && State(pushed[0].property) == PropState(v, [], []))
      ensures ok ==> (var root, t := old(RefEl(rootRef)).value, pushed[0].addedNodes;
        root in old(doc.nodes) && root in doc.nodes
        && doc.nodes[root] == old(doc.nodes[root]).(children := old(doc.nodes[root].children) + t)
        && (forall k :: k in old(doc.nodes) && k != root ==> k in doc.nodes && doc.nodes[k] == old(doc.nodes[k]))
        && (forall x :: x in t ==> x !in old(doc.nodes))
        && ClonedFrom(doc.nodes, t, Forest(template)))
    {
      var el := RefEl(rootRef);
      if el.None? {
        ok := false;
        pushed := [];
        return;
      }
      ok := true;
      var addedNodes := AppendTemplate(el.value);
      var item := Push(addedNodes, v);
      pushed := [item];
      RefKept(rootRef);
    }

    /** `appendChild(template.createDOM())` on the root element `root`;
        `addedNodes` are the children past the count taken before. */
    method AppendTemplate(root: NodeId) returns (addedNodes: seq<NodeId>)
      requires Valid() && RefEl(rootRef) == Some(root)
      modifies doc
      ensures Valid() && RefEl(rootRef) == Some(root)
      ensures root in doc.nodes && doc.nodes[root] == old(doc.nodes[root]).(children := old(doc.nodes[root].children) + addedNodes)
      ensures forall k :: k in old(doc.nodes) && k != root ==> k in doc.nodes && doc.nodes[k] == old(doc.nodes[k])
      ensures forall x :: x in addedNodes ==> x !in old(doc.nodes)
      ensures ClonedFrom(doc.nodes, addedNodes, Forest(template))
    {
      Apart(rootRef, list, doc, events);
      Apart(rootRef, list, doc, Target(list));
      var before := |doc.nodes[root].children|;
      var tops := doc.AppendClone(root, Forest(template));
      addedNodes := doc.nodes[root].children[before..];
      assert addedNodes == tops;
      StillValid(events);
      StillValid(Target(list));
      RefKept(rootRef);
    }

    /** `#prev.push(...)` of the entry `item`, with the nodes `addedNodes`
        and a new property holding `v`. */
    method Push(addedNodes: seq<NodeId>, v: Value) returns (item: Item)
      requires Valid()
      modifies this`prev
      ensures Valid() && prev == old(prev) + [item]
      ensures item.addedNodes == addedNodes && fresh(item.property)
      ensures State(item.property) == PropState(v, [], [])
    {
      var property := new Property(v);
      item := Item(addedNodes, property);
      prev := prev + [item];
      assert ItemsOk(prev, events, Target(list)) by {
        forall i | 0 <= i < |prev| ensures prev[i].property.events in PropTargets(prev) {
        }
        forall i | 0 <= i < |prev| - 1 ensures prev[i].property.events.Valid() {
          assert prev[i] == old(prev)[i];
          assert prev[i].property.events in old(PropTargets(prev));
        }
      }
    }

    /** The add phase so far, begun on the document `start` with the
        entries `prev0` and the root element `p`: the entries `added`
        follow `prev0`, their properties hold the values `vs`, and the root
        grew by their nodes. */
    ghost predicate Adding(start: map<NodeId, NodeInfo>, prev0: seq<Item>, p: Option<NodeId>,
                           vs: seq<Value>, added: seq<Item>)
      reads this, doc, Props(added), PropTargets(added)
    {
      prev == prev0 + added && States(added) == Initial(vs)
      && (p.None? ==> added == [] && doc.nodes == start)
      && (p.Some? ==> Grown(start, doc.nodes, p.value, Parts(added), Forest(template)))
    }

    /** `AddOne` as one step of the add phase. */
    method AddNext(v: Value, ghost start: map<NodeId, NodeInfo>, ghost prev0: seq<Item>, ghost vs: seq<Value>,
                   ghost added: seq<Item>)
      returns (ok: bool, ghost added': seq<Item>)
      requires Valid() && Adding(start, prev0, RefEl(rootRef), vs, added)
      modifies this`prev, doc
      ensures Valid() && RefEl(rootRef) == old(RefEl(rootRef))
      ensures ok == RefEl(rootRef).Some?
      ensures !ok ==> doc.nodes == old(doc.nodes) && prev == old(prev)
      ensures ok ==> Adding(start, prev0, RefEl(rootRef), vs + [v], added')
    {
      ghost var before := doc.nodes;
      ghost var states := States(added);
      ghost var pushed;
      ok, pushed := AddOne(v);
      added' := added + pushed;
      if !ok {
        return;
      }
      ghost var item := pushed[0];
      AppendOne(prev0, added, pushed, item);
      GrownStep(start, before, doc.nodes, RefEl(rootRef).value, Parts(added), Forest(template), item.addedNodes);
      assert States(added) == states;
      StatesPush(added, item);
      InitialPush(vs, v);
    }

    /** The add phase: one `AddOne` per value of `vals`, in order; the first
        failure ends it, and fails at once since the root element does not
        change in between. `added` are the new entries. */
    method AddItems(vals: seq<Value>) returns (ok: bool, ghost added: seq<Item>)
      requires Valid()
      modifies this`prev, doc
      ensures Valid()
      ensures ok == (vals == [] || old(RefEl(rootRef)).Some?)
      ensures old(RefEl(rootRef)).None? ==> doc.nodes == old(doc.nodes) && prev == old(prev)
      ensures old(RefEl(rootRef)).Some? ==> (prev == old(prev) + added && States(added) == Initial(vals)
        && Grown(old(doc.nodes), doc.nodes, old(RefEl(rootRef)).value, Parts(added), Forest(template)))
    {
      ghost var p := RefEl(rootRef);
      added := [];
      ok := true;
      for i := 0 to |vals|
        invariant Valid() && RefEl(rootRef) == p
        invariant Adding(old(doc.nodes), old(prev), p, vals[..i], added)
      {
        ok, added := AddNext(vals[i], old(doc.nodes), old(prev), vals[..i], added);
        if !ok {
          return;
        }
        TakeOneMore(vals, i);
      }
      TakeOneMore(vals, |vals|);
    }

    /** What one `#render` did, begun on the document `before` with the
        entries `prev0`, whose properties held `states0`, the root element
        `p` and the cell value `v`: `added` are the entries it pushed, and
        `Reconciled` relates the rest. */
    ghost predicate Rendered(before: map<NodeId, NodeInfo>, prev0: seq<Item>, states0: seq<PropState>,
                             p: Option<NodeId>, v: Value,
                             ok: bool, destroyed: nat, invoked: seq<Callback>, added: seq<Item>)
      reads this`prev, doc, Props(prev0), PropTargets(prev0), Props(added), PropTargets(added)
    {
      prev == prev0 + added
      && Reconciled(before, doc.nodes, prev0, states0, States(prev0), States(added), Parts(added),
                    Forest(template), p, v, ok, destroyed, invoked)
    }

    /** The removal phase of `#render` for the entries `a`. */
    method RemovePhase(a: seq<Value>) returns (destroyed: nat, ok: bool)
      requires Valid()
      modifies doc
      ensures Valid() && RefEl(rootRef) == old(RefEl(rootRef))
      ensures States(prev) == old(States(prev))
      ensures Removal(doc.nodes, destroyed, ok) == RemoveAll(old(doc.nodes), RefEl(rootRef), ToRemove(prev, |a|))
    {
      DocNotRef(rootRef, doc);
      destroyed, ok := RemoveItems(rootRef, doc, ToRemove(prev, |a|));
    }

    /** The update and add phases of `#render` for the entries `a`, once
        the removal phase is through. */
    method UpdateAndAdd(a: seq<Value>) returns (ok: bool, invoked: seq<Callback>, ghost added: seq<Item>)
      requires Valid()
      modifies this`prev, doc, Props(prev), PropTargets(prev)
      ensures Valid() && RefEl(rootRef) == old(RefEl(rootRef))
      ensures events.listeners == old(events.listeners) && events.history == old(events.history)
      ensures Target(list).listeners == old(Target(list).listeners) && Target(list).history == old(Target(list).history)
      ensures prev == old(prev) + added
      ensures States(old(prev)) == Applied(old(States(prev)), a[..UpdateCount(old(prev), |a|)])
      ensures invoked == Notified(old(States(prev)), UpdateCount(old(prev), |a|))
      ensures ok == (ToAdd(a, |old(prev)|) == [] || old(RefEl(rootRef)).Some?)
      ensures old(RefEl(rootRef)).None? ==> added == [] && doc.nodes == old(doc.nodes)
      ensures old(RefEl(rootRef)).Some? ==>
        States(added) == Initial(ToAdd(a, |old(prev)|))
        && Grown(old(doc.nodes), doc.nodes, old(RefEl(rootRef)).value, Parts(added), Forest(template))
    {
      ghost var p := RefEl(rootRef);
      ApartItems(rootRef, doc, prev);
      Apart(rootRef, list, doc, Target(list));
      Apart(rootRef, list, doc, events);
      NotAProp(prev, events, Target(list));
      invoked := UpdateItems(a[..UpdateCount(prev, |a|)]);
      assert RefEl(rootRef) == p && doc.nodes == old(doc.nodes);
      assert Target(list).listeners == old(Target(list).listeners) && Target(list).history == old(Target(list).history);
      ghost var prev0 := prev;
      label Updated:
      ok, added := AddItems(ToAdd(a, |prev|));
      StatesKept@Updated(prev0);
      if p.None? {
        added := [];
        assert prev == prev0 + added;
      }
    }

    /** `#render`: reconciles `#prev` with the current cell value; `ok`
        is false when it throws. The event targets of the renderer and of
        the cell are left alone. */
    method Render() returns (ok: bool, destroyed: nat, invoked: seq<Callback>, ghost added: seq<Item>)
      requires Valid()
      modifies this`prev, doc, Props(prev), PropTargets(prev)
      ensures Valid() && RefEl(rootRef) == old(RefEl(rootRef))
      ensures events.listeners == old(events.listeners) && events.history == old(events.history)
      ensures Target(list).listeners == old(Target(list).listeners) && Target(list).history == old(Target(list).history)
      ensures Rendered(old(doc.nodes), old(prev), old(States(prev)), old(RefEl(rootRef)), old(Get(list)),
                       ok, destroyed, invoked, added)
    {
      Apart(rootRef, list, doc, Target(list));
      Apart(rootRef, list, doc, events);
      NotAProp(prev, events, Target(list));
      ghost var before, prev0, states0, p := doc.nodes, prev, States(prev), RefEl(rootRef);
      var v := Get(list);
      var arr := Items(v);
      if arr.None? {
        ok, destroyed, invoked, added := false, 0, [], [];
        assert prev == prev0 + added;
        return;
      }
      var a := arr.value;
      destroyed, ok := RemovePhase(a);
      ghost var mid := doc.nodes;
      if !ok {
        invoked, added := [], [];
        assert prev == prev0 + added;
        return;
      }
      ok, invoked, added := UpdateAndAdd(a);
      ReconciledAll(before, mid, doc.nodes, prev0, states0, States(prev0), States(added), Parts(added),
                    Forest(template), p, v, a, ok, destroyed, invoked);
    }

    /** `#init`: the render first, then `#render` subscribed to the cell's
        `changed` event, `rendered` set and the `rendered` event; when the
        render throws, none of the rest happens. `changed` lists the
        listeners the render's `set` calls invoked, `invoked` the
        `rendered` listeners. */
    method Init() returns (ok: bool, destroyed: nat, changed: seq<Callback>, invoked: seq<Callback>,
                           ghost added: seq<Item>)
      requires Valid()
      modifies this, doc, Props(prev), PropTargets(prev), Target(list), events
      ensures Valid()
      ensures Rendered(old(doc.nodes), old(prev), old(States(prev)), old(RefEl(rootRef)), old(Get(list)),
                       ok, destroyed, changed, added)
      ensures Target(list).history == old(Target(list).history)
      ensures !ok ==> (rendered == old(rendered) && invoked == []
        && Target(list).listeners == old(Target(list).listeners)
        && events.listeners == old(events.listeners) && events.history == old(events.history))
      ensures ok ==> (rendered
        && Target(list).listeners == Added(old(Target(list).listeners), "changed", Bound(this, ListRender), false)
        && events.history == old(events.history) + [Event("rendered", Null)]
        && events.listeners == Dispatched(old(events.listeners), "rendered")
        && invoked == Invoked(old(events.listeners), "rendered"))
    {
      ghost var prev0 := prev;
      NotAProp(prev, events, Target(list));
      ok, destroyed, changed, added := Render();
      if !ok {
        invoked := [];
        return;
      }
      PropsAppend(prev0, added);
      StatesAppend(prev0, added);
      ghost var s0, sa := States(prev0), States(added);
      Subscribe();
      invoked := Announce();
      StatesAppend(prev0, added);
      SplitEq(States(prev0), States(added), s0, sa);
    }

    /** `list.addEventListener("changed", this.#render)`. */
    method Subscribe()
      requires Valid()
      modifies Target(list)
      ensures Valid()
      ensures Target(list).listeners == Added(old(Target(list).listeners), "changed", Bound(this, ListRender), false)
      ensures Target(list).history == old(Target(list).history)
      ensures States(prev) == old(States(prev))
    {
      var t := Target(list);
      NotAProp(prev, events, t);
      t.AddEventListener("changed", Bound(this, ListRender), false);
      StillValid(events);
      StatesKept(prev);
    }

    /** `rendered = true` and the `rendered` event. */
    method Announce() returns (invoked: seq<Callback>)
      requires Valid()
      modifies this`rendered, events
      ensures Valid() && rendered
      ensures Target(list).listeners == old(Target(list).listeners) && Target(list).history == old(Target(list).history)
      ensures events.history == old(events.history) + [Event("rendered", Null)]
      ensures events.listeners == Dispatched(old(events.listeners), "rendered")
      ensures invoked == Invoked(old(events.listeners), "rendered")
      ensures States(prev) == old(States(prev))
    {
      NotAProp(prev, events, Target(list));
      rendered := true;
      invoked := events.DispatchEvent(Event("rendered", Null));
      StillValid(Target(list));
      StatesKept(prev);
    }

    /** `destroy()`: unsubscribes `#render`, which no later `changed`
        dispatch calls. The item renderers are left as they are. */
    method Destroy()
      requires Valid()
      modifies Target(list)
      ensures Valid()
      ensures Target(list).listeners == Removed(old(Target(list).listeners), "changed", Bound(this, ListRender))
      ensures Bound(this, ListRender) !in Invoked(Target(list).listeners, "changed")
      ensures Target(list).history == old(Target(list).history)
    {
      NotAProp(prev, events, Target(list));
      Target(list).RemoveEventListener("changed", Bound(this, ListRender));
      StillValid(events);
    }
  }
}
