/** An abstract DOM: a map from node ids to node records. Each record knows
    its kind, its parent, its ordered child list, its shadow root, and what
    the framework writes on it (text content, attributes, fields, native
    event listeners). Selector matching is left uninterpreted. */
module Dom {
  import opened JsValues
  import opened Events

  type NodeId = nat

  datatype NodeKind = Element(tag: string) | Text(data: string) | ShadowRoot

  datatype NodeInfo = NodeInfo(
    kind: NodeKind,
    parent: Option<NodeId>,
    children: seq<NodeId>,
    shadow: Option<NodeId>,
    text: Option<Value>,
    attributes: map<string, Value>,
    fields: map<string, Value>,
    listeners: seq<Registration>)

  /** A node as `createElement`, `createTextNode` or a clone makes it. */
  function Blank(kind: NodeKind, parent: Option<NodeId>, children: seq<NodeId>): NodeInfo {
    NodeInfo(kind, parent, children, None, None, map[], map[], [])
  }

  /** The content of a template or a style tag: what `createDOM()` clones. */
  datatype Markup = Markup(kind: NodeKind, kids: seq<Markup>)

  /** The number of nodes in a forest of markup. */
  function ForestSize(ms: seq<Markup>): nat
    decreases ms
  {
    if ms == [] then 0 else 1 + ForestSize(ms[0].kids) + ForestSize(ms[1..])
  }

  /** The ids that a clone numbered in document order from `b` gives the
      top-level nodes of `ms`. */
  function Tops(ms: seq<Markup>, b: NodeId): seq<NodeId>
    decreases ms
  {
    if ms == [] then [] else [b] + Tops(ms[1..], b + 1 + ForestSize(ms[0].kids))
  }

  /** The record that a clone of `ms`, numbered in document order from
      `b`, gives the id `k`; its top-level nodes get `parent`. */
  function CloneInfo(ms: seq<Markup>, b: NodeId, parent: Option<NodeId>, k: NodeId): Option<NodeInfo>
    decreases ms
  {
    if ms == [] || k < b then None
    else if k == b then Some(Blank(ms[0].kind, parent, Tops(ms[0].kids, b + 1)))
    else if k < b + 1 + ForestSize(ms[0].kids) then CloneInfo(ms[0].kids, b + 1, Some(b), k)
    else CloneInfo(ms[1..], b + 1 + ForestSize(ms[0].kids), parent, k)
  }

  /** The node records of a clone of `ms` numbered from `b`. */
  function Layout(ms: seq<Markup>, b: NodeId, parent: Option<NodeId>): map<NodeId, NodeInfo> {
    map k | b <= k < b + ForestSize(ms) && CloneInfo(ms, b, parent, k).Some? :: CloneInfo(ms, b, parent, k).value
  }

  lemma {:induction false} TopsShape(ms: seq<Markup>, b: NodeId)
    ensures |Tops(ms, b)| == |ms|
    ensures forall i :: 0 <= i < |ms| ==> b <= Tops(ms, b)[i] < b + ForestSize(ms)
    ensures forall i, j :: 0 <= i < j < |ms| ==> Tops(ms, b)[i] < Tops(ms, b)[j]
    decreases ms
  {
    if ms != [] {
      var n := b + 1 + ForestSize(ms[0].kids);
      TopsShape(ms[1..], n);
      var t := Tops(ms, b);
      assert t == [b] + Tops(ms[1..], n);
      forall i | 0 < i < |ms| ensures t[i] == Tops(ms[1..], n)[i - 1] { }
    }
  }

  /** Every id lies below the next id to hand out. */
  ghost predicate InRange(nodes: map<NodeId, NodeInfo>, next: NodeId) {
    forall n :: n in nodes ==> n < next
  }

  /** Every child is a node whose parent is the node listing it. */
  ghost predicate ChildrenLinked(nodes: map<NodeId, NodeInfo>) {
    forall p, c :: p in nodes && c in nodes[p].children ==> c in nodes && nodes[c].parent == Some(p)
  }

  /** Every node with a parent is listed among the children of that parent,
      which is another node. */
  ghost predicate ParentsLinked(nodes: map<NodeId, NodeInfo>) {
    forall c :: c in nodes && nodes[c].parent.Some? ==>
      (nodes[c].parent.value != c && nodes[c].parent.value in nodes && c in nodes[nodes[c].parent.value].children)
  }

  /** No child list repeats a node. */
  ghost predicate NoRepeats(nodes: map<NodeId, NodeInfo>) {
    forall p :: p in nodes ==> Distinct(nodes[p].children)
  }

  /** Every shadow root is a node. */
  ghost predicate ShadowsIn(nodes: map<NodeId, NodeInfo>) {
    forall h :: h in nodes && nodes[h].shadow.Some? ==> nodes[h].shadow.value in nodes
  }

  /** The predicate every document satisfies: a tree (or forest) whose
      parent links and child lists agree. */
  ghost predicate WellFormed(nodes: map<NodeId, NodeInfo>, next: NodeId) {
    InRange(nodes, next) && ChildrenLinked(nodes) && ParentsLinked(nodes) && NoRepeats(nodes) && ShadowsIn(nodes)
  }

  /** A clone gives a record to exactly the ids of its range. */
  lemma {:induction false} InfoRange(ms: seq<Markup>, b: NodeId, parent: Option<NodeId>, k: NodeId)
    ensures CloneInfo(ms, b, parent, k).Some? <==> b <= k < b + ForestSize(ms)
    decreases ms
  {
    if ms != [] && b < k {
      if k < b + 1 + ForestSize(ms[0].kids) {
        InfoRange(ms[0].kids, b + 1, Some(b), k);
      } else {
        InfoRange(ms[1..], b + 1 + ForestSize(ms[0].kids), parent, k);
      }
    }
  }

  /** A clone holds no shadow roots. */
  lemma {:induction false} InfoNoShadow(ms: seq<Markup>, b: NodeId, parent: Option<NodeId>, k: NodeId)
    ensures CloneInfo(ms, b, parent, k).Some? ==> CloneInfo(ms, b, parent, k).value.shadow == None
    decreases ms
  {
    if ms != [] && b < k {
      if k < b + 1 + ForestSize(ms[0].kids) {
        InfoNoShadow(ms[0].kids, b + 1, Some(b), k);
      } else {
        InfoNoShadow(ms[1..], b + 1 + ForestSize(ms[0].kids), parent, k);
      }
    }
  }

  /** The `i`-th top-level node of a clone is a blank copy of `ms[i]` with the
      given parent, whose children are the tops of the clone of its kids. */
  lemma {:induction false} InfoTops(ms: seq<Markup>, b: NodeId, parent: Option<NodeId>, i: nat)
    requires i < |ms|
    ensures |Tops(ms, b)| == |ms|
    ensures CloneInfo(ms, b, parent, Tops(ms, b)[i])
      == Some(Blank(ms[i].kind, parent, Tops(ms[i].kids, Tops(ms, b)[i] + 1)))
    decreases ms
  {
    TopsShape(ms, b);
    if i > 0 {
      var n := b + 1 + ForestSize(ms[0].kids);
      TopsShape(ms[1..], n);
      InfoTops(ms[1..], n, parent, i - 1);
      assert Tops(ms, b)[i] == Tops(ms[1..], n)[i - 1];
      assert ms[i] == ms[1..][i - 1];
    }
  }

  /** Every child in a clone is a clone node whose parent is the node
      listing it. */
  lemma {:induction false} InfoChildren(ms: seq<Markup>, b: NodeId, parent: Option<NodeId>, k: NodeId, c: NodeId)
    requires CloneInfo(ms, b, parent, k).Some? && c in CloneInfo(ms, b, parent, k).value.children
    ensures CloneInfo(ms, b, parent, c).Some? && CloneInfo(ms, b, parent, c).value.parent == Some(k)
    decreases ms
  {
    var n := b + 1 + ForestSize(ms[0].kids);
    if k == b {
      TopsShape(ms[0].kids, b + 1);
      var i :| 0 <= i < |Tops(ms[0].kids, b + 1)| && Tops(ms[0].kids, b + 1)[i] == c;
      InfoTops(ms[0].kids, b + 1, Some(b), i);
    } else if k < n {
      InfoChildren(ms[0].kids, b + 1, Some(b), k, c);
      InfoRange(ms[0].kids, b + 1, Some(b), c);
    } else {
      InfoChildren(ms[1..], n, parent, k, c);
      InfoRange(ms[1..], n, parent, c);
    }
  }

  /** Every clone node other than a top-level one is listed among the
      children of its parent, itself a clone node. */
  lemma {:induction false} InfoParents(ms: seq<Markup>, b: NodeId, parent: Option<NodeId>, c: NodeId)
    requires CloneInfo(ms, b, parent, c).Some? && c !in Tops(ms, b)
    ensures var q := CloneInfo(ms, b, parent, c).value.parent;
      q.Some? && q.value < c && CloneInfo(ms, b, parent, q.value).Some? && c in CloneInfo(ms, b, parent, q.value).value.children
    decreases ms
  {
    var n := b + 1 + ForestSize(ms[0].kids);
    assert Tops(ms, b) == [b] + Tops(ms[1..], n);
    if c < n {
      if c in Tops(ms[0].kids, b + 1) {
        TopsShape(ms[0].kids, b + 1);
        var i :| 0 <= i < |Tops(ms[0].kids, b + 1)| && Tops(ms[0].kids, b + 1)[i] == c;
        InfoTops(ms[0].kids, b + 1, Some(b), i);
      } else {
        InfoParents(ms[0].kids, b + 1, Some(b), c);
        InfoRange(ms[0].kids, b + 1, Some(b), CloneInfo(ms, b, parent, c).value.parent.value);
      }
    } else {
      InfoParents(ms[1..], n, parent, c);
      InfoRange(ms[1..], n, parent, CloneInfo(ms, b, parent, c).value.parent.value);
    }
  }

  /** No child list of a clone repeats a node. */
  lemma {:induction false} InfoNoRepeats(ms: seq<Markup>, b: NodeId, parent: Option<NodeId>, k: NodeId)
    ensures CloneInfo(ms, b, parent, k).Some? ==> Distinct(CloneInfo(ms, b, parent, k).value.children)
    decreases ms
  {
    if ms != [] && b <= k {
      if k == b {
        TopsShape(ms[0].kids, b + 1);
      } else if k < b + 1 + ForestSize(ms[0].kids) {
        InfoNoRepeats(ms[0].kids, b + 1, Some(b), k);
      } else {
        InfoNoRepeats(ms[1..], b + 1 + ForestSize(ms[0].kids), parent, k);
      }
    }
  }

  /** Merging a parentless clone at the first free ids keeps a document
      well formed. */
  lemma MergeClone(nodes: map<NodeId, NodeInfo>, next: NodeId, ms: seq<Markup>)
    requires WellFormed(nodes, next)
    ensures WellFormed(nodes + Layout(ms, next, None), next + ForestSize(ms))
  {
    MergeChildren(nodes, next, ms);
    MergeParents(nodes, next, ms);
    var N := nodes + Layout(ms, next, None);
    forall p | p in N ensures Distinct(N[p].children) && (N[p].shadow.Some? ==> N[p].shadow.value in N) {
      InfoNoRepeats(ms, next, None, p);
      InfoNoShadow(ms, next, None, p);
    }
  }

  lemma MergeChildren(nodes: map<NodeId, NodeInfo>, next: NodeId, ms: seq<Markup>)
    requires InRange(nodes, next) && ChildrenLinked(nodes)
    ensures ChildrenLinked(nodes + Layout(ms, next, None))
  {
    var L := Layout(ms, next, None);
    var N := nodes + L;
    forall p, c | p in N && c in N[p].children ensures c in N && N[c].parent == Some(p) {
      if p in L {
        InfoChildren(ms, next, None, p, c);
        InfoRange(ms, next, None, c);
      } else {
        assert c in nodes && c !in L;
      }
    }
  }

  lemma MergeParents(nodes: map<NodeId, NodeInfo>, next: NodeId, ms: seq<Markup>)
    requires InRange(nodes, next) && ParentsLinked(nodes)
    ensures ParentsLinked(nodes + Layout(ms, next, None))
  {
    var L := Layout(ms, next, None);
    var N := nodes + L;
    forall c | c in N && N[c].parent.Some?
      ensures N[c].parent.value != c && N[c].parent.value in N && c in N[N[c].parent.value].children
    {
      if c in L {
        if c in Tops(ms, next) {
          TopsShape(ms, next);
          var i :| 0 <= i < |Tops(ms, next)| && Tops(ms, next)[i] == c;
          InfoTops(ms, next, None, i);
        }
        InfoParents(ms, next, None, c);
        InfoRange(ms, next, None, N[c].parent.value);
      } else {
        assert N[c] == nodes[c];
        assert nodes[c].parent.value != c;
        assert N[c].parent.value in nodes && N[c].parent.value !in L;
      }
    }
  }

  lemma DistinctCons(x: NodeId, s: seq<NodeId>)
    requires x !in s && Distinct(s)
    ensures Distinct([x] + s)
  {
    forall i, j | 0 <= i < j < |[x] + s| ensures ([x] + s)[i] != ([x] + s)[j] {
      assert ([x] + s)[j] == s[j - 1];
      if i > 0 {
        assert ([x] + s)[i] == s[i - 1];
      }
    }
  }

  lemma DistinctTail(s: seq<NodeId>)
    requires s != [] && Distinct(s)
    ensures Distinct(s[1..]) && s[0] !in s[1..]
  {
    forall i, j | 0 <= i < j < |s[1..]| ensures s[1..][i] != s[1..][j] {
      assert s[1..][i] == s[i + 1] && s[1..][j] == s[j + 1];
    }
    forall k | 0 <= k < |s[1..]| ensures s[1..][k] != s[0] {
      assert s[1..][k] == s[k + 1];
    }
  }

  /** The list without `x`. */
  function Without(s: seq<NodeId>, x: NodeId): (r: seq<NodeId>)
    ensures forall y :: y in r <==> y in s && y != x
    ensures Distinct(s) ==> Distinct(r)
    ensures x !in s ==> r == s
  {
    if s == [] then []
    else
      var rest := Without(s[1..], x);
      if Distinct(s) then
        DistinctTail(s);
        if s[0] == x then rest else DistinctCons(s[0], rest); [s[0]] + rest
      else if s[0] == x then rest else [s[0]] + rest
  }

  /** The list with its entry at `i` replaced by a node it does not hold. */
  lemma ReplacedAt(s: seq<NodeId>, i: nat, n: NodeId)
    requires i < |s| && Distinct(s) && n !in s
    ensures Distinct(s[i := n])
    ensures forall y :: y in s[i := n] <==> y == n || (y in s && y != s[i])
  {
    var t := s[i := n];
    forall j, k | 0 <= j < k < |t| ensures t[j] != t[k] {
      if j != i && k != i {
        assert t[j] == s[j] && t[k] == s[k];
      } else if j == i {
        assert t[k] == s[k];
      } else {
        assert t[j] == s[j];
      }
    }
    assert t[i] == n;
    forall y | y in s && y != s[i] ensures y in t {
      var k :| 0 <= k < |s| && s[k] == y;
      assert t[k] == y;
    }
    forall y | y in t ensures y == n || (y in s && y != s[i]) {
      var k :| 0 <= k < |t| && t[k] == y;
      if k != i {
        assert y == s[k] && s[k] != s[i];
      }
    }
  }

  /** The position of `x` in `s`. */
  function IndexOf(s: seq<NodeId>, x: NodeId): (i: nat)
    requires x in s
    ensures i < |s| && s[i] == x
    ensures forall j :: 0 <= j < i ==> s[j] != x
  {
    if s[0] == x then 0 else 1 + IndexOf(s[1..], x)
  }

  /** `p.appendChild` of the detached nodes `cs`, in order. */
  function Adopt(nodes: map<NodeId, NodeInfo>, p: NodeId, cs: seq<NodeId>): map<NodeId, NodeInfo>
    requires p in nodes
  {
    map k | k in nodes ::
      if k == p then nodes[p].(children := nodes[p].children + cs)
      else if k in cs then nodes[k].(parent := Some(p))
      else nodes[k]
  }

  /** Appending detached nodes to another node keeps a document well formed. */
  lemma AdoptWellFormed(nodes: map<NodeId, NodeInfo>, next: NodeId, p: NodeId, cs: seq<NodeId>)
    requires WellFormed(nodes, next) && p in nodes && p !in cs && Distinct(cs)
    requires forall c :: c in cs ==> c in nodes && nodes[c].parent == None
    ensures WellFormed(Adopt(nodes, p, cs), next)
  {
    AdoptChildren(nodes, next, p, cs);
    AdoptParents(nodes, next, p, cs);
    AdoptNoRepeats(nodes, next, p, cs);
  }

  lemma AdoptChildren(nodes: map<NodeId, NodeInfo>, next: NodeId, p: NodeId, cs: seq<NodeId>)
    requires ChildrenLinked(nodes) && p in nodes && p !in cs
    requires forall c :: c in cs ==> c in nodes && nodes[c].parent == None
    ensures ChildrenLinked(Adopt(nodes, p, cs))
  {
    var N := Adopt(nodes, p, cs);
    forall q, c | q in N && c in N[q].children ensures c in N && N[c].parent == Some(q) {
      if q != p {
        assert c in nodes[q].children;
      } else if c in nodes[p].children {
        assert nodes[c].parent == Some(p);
      }
    }
  }

  lemma AdoptParents(nodes: map<NodeId, NodeInfo>, next: NodeId, p: NodeId, cs: seq<NodeId>)
    requires ParentsLinked(nodes) && p in nodes && p !in cs
    requires forall c :: c in cs ==> c in nodes && nodes[c].parent == None
    ensures ParentsLinked(Adopt(nodes, p, cs))
  {
    var N := Adopt(nodes, p, cs);
    forall c | c in N && N[c].parent.Some?
      ensures N[c].parent.value != c && N[c].parent.value in N && c in N[N[c].parent.value].children
    {
      if c !in cs {
        assert c in nodes[nodes[c].parent.value].children;
      }
    }
  }

  lemma AdoptNoRepeats(nodes: map<NodeId, NodeInfo>, next: NodeId, p: NodeId, cs: seq<NodeId>)
    requires ChildrenLinked(nodes) && NoRepeats(nodes) && p in nodes && Distinct(cs)
    requires forall c :: c in cs ==> c in nodes && nodes[c].parent == None
    ensures NoRepeats(Adopt(nodes, p, cs))
  {
    var N := Adopt(nodes, p, cs);
    var kids := nodes[p].children;
    assert forall c :: c in kids ==> nodes[c].parent == Some(p);
    forall i, j | 0 <= i < j < |kids + cs| ensures (kids + cs)[i] != (kids + cs)[j] {
      if j >= |kids| {
        assert (kids + cs)[j] == cs[j - |kids|];
        assert nodes[cs[j - |kids|]].parent == None;
        if i >= |kids| {
          assert (kids + cs)[i] == cs[i - |kids|];
        } else {
          assert (kids + cs)[i] == kids[i] && kids[i] in kids;
        }
      }
    }
    assert N[p].children == kids + cs;
  }

  /** `p.removeChild(c)` for a child `c` of `p`. */
  function Detach(nodes: map<NodeId, NodeInfo>, p: NodeId, c: NodeId): map<NodeId, NodeInfo>
    requires p in nodes && c in nodes
  {
    nodes[p := nodes[p].(children := Without(nodes[p].children, c))][c := nodes[c].(parent := None)]
  }

  /** Removing a child keeps a document well formed. */
  lemma DetachWellFormed(nodes: map<NodeId, NodeInfo>, next: NodeId, p: NodeId, c: NodeId)
    requires WellFormed(nodes, next) && c in nodes && nodes[c].parent == Some(p)
    ensures p in nodes && c != p
    ensures WellFormed(Detach(nodes, p, c), next)
  {
    DetachChildren(nodes, next, p, c);
    DetachParents(nodes, next, p, c);
  }

  lemma DetachChildren(nodes: map<NodeId, NodeInfo>, next: NodeId, p: NodeId, c: NodeId)
    requires ChildrenLinked(nodes) && ParentsLinked(nodes) && c in nodes && nodes[c].parent == Some(p)
    ensures p in nodes && c != p
    ensures ChildrenLinked(Detach(nodes, p, c))
  {
    var N := Detach(nodes, p, c);
    forall q, x | q in N && x in N[q].children ensures x in N && N[x].parent == Some(q) {
      if q != p {
        assert x in nodes[q].children;
        assert x != c;
      }
    }
  }

  lemma DetachParents(nodes: map<NodeId, NodeInfo>, next: NodeId, p: NodeId, c: NodeId)
    requires WellFormed(nodes, next) && c in nodes && nodes[c].parent == Some(p)
    ensures ParentsLinked(Detach(nodes, p, c))
  {
    var N := Detach(nodes, p, c);
    forall x | x in N && N[x].parent.Some?
      ensures N[x].parent.value != x && N[x].parent.value in N && x in N[N[x].parent.value].children
    {
      assert x != c;
    }
  }

  /** `p.replaceChild(n, o)` for a child `o` of `p` and a detached `n`. */
  function Swap(nodes: map<NodeId, NodeInfo>, p: NodeId, n: NodeId, o: NodeId): map<NodeId, NodeInfo>
    requires p in nodes && n in nodes && o in nodes && o in nodes[p].children
  {
    var kids := nodes[p].children;
    nodes[p := nodes[p].(children := kids[IndexOf(kids, o) := n])][o := nodes[o].(parent := None)][n := nodes[n].(parent := Some(p))]
  }

  /** Replacing a child by a detached node keeps a document well formed. */
  lemma SwapWellFormed(nodes: map<NodeId, NodeInfo>, next: NodeId, p: NodeId, n: NodeId, o: NodeId)
    requires WellFormed(nodes, next) && o in nodes && nodes[o].parent == Some(p)
    requires n in nodes && nodes[n].parent == None && n != p
    ensures p in nodes && o in nodes[p].children && o != p && o != n
    ensures WellFormed(Swap(nodes, p, n, o), next)
  {
    var kids := nodes[p].children;
    assert n !in kids;
    ReplacedAt(kids, IndexOf(kids, o), n);
    SwapChildren(nodes, next, p, n, o);
    SwapParents(nodes, next, p, n, o);
    SwapRest(nodes, next, p, n, o);
  }

  /** What removing a child changes: the child list of `p` and the parent
      of `c`, nothing else. */
  lemma DetachShape(nodes: map<NodeId, NodeInfo>, p: NodeId, c: NodeId)
    requires p in nodes && c in nodes && c != p
    ensures var N := Detach(nodes, p, c);
      N.Keys == nodes.Keys
      && c !in N[p].children && N[c].parent == None
      && (forall x :: x in N[p].children <==> x in nodes[p].children && x != c)
      && (forall k :: k in nodes && k != p && k != c ==> N[k] == nodes[k])
  {
  }

  /** What replacing a child changes: the slot of `o` in the child list of
      `p` now holds `n`, `o` is detached and `n` has parent `p`. */
  lemma SwapShape(nodes: map<NodeId, NodeInfo>, p: NodeId, n: NodeId, o: NodeId)
    requires p in nodes && n in nodes && o in nodes && o in nodes[p].children
    requires o != p && o != n && n != p
    ensures var N := Swap(nodes, p, n, o);
      N.Keys == nodes.Keys
      && N[p].children == nodes[p].children[IndexOf(nodes[p].children, o) := n]
      && N[o].parent == None && N[n].parent == Some(p)
      && (forall k :: k in nodes && k != p && k != o && k != n ==> N[k] == nodes[k])
  {
    var kids := nodes[p].children;
    var A := nodes[p := nodes[p].(children := kids[IndexOf(kids, o) := n])];
    var B := A[o := nodes[o].(parent := None)];
    var N := B[n := nodes[n].(parent := Some(p))];
    assert N == Swap(nodes, p, n, o);
    assert N[p] == A[p];
  }

  lemma SwapRest(nodes: map<NodeId, NodeInfo>, next: NodeId, p: NodeId, n: NodeId, o: NodeId)
    requires InRange(nodes, next) && NoRepeats(nodes) && ShadowsIn(nodes)
    requires p in nodes && n in nodes && o in nodes && o in nodes[p].children
    requires var kids := nodes[p].children; Distinct(kids[IndexOf(kids, o) := n])
    ensures InRange(Swap(nodes, p, n, o), next) && NoRepeats(Swap(nodes, p, n, o)) && ShadowsIn(Swap(nodes, p, n, o))
  {
  }

  lemma SwapChildren(nodes: map<NodeId, NodeInfo>, next: NodeId, p: NodeId, n: NodeId, o: NodeId)
    requires ChildrenLinked(nodes) && p in nodes && o in nodes && nodes[o].parent == Some(p) && o != p
    requires n in nodes && nodes[n].parent == None && n != p
    requires o in nodes[p].children && n !in nodes[p].children
    requires var kids := nodes[p].children;
      forall y :: y in kids[IndexOf(kids, o) := n] <==> y == n || (y in kids && y != o)
    ensures ChildrenLinked(Swap(nodes, p, n, o))
  {
    var N := Swap(nodes, p, n, o);
    forall q, x | q in N && x in N[q].children ensures x in N && N[x].parent == Some(q) {
      if q != p {
        assert x in nodes[q].children;
        assert x != o && x != n;
      }
    }
  }

  lemma SwapParents(nodes: map<NodeId, NodeInfo>, next: NodeId, p: NodeId, n: NodeId, o: NodeId)
    requires ParentsLinked(nodes) && p in nodes && o in nodes && nodes[o].parent == Some(p) && o != p
    requires n in nodes && nodes[n].parent == None && n != p
    requires o in nodes[p].children && n !in nodes[p].children
    requires var kids := nodes[p].children;
      forall y :: y in kids[IndexOf(kids, o) := n] <==> y == n || (y in kids && y != o)
    ensures ParentsLinked(Swap(nodes, p, n, o))
  {
    var N := Swap(nodes, p, n, o);
    forall x | x in N && N[x].parent.Some?
      ensures N[x].parent.value != x && N[x].parent.value in N && x in N[N[x].parent.value].children
    {
      if x != n {
        assert x != o;
      }
    }
  }

  /** The top-level nodes of a clone merged at the first free ids are fresh,
      detached, distinct, and copy the kinds of the markup in order. */
  lemma CloneTops(nodes: map<NodeId, NodeInfo>, next: NodeId, ms: seq<Markup>)
    requires InRange(nodes, next)
    ensures |Tops(ms, next)| == |ms| && Distinct(Tops(ms, next))
    ensures var N := nodes + Layout(ms, next, None);
      forall i :: 0 <= i < |ms| ==>
        (Tops(ms, next)[i] !in nodes && Tops(ms, next)[i] in N
        && N[Tops(ms, next)[i]].parent == None && N[Tops(ms, next)[i]].kind == ms[i].kind)
  {
    TopsShape(ms, next);
    var N := nodes + Layout(ms, next, None);
    forall i | 0 <= i < |ms|
      ensures Tops(ms, next)[i] !in nodes && Tops(ms, next)[i] in N
        && N[Tops(ms, next)[i]].parent == None && N[Tops(ms, next)[i]].kind == ms[i].kind
    {
      InfoTops(ms, next, None, i);
    }
  }

  /** Rewriting what a node holds, without touching its links, keeps a
      document well formed. */
  lemma RelabelWellFormed(nodes: map<NodeId, NodeInfo>, next: NodeId, n: NodeId, info: NodeInfo)
    requires WellFormed(nodes, next) && n in nodes
    requires info.parent == nodes[n].parent && info.children == nodes[n].children
    requires info.shadow.Some? ==> info.shadow.value in nodes
    ensures WellFormed(nodes[n := info], next)
  {
    RelabelChildren(nodes, n, info);
    RelabelParents(nodes, n, info);
  }

  lemma RelabelChildren(nodes: map<NodeId, NodeInfo>, n: NodeId, info: NodeInfo)
    requires ChildrenLinked(nodes) && n in nodes
    requires info.parent == nodes[n].parent && info.children == nodes[n].children
    ensures ChildrenLinked(nodes[n := info])
  {
    var N := nodes[n := info];
    forall p, c | p in N && c in N[p].children ensures c in N && N[c].parent == Some(p) {
      assert c in nodes[p].children;
    }
  }

  lemma RelabelParents(nodes: map<NodeId, NodeInfo>, n: NodeId, info: NodeInfo)
    requires ParentsLinked(nodes) && n in nodes
    requires info.parent == nodes[n].parent && info.children == nodes[n].children
    ensures ParentsLinked(nodes[n := info])
  {
    var N := nodes[n := info];
    forall c | c in N && N[c].parent.Some?
      ensures N[c].parent.value != c && N[c].parent.value in N && c in N[N[c].parent.value].children
    {
      assert N[c].parent == nodes[c].parent;
      assert N[nodes[c].parent.value].children == nodes[nodes[c].parent.value].children;
    }
  }

  /** Adding a fresh detached node keeps a document well formed. */
  lemma FreshWellFormed(nodes: map<NodeId, NodeInfo>, next: NodeId, info: NodeInfo)
    requires WellFormed(nodes, next)
    requires info.parent == None && info.children == [] && info.shadow == None
    ensures next !in nodes && WellFormed(nodes[next := info], next + 1)
  {
    FreshChildren(nodes, next, info);
    FreshParents(nodes, next, info);
  }

  lemma FreshChildren(nodes: map<NodeId, NodeInfo>, next: NodeId, info: NodeInfo)
    requires InRange(nodes, next) && ChildrenLinked(nodes) && info.children == []
    ensures ChildrenLinked(nodes[next := info])
  {
    var N := nodes[next := info];
    forall p, c | p in N && c in N[p].children ensures c in N && N[c].parent == Some(p) {
      assert p != next && c in nodes[p].children;
      assert c in nodes && c != next;
    }
  }

  lemma FreshParents(nodes: map<NodeId, NodeInfo>, next: NodeId, info: NodeInfo)
    requires InRange(nodes, next) && ParentsLinked(nodes) && info.parent == None
    ensures ParentsLinked(nodes[next := info])
  {
    var N := nodes[next := info];
    forall c | c in N && N[c].parent.Some?
      ensures N[c].parent.value != c && N[c].parent.value in N && c in N[N[c].parent.value].children
    {
      assert c in nodes && c != next;
      assert N[c].parent.value in nodes && N[c].parent.value != next;
    }
  }

  /** The document after `n.textContent = v`: every child of `n` is
      detached and `n` has no children left; the one text node the
      assignment puts in their place is the record's `text`. */
  function ShowText(nodes: map<NodeId, NodeInfo>, n: NodeId, v: Value): map<NodeId, NodeInfo>
    requires n in nodes
  {
    map k | k in nodes ::
      if k == n then nodes[n].(children := [], text := Some(v))
      else if k in nodes[n].children then nodes[k].(parent := None)
      else nodes[k]
  }

  /** Replacing the content of a node by a text keeps a document well
      formed. */
  lemma ShowTextWellFormed(nodes: map<NodeId, NodeInfo>, next: NodeId, n: NodeId, v: Value)
    requires WellFormed(nodes, next) && n in nodes
    ensures WellFormed(ShowText(nodes, n, v), next)
  {
    ShowTextChildren(nodes, n, v);
    ShowTextParents(nodes, next, n, v);
    var N := ShowText(nodes, n, v);
    forall p | p in N ensures Distinct(N[p].children) {
      assert p != n ==> N[p].children == nodes[p].children;
    }
  }

  lemma ShowTextChildren(nodes: map<NodeId, NodeInfo>, n: NodeId, v: Value)
    requires ChildrenLinked(nodes) && n in nodes
    ensures ChildrenLinked(ShowText(nodes, n, v))
  {
    var N := ShowText(nodes, n, v);
    forall p, c | p in N && c in N[p].children ensures c in N && N[c].parent == Some(p) {
      assert p != n && c in nodes[p].children && nodes[c].parent == Some(p);
      assert c !in nodes[n].children;
    }
  }

  lemma ShowTextParents(nodes: map<NodeId, NodeInfo>, next: NodeId, n: NodeId, v: Value)
    requires WellFormed(nodes, next) && n in nodes
    ensures ParentsLinked(ShowText(nodes, n, v))
  {
    var N := ShowText(nodes, n, v);
    forall c | c in N && N[c].parent.Some?
      ensures N[c].parent.value != c && N[c].parent.value in N && c in N[N[c].parent.value].children
    {
      var q := nodes[c].parent.value;
      assert N[c].parent == nodes[c].parent;
      assert c in nodes[q].children;
      assert q != n;
      assert N[q].children == nodes[q].children;
    }
  }

  /** Giving an element a fresh shadow root keeps a document well formed. */
  lemma ShadowWellFormed(nodes: map<NodeId, NodeInfo>, next: NodeId, host: NodeId)
    requires WellFormed(nodes, next) && host in nodes
    ensures next !in nodes
    ensures WellFormed(nodes[next := Blank(ShadowRoot, None, [])][host := nodes[host].(shadow := Some(next))], next + 1)
  {
    FreshWellFormed(nodes, next, Blank(ShadowRoot, None, []));
    var M := nodes[next := Blank(ShadowRoot, None, [])];
    RelabelWellFormed(M, next + 1, host, M[host].(shadow := Some(next)));
  }

  /** Pre-order (document order) listing of the descendants of `n`. The
      `fuel` bounds the depth of the walk. */
  function Descendants(nodes: map<NodeId, NodeInfo>, n: NodeId, fuel: nat): seq<NodeId>
    decreases fuel, 0
  {
    if fuel == 0 || n !in nodes then [] else Subtrees(nodes, nodes[n].children, fuel - 1)
  }

  function Subtrees(nodes: map<NodeId, NodeInfo>, cs: seq<NodeId>, fuel: nat): seq<NodeId>
    decreases fuel, |cs| + 1
  {
    if cs == [] then [] else [cs[0]] + Descendants(nodes, cs[0], fuel) + Subtrees(nodes, cs[1..], fuel)
  }

  predicate IsElement(nodes: map<NodeId, NodeInfo>, n: NodeId) {
    n in nodes && nodes[n].kind.Element?
  }

  /** The first element of `ids` that the selector matches. */
  function FirstMatching(nodes: map<NodeId, NodeInfo>, matches: (NodeId, string) -> bool, ids: seq<NodeId>, selector: string): (r: Option<NodeId>)
    ensures r.Some? ==> exists k :: (0 <= k < |ids| && ids[k] == r.value
      && IsElement(nodes, ids[k]) && matches(ids[k], selector)
      && forall j :: 0 <= j < k ==> !(IsElement(nodes, ids[j]) && matches(ids[j], selector)))
    ensures r.None? ==> forall j :: 0 <= j < |ids| ==> !(IsElement(nodes, ids[j]) && matches(ids[j], selector))
  {
    if ids == [] then None
    else if IsElement(nodes, ids[0]) && matches(ids[0], selector) then Some(ids[0])
    else
      var r := FirstMatching(nodes, matches, ids[1..], selector);
      assert forall j :: 0 < j < |ids| ==> ids[j] == ids[1..][j - 1];
      if r.Some? then
        var k :| 0 <= k < |ids[1..]| && ids[1..][k] == r.value
          && IsElement(nodes, ids[1..][k]) && matches(ids[1..][k], selector)
          && forall j :: 0 <= j < k ==> !(IsElement(nodes, ids[1..][j]) && matches(ids[1..][j], selector));
        assert ids[k + 1] == r.value;
        r
      else r
  }

  /** Every node of `before` is still there, with the same kind. */
  ghost predicate KindsKept(before: map<NodeId, NodeInfo>, after: map<NodeId, NodeInfo>) {
    forall k :: k in before ==> k in after && after[k].kind == before[k].kind
  }

  /** `tops` are nodes whose kinds are, one by one, those of the markup
      forest `ms`: the top-level nodes of its clone. */
  ghost predicate ClonedFrom(nodes: map<NodeId, NodeInfo>, tops: seq<NodeId>, ms: seq<Markup>) {
    |tops| == |ms| && forall k :: 0 <= k < |tops| ==> tops[k] in nodes && nodes[tops[k]].kind == ms[k].kind
  }

  /** A clone's top-level nodes stay what they are while kinds are kept. */
  lemma ClonedFromKept(before: map<NodeId, NodeInfo>, after: map<NodeId, NodeInfo>, tops: seq<NodeId>, ms: seq<Markup>)
    requires ClonedFrom(before, tops, ms) && KindsKept(before, after)
    ensures ClonedFrom(after, tops, ms)
  {
    forall k | 0 <= k < |tops| ensures tops[k] in after && after[tops[k]].kind == ms[k].kind {
      assert tops[k] in before;
    }
  }

  /** The document: every node the framework touches, and the uninterpreted
      selector semantics `matches` (`Element.matches`). */
  class Document {
    var nodes: map<NodeId, NodeInfo>
    var next: NodeId
    const matches: (NodeId, string) -> bool

    ghost predicate Valid()
      reads this
    {
      WellFormed(nodes, next)
    }

    /** `n.querySelector(selector)`: the first element, in document order,
        among the descendants of `n` that the selector matches. */
    function QuerySelector(n: NodeId, selector: string): Option<NodeId>
      reads this
    {
      FirstMatching(nodes, matches, Descendants(nodes, n, |nodes|), selector)
    }

    constructor(matches: (NodeId, string) -> bool)
      ensures Valid() && nodes == map[] && this.matches == matches
    {
      nodes := map[];
      next := 0;
      this.matches := matches;
    }

    /** `document.createElement` / `document.createTextNode`: a fresh
        detached node. */
    method CreateNode(kind: NodeKind) returns (id: NodeId)
      requires Valid()
      modifies this
      ensures Valid()
      ensures id !in old(nodes) && nodes == old(nodes)[id := Blank(kind, None, [])]
    {
      id := next;
      FreshWellFormed(nodes, next, Blank(kind, None, []));
      nodes := nodes[id := Blank(kind, None, [])];
      next := next + 1;
    }

    /** `createDOM()`: a deep clone of the markup `ms`, as a list of fresh
        detached top-level nodes. */
    method Clone(ms: seq<Markup>) returns (tops: seq<NodeId>)
      requires Valid()
      modifies this
      ensures Valid()
      ensures nodes == old(nodes) + Layout(ms, old(next), None)
      ensures |tops| == |ms| && Distinct(tops)
      ensures forall i :: 0 <= i < |tops| ==>
        (tops[i] !in old(nodes) && tops[i] in nodes
        && nodes[tops[i]].parent == None && nodes[tops[i]].kind == ms[i].kind)
      ensures forall k :: k in old(nodes) ==> k in nodes && nodes[k] == old(nodes[k])
      ensures KindsKept(old(nodes), nodes) && ClonedFrom(nodes, tops, ms)
    {
      MergeClone(nodes, next, ms);
      CloneTops(nodes, next, ms);
      forall k | k in nodes ensures k !in Layout(ms, next, None) {
        assert k < next;
      }
      tops := Tops(ms, next);
      nodes := nodes + Layout(ms, next, None);
      next := next + ForestSize(ms);
    }

    /** `p.appendChild(x)` for nodes that are not in the tree: a single node,
        or the children of a document fragment, in order. */
    method AppendChildren(p: NodeId, cs: seq<NodeId>)
      requires Valid() && p in nodes && p !in cs && Distinct(cs)
      requires forall c :: c in cs ==> c in nodes && nodes[c].parent == None
      modifies this
      ensures Valid()
      ensures nodes == Adopt(old(nodes), p, cs)
      ensures nodes.Keys == old(nodes).Keys
      ensures nodes[p] == old(nodes[p]).(children := old(nodes[p].children) + cs)
      ensures forall c :: c in cs ==> nodes[c] == old(nodes[c]).(parent := Some(p))
      ensures forall k :: k in old(nodes) && k != p && k !in cs ==> nodes[k] == old(nodes[k])
      ensures KindsKept(old(nodes), nodes)
    {
      AdoptWellFormed(nodes, next, p, cs);
      nodes := Adopt(nodes, p, cs);
    }

    /** `p.appendChild(createDOM())`: a fresh clone of the markup `ms`,
        whose top-level nodes become the last children of `p`. */
    method AppendClone(p: NodeId, ms: seq<Markup>) returns (tops: seq<NodeId>)
      requires Valid() && p in nodes
      modifies this
      ensures Valid() && Distinct(tops)
      ensures p in nodes && nodes[p] == old(nodes[p]).(children := old(nodes[p].children) + tops)
      ensures forall k :: k in old(nodes) && k != p ==> k in nodes && nodes[k] == old(nodes[k])
      ensures forall t :: t in tops ==> t !in old(nodes) && t in nodes && nodes[t].parent == Some(p)
      ensures ClonedFrom(nodes, tops, ms)
    {
      tops := Clone(ms);
      ghost var cloned := nodes;
      AppendChildren(p, tops);
      ClonedFromKept(cloned, nodes, tops, ms);
    }

    /** `p.removeChild(c)`: fails (`NotFoundError`) unless `c` is a child of
        `p`. */
    method RemoveChild(p: NodeId, c: NodeId) returns (ok: bool)
      requires Valid()
      modifies this
      ensures Valid()
      ensures ok == (c in old(nodes) && old(nodes[c].parent) == Some(p))
      ensures !ok ==> nodes == old(nodes)
      ensures ok ==> p in old(nodes) && nodes == Detach(old(nodes), p, c)
      ensures ok ==> (nodes.Keys == old(nodes).Keys
        && c !in nodes[p].children && nodes[c].parent == None
        && (forall x :: x in nodes[p].children <==> x in old(nodes[p].children) && x != c)
        && (forall k :: k in old(nodes) && k != p && k != c ==> nodes[k] == old(nodes[k])))
    {
      ok := c in nodes && nodes[c].parent == Some(p);
      if ok {
        DetachWellFormed(nodes, next, p, c);
        DetachShape(nodes, p, c);
        nodes := Detach(nodes, p, c);
      }
    }

    /** `p.replaceChild(n, o)`: `n` takes the place of `o` in the child list
        of `p`. Fails (`HierarchyRequestError`) when `n` is `p` itself and
        (`NotFoundError`) unless `o` is a child of `p`; when it succeeds, `n`
        must be a node that is not in the tree. */
    method ReplaceChild(p: NodeId, n: NodeId, o: NodeId) returns (ok: bool)
      requires Valid() && n in nodes
      requires n != p && o in nodes && nodes[o].parent == Some(p) ==> nodes[n].parent == None
      modifies this
      ensures Valid()
      ensures ok == (n != p && o in old(nodes) && old(nodes[o].parent) == Some(p))
      ensures !ok ==> nodes == old(nodes)
      ensures ok ==> p in old(nodes) && o in old(nodes[p].children) && nodes == Swap(old(nodes), p, n, o)
      ensures ok ==> (nodes.Keys == old(nodes).Keys
        && nodes[p].children == old(nodes[p].children)[IndexOf(old(nodes[p].children), o) := n]
        && nodes[o].parent == None && nodes[n].parent == Some(p)
        && (forall k :: k in old(nodes) && k != p && k != o && k != n ==> nodes[k] == old(nodes[k])))
    {
      ok := n != p && o in nodes && nodes[o].parent == Some(p);
      if ok {
        SwapWellFormed(nodes, next, p, n, o);
        SwapShape(nodes, p, n, o);
        nodes := Swap(nodes, p, n, o);
      }
    }

    /** `host.attachShadow({ mode: "open" })`: fails (`NotSupportedError`) on
        a node that is not an element or that already has a shadow root. */
    method AttachShadow(host: NodeId) returns (root: Option<NodeId>)
      requires Valid()
      modifies this
      ensures Valid()
      ensures root.Some? == (IsElement(old(nodes), host) && old(nodes[host].shadow) == None)
      ensures root.None? ==> nodes == old(nodes)
      ensures root.Some? ==> (root.value !in old(nodes)
        && nodes == old(nodes)[root.value := Blank(ShadowRoot, None, [])][host := old(nodes[host]).(shadow := root)])
    {
      if IsElement(nodes, host) && nodes[host].shadow == None {
        var s := next;
        ShadowWellFormed(nodes, next, host);
        nodes := nodes[s := Blank(ShadowRoot, None, [])][host := nodes[host].(shadow := Some(s))];
        next := next + 1;
        root := Some(s);
      } else {
        root := None;
      }
    }

    /** `n.textContent = v`: the children of `n` are removed and `n` holds
        the text `v` alone. */
    method SetText(n: NodeId, v: Value)
      requires Valid() && n in nodes
      modifies this
      ensures Valid()
      ensures nodes == ShowText(old(nodes), n, v)
    {
      ShowTextWellFormed(nodes, next, n, v);
      nodes := ShowText(nodes, n, v);
    }

    /** `n.setAttribute(name, v)`. */
    method SetAttribute(n: NodeId, name: string, v: Value)
      requires Valid() && n in nodes
      modifies this
      ensures Valid()
      ensures nodes == old(nodes)[n := old(nodes[n]).(attributes := old(nodes[n].attributes)[name := v])]
    {
      RelabelWellFormed(nodes, next, n, nodes[n].(attributes := nodes[n].attributes[name := v]));
      nodes := nodes[n := nodes[n].(attributes := nodes[n].attributes[name := v])];
    }

    /** `n[name] = v`. */
    method SetField(n: NodeId, name: string, v: Value)
      requires Valid() && n in nodes
      modifies this
      ensures Valid()
      ensures nodes == old(nodes)[n := old(nodes[n]).(fields := old(nodes[n].fields)[name := v])]
    {
      RelabelWellFormed(nodes, next, n, nodes[n].(fields := nodes[n].fields[name := v]));
      nodes := nodes[n := nodes[n].(fields := nodes[n].fields[name := v])];
    }

    /** `n.addEventListener(name, cb)` on a DOM node. */
    method AddListener(n: NodeId, name: string, cb: Callback)
      requires Valid() && n in nodes
      modifies this
      ensures Valid()
      ensures nodes == old(nodes)[n := old(nodes[n]).(listeners := Added(old(nodes[n].listeners), name, cb, false))]
    {
      RelabelWellFormed(nodes, next, n, nodes[n].(listeners := Added(nodes[n].listeners, name, cb, false)));
      nodes := nodes[n := nodes[n].(listeners := Added(nodes[n].listeners, name, cb, false))];
    }
  }
}
