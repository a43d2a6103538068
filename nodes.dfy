/** `Nodes`: the list of top-level nodes one list item added, with the
    `querySelector` an item renderer uses to find its elements. */
module NodeGroups {
  import opened JsValues
  import opened Dom

  /** What a search from `n` covers: an element and then its descendants
      in document order; nothing for any other kind of node. */
  function Own(nodes: map<NodeId, NodeInfo>, n: NodeId): (r: seq<NodeId>)
    ensures !IsElement(nodes, n) ==> r == []
    ensures IsElement(nodes, n) ==> |r| > 0 && r[0] == n
  {
    if IsElement(nodes, n) then [n] + Descendants(nodes, n, |nodes|) else []
  }

  /** Everything a search over the list `ids` covers, list entry by list
      entry. */
  function Scope(nodes: map<NodeId, NodeInfo>, ids: seq<NodeId>): seq<NodeId> {
    if ids == [] then [] else Own(nodes, ids[0]) + Scope(nodes, ids[1..])
  }

  /** The first hit in a concatenation is the first hit of the first part,
      or else the first hit of the second. */
  lemma {:induction false} FirstMatchingAppend(nodes: map<NodeId, NodeInfo>, matches: (NodeId, string) -> bool,
                                               a: seq<NodeId>, b: seq<NodeId>, selector: string)
    ensures FirstMatching(nodes, matches, a + b, selector) ==
      (if FirstMatching(nodes, matches, a, selector).Some? then FirstMatching(nodes, matches, a, selector)
       else FirstMatching(nodes, matches, b, selector))
  {
    if a != [] {
      assert (a + b)[1..] == a[1..] + b;
      FirstMatchingAppend(nodes, matches, a[1..], b, selector);
    } else {
      assert a + b == b;
    }
  }

  /** A search of the whole list either stops at the first entry or goes on
      with the rest of the list. */
  lemma ScopeStep(nodes: map<NodeId, NodeInfo>, matches: (NodeId, string) -> bool, ids: seq<NodeId>, i: nat, selector: string)
    requires i < |ids|
    ensures FirstMatching(nodes, matches, Scope(nodes, ids[i..]), selector) ==
      (if FirstMatching(nodes, matches, Own(nodes, ids[i]), selector).Some? then FirstMatching(nodes, matches, Own(nodes, ids[i]), selector)
       else FirstMatching(nodes, matches, Scope(nodes, ids[i + 1..]), selector))
  {
    assert ids[i..][1..] == ids[i + 1..];
    FirstMatchingAppend(nodes, matches, Own(nodes, ids[i]), Scope(nodes, ids[i + 1..]), selector);
  }

  /** What searching from one element finds: the element itself when the
      selector matches it, otherwise `querySelector` on it. */
  lemma OwnHit(nodes: map<NodeId, NodeInfo>, matches: (NodeId, string) -> bool, n: NodeId, selector: string)
    requires IsElement(nodes, n)
    ensures FirstMatching(nodes, matches, Own(nodes, n), selector) ==
      (if matches(n, selector) then Some(n)
       else FirstMatching(nodes, matches, Descendants(nodes, n, |nodes|), selector))
  {
    assert Own(nodes, n)[1..] == Descendants(nodes, n, |nodes|);
  }

  /** `new Nodes(nodes)`. */
  class Nodes {
    const doc: Document
    const nodes: seq<NodeId>

    constructor(doc: Document, nodes: seq<NodeId>)
      ensures this.doc == doc && this.nodes == nodes
    {
      this.doc := doc;
      this.nodes := nodes;
    }

    /** `querySelector(selector)`: walks the list in order, skips what is
        not an element, and returns the first entry the selector matches or
        else the first match among that entry's descendants; `null` when
        nothing matches. The result is the first hit of one document-order
        search over the whole list. */
    method QuerySelector(selector: string) returns (r: Option<NodeId>)
      ensures r == FirstMatching(doc.nodes, doc.matches, Scope(doc.nodes, nodes), selector)
    {
      var i := 0;
      while i < |nodes|
        invariant 0 <= i <= |nodes|
        invariant FirstMatching(doc.nodes, doc.matches, Scope(doc.nodes, nodes), selector)
          == FirstMatching(doc.nodes, doc.matches, Scope(doc.nodes, nodes[i..]), selector)
      {
        var node := nodes[i];
        ScopeStep(doc.nodes, doc.matches, nodes, i, selector);
        if IsElement(doc.nodes, node) {
          OwnHit(doc.nodes, doc.matches, node, selector);
          if doc.matches(node, selector) {
            return Some(node);
          }
          var result := doc.QuerySelector(node, selector);
          if result.Some? {
            return result;
          }
        }
        i := i + 1;
      }
      assert nodes[i..] == [];
      r := None;
    }
  }
}
