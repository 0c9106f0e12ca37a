/**
 * The node tree shared by the subscription resource and the parameter queries: a node
 * (service, tool or instance) optionally `refined`s a parent node.
 */
module Nodes {
  import opened Wrappers

  /** A node as the resources see it: its key, its name and the key of the node it refines. */
  datatype Node = Node(id: string, name: string, refined: Option<string>)

  /**
   * The node table, keyed by node identifier. A node key extends the key of the node it
   * refines (`service:id` refines `service`), so a parent key is strictly shorter than its
   * child's; the `refined` link always designates a stored node.
   */
  ghost predicate Closed(nodes: map<string, Node>)
  {
    forall k :: k in nodes ==>
      && nodes[k].id == k
      && (nodes[k].refined.Some? ==> nodes[k].refined.value in nodes && |nodes[k].refined.value| < |k|)
  }

  /** `n.refined`: the parent key of a stored node, `None` for a root or an unknown key. */
  function Parent(nodes: map<string, Node>, k: string): (p: Option<string>)
    ensures p.Some? ==> k in nodes && nodes[k].refined == p
  {
    if k in nodes then nodes[k].refined else None
  }

  /** The node and all its ancestors through `refined`, nearest first. */
  function Ancestry(nodes: map<string, Node>, k: string): (r: seq<string>)
    requires Closed(nodes)
    ensures forall a :: a in r ==> a in nodes && |a| <= |k|
    ensures k in nodes ==> |r| > 0 && r[0] == k
    ensures k !in nodes ==> r == []
    decreases |k|
  {
    if k !in nodes then []
    else match nodes[k].refined
      case None => [k]
      case Some(p) => [k] + Ancestry(nodes, p)
  }

  /**
   * Each node of the ancestry is refined by the one before it, the last one refines nothing,
   * and keys get strictly shorter: the walk up `refined` ends.
   */
  lemma AncestryLinks(nodes: map<string, Node>, k: string)
    requires Closed(nodes)
    ensures var r := Ancestry(nodes, k);
      && (forall i :: 0 <= i < |r| - 1 ==> Parent(nodes, r[i]) == Some(r[i + 1]))
      && (r != [] ==> Parent(nodes, r[|r| - 1]).None?)
      && (forall i, j :: 0 <= i < j < |r| ==> |r[j]| < |r[i]|)
  {
    AncestryParents(nodes, k);
    AncestryShrinks(nodes, k);
  }

  lemma {:induction false} AncestryParents(nodes: map<string, Node>, k: string)
    requires Closed(nodes)
    ensures var r := Ancestry(nodes, k);
      && (forall i :: 0 <= i < |r| - 1 ==> Parent(nodes, r[i]) == Some(r[i + 1]))
      && (r != [] ==> Parent(nodes, r[|r| - 1]).None?)
    decreases |k|
  {
    if k in nodes && nodes[k].refined.Some? {
      var p := nodes[k].refined.value;
      AncestryParents(nodes, p);
      var rest := Ancestry(nodes, p);
      assert Ancestry(nodes, k) == [k] + rest;
    }
  }

  lemma AncestryShrinks(nodes: map<string, Node>, k: string)
    requires Closed(nodes)
    ensures var r := Ancestry(nodes, k);
      forall i, j :: 0 <= i < j < |r| ==> |r[j]| < |r[i]|
  {
    var r := Ancestry(nodes, k);
    forall i, j | 0 <= i < j < |r| ensures |r[j]| < |r[i]| {
      AncestryShrinksAt(nodes, k, i, j);
    }
  }

  lemma {:induction false} AncestryShrinksAt(nodes: map<string, Node>, k: string, i: nat, j: nat)
    requires Closed(nodes)
    requires i < j < |Ancestry(nodes, k)|
    ensures |Ancestry(nodes, k)[j]| < |Ancestry(nodes, k)[i]|
    decreases |k|
  {
    var p := nodes[k].refined.value;
    var rest := Ancestry(nodes, p);
    assert Ancestry(nodes, k) == [k] + rest;
    if i == 0 {
      assert Ancestry(nodes, k)[j] in rest;
    } else {
      AncestryShrinksAt(nodes, p, i - 1, j - 1);
    }
  }

  /** The ancestry of an ancestor of `k` lies within the ancestry of `k`. */
  lemma {:induction false} AncestryClosed(nodes: map<string, Node>, k: string, a: string)
    requires Closed(nodes)
    requires a in Ancestry(nodes, k)
    ensures forall b :: b in Ancestry(nodes, a) ==> b in Ancestry(nodes, k)
    decreases |k|
  {
    if a != k {
      var p := nodes[k].refined.value;
      AncestryClosed(nodes, p, a);
    }
  }
}
