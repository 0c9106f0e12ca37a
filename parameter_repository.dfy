/**
 * The selection rules of the parameter queries: which parameters a node still accepts
 * (`getOrphanParameters`, `getOrphanParametersExt`), the visible lookup (`findOneVisible`)
 * and the subtree deletion (`deleteByNode`), read as filters over the parameter table.
 */
module ParameterRepository {
  import opened Wrappers
  import opened Strings
  import opened Sequences
  import opened Nodes

  /** `SubscriptionMode`. */
  datatype Mode = All | Link | Create

  /** A parameter owned by a node; its `mode` column is nullable. */
  datatype Parameter = Parameter(id: string, owner: string, mode: Option<Mode>, mandatory: bool)

  /** A value given to a parameter; `node` is set when the value is attached to a node. */
  datatype ParameterValue = ParameterValue(parameter: string, node: Option<string>)

  /** The ordering key of both queries: `UPPER(p.id)`. */
  function UpperId(p: Parameter): string { ToUpper(p.id) }

  /**
   * `n`, `n1` and `n2` of the queries: the node, its parent and its grandparent, as far as
   * they exist (the joins to the parents are outer joins).
   */
  function Lineage(nodes: map<string, Node>, node: string): (r: set<string>)
    ensures node in nodes ==> node in r
    ensures forall o :: o in r <==>
      || (node in nodes && o == node)
      || Parent(nodes, node) == Some(o)
      || (Parent(nodes, node).Some? && Parent(nodes, Parent(nodes, node).value) == Some(o))
  {
    if node !in nodes then {}
    else
      var parents := match Parent(nodes, node)
        case None => {}
        case Some(p) => {p} + (match Parent(nodes, p) case None => {} case Some(g) => {g});
      {node} + parents
  }

  /**
   * `p.mode = ALL OR p.mode = :mode` with the SQL reading of `null`: a parameter without a
   * mode never matches, and neither does anything when the requested mode is `null`.
   */
  predicate ModeMatches(mode: Option<Mode>, requested: Option<Mode>)
  {
    mode == Some(All) || (mode.Some? && mode == requested)
  }

  /** Some value of `parameter` is attached to one of `owners` other than `except`. */
  predicate HasValueOn(values: seq<ParameterValue>, parameter: string, owners: set<string>, except: Option<string>)
  {
    exists v | v in values ::
      v.parameter == parameter && v.node.Some? && v.node.value in owners && Some(v.node.value) != except
  }

  /** The `WHERE` clause of both queries; `except` is the node whose own values are ignored. */
  predicate Selected(nodes: map<string, Node>, values: seq<ParameterValue>, visible: set<string>,
                     node: string, mode: Option<Mode>, except: Option<string>, p: Parameter)
  {
    && node in nodes && node in visible
    && p.owner in Lineage(nodes, node)
    && ModeMatches(p.mode, mode)
    && !HasValueOn(values, p.id, Lineage(nodes, node), except)
  }

  function Query(catalog: seq<Parameter>, values: seq<ParameterValue>, nodes: map<string, Node>,
                 visible: set<string>, node: string, mode: Option<Mode>, except: Option<string>): (r: seq<Parameter>)
    ensures forall p :: p in r <==> p in catalog && Selected(nodes, values, visible, node, mode, except, p)
    ensures forall p :: multiset(r)[p] == if Selected(nodes, values, visible, node, mode, except, p) then multiset(catalog)[p] else 0
    ensures SortedBy(r, UpperId)
  {
    var selected := Filter(catalog, (p: Parameter) => Selected(nodes, values, visible, node, mode, except, p));
    var r := SortBy(selected, UpperId);
    SameMembers(selected, r);
    r
  }

  /**
   * `getOrphanParameters`: the parameters of the node, its parent or its grandparent, for mode
   * `ALL` or the requested one, with no value on any of those three nodes, the node being
   * visible; ordered by upper-cased identifier.
   */
  function OrphanParameters(catalog: seq<Parameter>, values: seq<ParameterValue>, nodes: map<string, Node>,
                            visible: set<string>, node: string, mode: Option<Mode>): (r: seq<Parameter>)
    ensures forall p :: p in r <==>
      && p in catalog && node in nodes && node in visible
      && (p.owner == node || Parent(nodes, node) == Some(p.owner)
          || (Parent(nodes, node).Some? && Parent(nodes, Parent(nodes, node).value) == Some(p.owner)))
      && (p.mode == Some(All) || (p.mode.Some? && p.mode == mode))
      && !(exists v :: v in values && v.parameter == p.id && v.node.Some? && v.node.value in Lineage(nodes, node))
    ensures forall p :: multiset(r)[p] == if p in r then multiset(catalog)[p] else 0
    ensures forall i, j :: 0 <= i < j < |r| ==> LessEq(ToUpper(r[i].id), ToUpper(r[j].id))
  {
    Query(catalog, values, nodes, visible, node, mode, None)
  }

  /**
   * `getOrphanParametersExt`: the same selection, except that values attached to the node
   * itself do not exclude a parameter; only values on its parent or grandparent do.
   */
  function OrphanParametersExt(catalog: seq<Parameter>, values: seq<ParameterValue>, nodes: map<string, Node>,
                               visible: set<string>, node: string, mode: Option<Mode>): (r: seq<Parameter>)
    ensures forall p :: p in r <==>
      && p in catalog && node in nodes && node in visible
      && p.owner in Lineage(nodes, node)
      && (p.mode == Some(All) || (p.mode.Some? && p.mode == mode))
      && !(exists v :: v in values && v.parameter == p.id && v.node.Some? && v.node.value != node
                       && v.node.value in Lineage(nodes, node))
    ensures forall p :: multiset(r)[p] == if p in r then multiset(catalog)[p] else 0
    ensures forall i, j :: 0 <= i < j < |r| ==> LessEq(ToUpper(r[i].id), ToUpper(r[j].id))
  {
    Query(catalog, values, nodes, visible, node, mode, Some(node))
  }

  /**
   * Everything `getOrphanParameters` returns, `getOrphanParametersExt` returns too, and what
   * only the latter returns has a value on the node itself.
   */
  lemma ExtIsSuperset(catalog: seq<Parameter>, values: seq<ParameterValue>, nodes: map<string, Node>,
                      visible: set<string>, node: string, mode: Option<Mode>)
    ensures forall p :: p in OrphanParameters(catalog, values, nodes, visible, node, mode) ==>
      p in OrphanParametersExt(catalog, values, nodes, visible, node, mode)
    ensures forall p :: p in OrphanParametersExt(catalog, values, nodes, visible, node, mode) &&
                        p !in OrphanParameters(catalog, values, nodes, visible, node, mode) ==>
      exists v :: v in values && v.parameter == p.id && v.node == Some(node)
  {
  }

  /** A parameter whose owner lies above the grandparent is never offered. */
  lemma OwnershipStopsAtGrandparent(catalog: seq<Parameter>, values: seq<ParameterValue>, nodes: map<string, Node>,
                                    visible: set<string>, node: string, mode: Option<Mode>, p: Parameter)
    requires Closed(nodes)
    requires |Ancestry(nodes, node)| > 3 && p.owner in Ancestry(nodes, node)[3..]
    ensures p !in OrphanParameters(catalog, values, nodes, visible, node, mode)
  {
    var a := Ancestry(nodes, node);
    AncestryLinks(nodes, node);
    assert a[0] == node && Parent(nodes, a[0]) == Some(a[1]) && Parent(nodes, a[1]) == Some(a[2]);
    assert |p.owner| < |a[2]|;
  }

  // ---------------------------------------------------------------- findOneVisible

  /** `findOneVisible`: the parameter with this identifier when its owner node is visible. */
  function FindOneVisible(catalog: seq<Parameter>, visible: set<string>, id: string): (r: Option<Parameter>)
    ensures r.Some? ==> r.value in catalog && r.value.id == id && r.value.owner in visible
    ensures r.None? <==> !exists p :: p in catalog && p.id == id && p.owner in visible
    decreases |catalog|
  {
    if catalog == [] then None
    else if catalog[0].id == id && catalog[0].owner in visible then Some(catalog[0])
    else
      assert catalog == [catalog[0]] + catalog[1..];
      FindOneVisible(catalog[1..], visible, id)
  }

  // ---------------------------------------------------------------- deleteByNode

  /** `owner.id = :node OR owner.id LIKE CONCAT(:node, ':%')`: the node or one of its sub-nodes. */
  predicate InSubtree(owner: string, node: string)
  {
    owner == node || node + [':'] <= owner
  }

  /** `deleteByNode`: the parameter table once the parameters of the node's subtree are gone. */
  function DeleteByNode(catalog: seq<Parameter>, node: string): (r: seq<Parameter>)
    ensures forall p :: p in r <==> p in catalog && p.owner != node && !(node + [':'] <= p.owner)
    ensures forall p :: multiset(r)[p] == if InSubtree(p.owner, node) then 0 else multiset(catalog)[p]
  {
    Filter(catalog, (p: Parameter) => !InSubtree(p.owner, node))
  }

  /** A node that only shares a prefix, such as `k-x` for `k`, keeps its parameters. */
  lemma DeleteByNodeKeepsSibling(catalog: seq<Parameter>, node: string, p: Parameter, suffix: string)
    requires p in catalog
    requires p.owner == node + "-" + suffix
    ensures p in DeleteByNode(catalog, node)
  {
    assert p.owner[|node|] == '-';
    assert (node + [':'])[|node|] == ':';
  }

  /** Every parameter owned by a sub-node `k:…` goes. */
  lemma DeleteByNodeRemovesSubNodes(catalog: seq<Parameter>, node: string, p: Parameter, rest: string)
    requires p.owner == node + ":" + rest
    ensures p !in DeleteByNode(catalog, node)
  {
    assert node + [':'] <= p.owner;
  }

  /** Deleting a subtree twice deletes nothing more. */
  lemma DeleteByNodeIdempotent(catalog: seq<Parameter>, node: string)
    ensures DeleteByNode(DeleteByNode(catalog, node), node) == DeleteByNode(catalog, node)
  {
    var once := DeleteByNode(catalog, node);
    FilterKeepsAll(once, (p: Parameter) => !InSubtree(p.owner, node));
  }

  lemma {:induction false} FilterKeepsAll<T(!new)>(s: seq<T>, keep: T -> bool)
    requires forall x :: x in s ==> keep(x)
    ensures Filter(s, keep) == s
    decreases |s|
  {
    if s != [] {
      FilterKeepsAll(s[1..], keep);
    }
  }
}
