/**
 * `SubscriptionResource.findAll`: the visible projects, their subscriptions in a set ordered
 * case-insensitively by project name and identifier, and the subscribed nodes with all their
 * ancestors, ordered by node identifier.
 */
module SubscriptionListing {
  import opened Wrappers
  import opened Strings
  import opened Sequences
  import opened Nodes

  // ---------------------------------------------------------------- the node wrappers

  /** `SubscribedNodeVo`: a copy of the node whose `refined` holds its parent's identifier. */
  datatype SubscribedNode = SubscribedNode(id: string, name: string, refined: Option<string>)

  /** The wrapper `addNodeAsNeeded` builds for a node. */
  function Wrap(node: Node): (w: SubscribedNode)
    ensures w.id == node.id && w.name == node.name && w.refined == node.refined
  {
    SubscribedNode(node.id, node.name, node.refined)
  }

  function NodeId(n: SubscribedNode): string { n.id }

  /** Every entry is the wrapper of the stored node of that key. */
  ghost predicate Wrapped(filtered: map<string, SubscribedNode>, nodes: map<string, Node>)
  {
    forall k :: k in filtered ==> k in nodes && filtered[k] == Wrap(nodes[k])
  }

  /** The ancestors of every entry are entries too. */
  ghost predicate UpwardClosed(filtered: map<string, SubscribedNode>, nodes: map<string, Node>)
    requires Closed(nodes)
  {
    forall k :: k in filtered ==> forall a :: a in Ancestry(nodes, k) ==> a in filtered
  }

  /**
   * Upward closed but for entries below `target` that are waiting for the ancestry of
   * `target` to be added: the state of the map inside the recursion.
   */
  ghost predicate ClosedBelow(filtered: map<string, SubscribedNode>, nodes: map<string, Node>, target: string)
    requires Closed(nodes)
  {
    forall k :: k in filtered ==>
      || (forall a :: a in Ancestry(nodes, k) ==> a in filtered)
      || (&& k != target && target in Ancestry(nodes, k)
          && forall a :: a in Ancestry(nodes, k) ==> a in filtered || a in Ancestry(nodes, target))
  }

  /**
   * `addNodeAsNeeded`: adds the wrapper of the node and, through `refined`, of its ancestors,
   * stopping at the first one already present; existing entries are left as they are. Started
   * on a map whose entries have their ancestors, it leaves the node and all its ancestors in.
   */
  method AddNodeAsNeeded(filtered: map<string, SubscribedNode>, nodes: map<string, Node>, node: Node)
    returns (r: map<string, SubscribedNode>)
    requires Closed(nodes) && node.id in nodes && nodes[node.id] == node
    ensures forall k :: k in filtered ==> k in r && r[k] == filtered[k]
    ensures forall k :: k in r && k !in filtered ==> k in Ancestry(nodes, node.id) && r[k] == Wrap(nodes[k])
    ensures node.id in filtered ==> r == filtered
    ensures ClosedBelow(filtered, nodes, node.id) ==>
      UpwardClosed(r, nodes) && forall a :: a in Ancestry(nodes, node.id) ==> a in r
    decreases |node.id|
  {
    r := filtered;
    if node.id !in r {
      r := r[node.id := Wrap(node)];
      if node.refined.Some? {
        var parent := node.refined.value;
        assert Ancestry(nodes, node.id) == [node.id] + Ancestry(nodes, parent);
        if ClosedBelow(filtered, nodes, node.id) {
          ClosedBelowStep(filtered, nodes, node.id, parent);
        }
        r := AddNodeAsNeeded(r, nodes, nodes[parent]);
      }
    }
  }

  /** Adding `target` to the map leaves it closed below `target`'s parent. */
  lemma ClosedBelowStep(filtered: map<string, SubscribedNode>, nodes: map<string, Node>, target: string, parent: string)
    requires Closed(nodes) && target in nodes && nodes[target].refined == Some(parent)
    requires target !in filtered && ClosedBelow(filtered, nodes, target)
    ensures ClosedBelow(filtered[target := Wrap(nodes[target])], nodes, parent)
  {
    var f := filtered[target := Wrap(nodes[target])];
    assert Ancestry(nodes, target) == [target] + Ancestry(nodes, parent);
    forall k | k in f
      ensures || (forall a :: a in Ancestry(nodes, k) ==> a in f)
              || (&& k != parent && parent in Ancestry(nodes, k)
                  && forall a :: a in Ancestry(nodes, k) ==> a in f || a in Ancestry(nodes, parent))
    {
      if k != target && !(forall a :: a in Ancestry(nodes, k) ==> a in filtered) {
        AncestryClosed(nodes, k, target);
        assert parent in Ancestry(nodes, k);
        assert |parent| < |target| <= |k|;
      }
    }
  }

  // ---------------------------------------------------------------- findAll

  /** `SubscribingProjectVo`: a visible project having subscriptions. */
  datatype ProjectRow = ProjectRow(id: int, name: string, pkey: string)

  /** `SubscriptionLightVo`: a subscription's identifier, project and node. */
  datatype SubscriptionRow = SubscriptionRow(id: int, project: int, node: string)

  /** `SubscriptionListVo`. */
  datatype SubscriptionList = SubscriptionList(
    projects: seq<ProjectRow>, subscriptions: seq<SubscriptionRow>, nodes: seq<SubscribedNode>)

  /** `projectsMap`: project identifier to name, a later row replacing an earlier one. */
  function ProjectNames(projects: seq<ProjectRow>): (names: map<int, string>)
    ensures forall p :: p in projects ==> p.id in names
    ensures forall id :: id in names ==> exists p :: p in projects && p.id == id && p.name == names[id]
    ensures forall i :: 0 <= i < |projects| && (forall j :: i < j < |projects| ==> projects[j].id != projects[i].id) ==>
              names[projects[i].id] == projects[i].name
    decreases |projects|
  {
    if projects == [] then map[]
    else
      var last := projects[|projects| - 1];
      var init := projects[..|projects| - 1];
      assert projects == init + [last];
      ProjectNames(init)[last.id := last.name]
  }

  /** The name of a row's project (`FindAll` only sees rows whose project is known). */
  function ProjectName(names: map<int, string>, row: SubscriptionRow): string
  {
    if row.project in names then names[row.project] else ""
  }

  /** The comparator's operand: `projectName + "," + id`, compared ignoring case. */
  function SortKey(names: map<int, string>, row: SubscriptionRow): string
  {
    ToLower(ProjectName(names, row) + "," + IntToString(row.id))
  }

  /** Two subscriptions the comparator finds equal have the same identifier. */
  lemma SortKeyInjective(names: map<int, string>, a: SubscriptionRow, b: SubscriptionRow)
    requires SortKey(names, a) == SortKey(names, b)
    ensures a.id == b.id
  {
    var ka, kb := IntToString(a.id), IntToString(b.id);
    LowerOfKey(ProjectName(names, a), a.id);
    LowerOfKey(ProjectName(names, b), b.id);
    NoCommaInNumber(a.id);
    NoCommaInNumber(b.id);
    SplitLast(ToLower(ProjectName(names, a)), ',', ka);
    SplitLast(ToLower(ProjectName(names, b)), ',', kb);
    var sa := Split(ToLower(ProjectName(names, a)) + [','] + ka, ',');
    assert sa[|sa| - 1] == ka;
    IntToStringInjective(a.id, b.id);
  }

  lemma LowerOfKey(name: string, id: int)
    ensures ToLower(name + "," + IntToString(id)) == ToLower(name) + [','] + IntToString(id)
  {
    var s := IntToString(id);
    DigitsAreLower(id);
    assert name + "," + s == name + [','] + s;
    var l, r := ToLower(name + [','] + s), ToLower(name) + [','] + s;
    forall i | 0 <= i < |l| ensures l[i] == r[i] {
      if i > |name| { assert (name + [','] + s)[i] == s[i - |name| - 1]; }
    }
  }

  lemma DigitsAreLower(id: int)
    ensures ToLower(IntToString(id)) == IntToString(id)
  {
    NumberChars(id);
  }

  lemma NoCommaInNumber(id: int)
    ensures ',' !in IntToString(id)
  {
    NumberChars(id);
  }

  /** `Integer.toString` writes only digits and a minus sign. */
  lemma NumberChars(id: int)
    ensures forall i :: 0 <= i < |IntToString(id)| ==> IsDigit(IntToString(id)[i]) || IntToString(id)[i] == '-'
  {
    var s := IntToString(id);
    if id < 0 {
      NatToStringDigits(-id);
      forall i | 0 <= i < |s| ensures IsDigit(s[i]) || s[i] == '-' {
        if i > 0 { assert s[i] == NatToString(-id)[i - 1]; }
      }
    } else {
      NatToStringDigits(id);
    }
  }

  /** The subscriptions visited and the nodes they reach, ancestors included. */
  ghost predicate Reaches(nodes: map<string, Node>, rows: seq<SubscriptionRow>, k: string)
    requires Closed(nodes)
  {
    exists row :: row in rows && k in Ancestry(nodes, row.node)
  }

  /** The order of the subscriptions' `TreeSet`. */
  ghost predicate OrderedByProject(s: seq<SubscriptionRow>, names: map<int, string>)
  {
    forall i, j :: 0 <= i < j < |s| ==> Less(SortKey(names, s[i]), SortKey(names, s[j]))
  }

  ghost predicate DistinctIds(rows: seq<SubscriptionRow>)
  {
    forall i, j :: 0 <= i < j < |rows| ==> rows[i].id != rows[j].id
  }

  /**
   * `findAll`: the projects as given; each subscription once, ordered case-insensitively by
   * project name then identifier; each subscribed node and each of its ancestors once, as a
   * wrapper linking it to its parent, ordered by node identifier.
   */
  method FindAll(projects: seq<ProjectRow>, rows: seq<SubscriptionRow>, nodes: map<string, Node>)
    returns (result: SubscriptionList)
    requires Closed(nodes)
    requires forall row :: row in rows ==> row.node in nodes && row.project in ProjectNames(projects)
    ensures result.projects == projects
    ensures OrderedByProject(result.subscriptions, ProjectNames(projects))
    ensures forall row :: row in result.subscriptions ==> row in rows
    ensures DistinctIds(rows) ==> forall row :: row in rows ==> row in result.subscriptions
    ensures StrictlySorted(result.nodes, NodeId)
    ensures forall n :: n in result.nodes <==> n.id in nodes && n == Wrap(nodes[n.id]) && Reaches(nodes, rows, n.id)
  {
    var names := ProjectNames(projects);
    var key := (row: SubscriptionRow) => SortKey(names, row);
    var subscriptions: seq<SubscriptionRow> := [];
    var filtered: map<string, SubscribedNode> := map[];
    for i := 0 to |rows|
      invariant StrictlySorted(subscriptions, key)
      invariant forall row :: row in subscriptions ==> row in rows[..i]
      invariant DistinctIds(rows) ==> forall row :: row in rows[..i] ==> row in subscriptions
      invariant Wrapped(filtered, nodes) && UpwardClosed(filtered, nodes)
      invariant forall k :: k in filtered <==> Reaches(nodes, rows[..i], k)
    {
      var row := rows[i];
      assert rows[..i + 1] == rows[..i] + [row];
      ghost var before := subscriptions;
      AddToSetSorted(subscriptions, row, key);
      AddToSetMembers(subscriptions, row, key);
      subscriptions := AddToSet(subscriptions, row, key);
      if DistinctIds(rows) {
        NoKeyClash(names, rows, i, before);
        assert !HasKey(before, key(row), key);
      }

      ghost var previous := filtered;
      filtered := AddNodeAsNeeded(filtered, nodes, nodes[row.node]);
      ReachesStep(nodes, rows, i, previous, filtered);
    }
    assert rows[..|rows|] == rows;
    var sortedNodes := Values(filtered);
    result := SubscriptionList(projects, subscriptions, sortedNodes);
  }

  /** Under distinct identifiers, no subscription met before compares equal to the next one. */
  lemma NoKeyClash(names: map<int, string>, rows: seq<SubscriptionRow>, i: nat, before: seq<SubscriptionRow>)
    requires i < |rows| && DistinctIds(rows)
    requires forall row :: row in before ==> row in rows[..i]
    ensures forall y :: y in before ==> SortKey(names, y) != SortKey(names, rows[i])
  {
    forall y | y in before ensures SortKey(names, y) != SortKey(names, rows[i]) {
      var j :| 0 <= j < i && rows[..i][j] == y;
      assert rows[j] == y;
      if SortKey(names, y) == SortKey(names, rows[i]) {
        SortKeyInjective(names, y, rows[i]);
      }
    }
  }

  /** One more subscription: the map gains its node and ancestors, and stays upward closed. */
  lemma ReachesStep(nodes: map<string, Node>, rows: seq<SubscriptionRow>, i: nat,
                    previous: map<string, SubscribedNode>, filtered: map<string, SubscribedNode>)
    requires Closed(nodes) && i < |rows| && rows[i].node in nodes
    requires Wrapped(previous, nodes) && UpwardClosed(previous, nodes)
    requires forall k :: k in previous <==> Reaches(nodes, rows[..i], k)
    requires forall k :: k in previous ==> k in filtered && filtered[k] == previous[k]
    requires forall k :: k in filtered && k !in previous ==>
      k in Ancestry(nodes, rows[i].node) && filtered[k] == Wrap(nodes[k])
    requires ClosedBelow(previous, nodes, rows[i].node) ==>
      UpwardClosed(filtered, nodes) && forall a :: a in Ancestry(nodes, rows[i].node) ==> a in filtered
    ensures Wrapped(filtered, nodes) && UpwardClosed(filtered, nodes)
    ensures forall k :: k in filtered <==> Reaches(nodes, rows[..i + 1], k)
  {
    assert ClosedBelow(previous, nodes, rows[i].node);
    forall k ensures k in filtered <==> Reaches(nodes, rows[..i + 1], k) {
      ReachesAppend(nodes, rows, i, k);
    }
  }

  /** A node reached by one more subscription is reached before it or lies in its ancestry. */
  lemma ReachesAppend(nodes: map<string, Node>, rows: seq<SubscriptionRow>, i: nat, k: string)
    requires Closed(nodes) && i < |rows|
    ensures Reaches(nodes, rows[..i + 1], k) <==> Reaches(nodes, rows[..i], k) || k in Ancestry(nodes, rows[i].node)
  {
    assert rows[..i + 1] == rows[..i] + [rows[i]];
    if Reaches(nodes, rows[..i + 1], k) {
      var row :| row in rows[..i + 1] && k in Ancestry(nodes, row.node);
      if row != rows[i] {
        assert row in rows[..i];
      }
    }
    if k in Ancestry(nodes, rows[i].node) {
      assert rows[i] in rows[..i + 1];
    }
  }

  /** `filteredNodes.values()`: the wrappers in the `TreeMap`'s key order. */
  method Values(filtered: map<string, SubscribedNode>) returns (s: seq<SubscribedNode>)
    requires forall k :: k in filtered ==> filtered[k].id == k
    ensures StrictlySorted(s, NodeId)
    ensures forall n :: n in s <==> n.id in filtered && filtered[n.id] == n
  {
    s := [];
    var rest := filtered.Keys;
    while rest != {}
      invariant rest <= filtered.Keys
      invariant StrictlySorted(s, NodeId)
      invariant forall n :: n in s <==> n.id in filtered && n.id !in rest && filtered[n.id] == n
      decreases rest
    {
      var k :| k in rest;
      var n := filtered[k];
      assert !HasKey(s, NodeId(n), NodeId);
      AddToSetSorted(s, n, NodeId);
      AddToSetMembers(s, n, NodeId);
      s := AddToSet(s, n, NodeId);
      rest := rest - {k};
    }
  }
}
