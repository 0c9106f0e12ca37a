/**
 * `ToVoConverter`: a project entity to its detailed view. The (subscription, parameter value)
 * rows are grouped into a map keyed by subscription identifier, the project's subscriptions
 * without parameters are merged in, each subscription gets the status of its last event, and
 * the subscriptions are returned ordered by node identifier.
 */
module ToVo {
  import opened Wrappers
  import opened Strings
  import opened Sequences
  import opened Nodes

  /** A subscription entity: its identifier and the node it subscribes to. */
  datatype SubscriptionEntity = SubscriptionEntity(id: int, node: Node)

  /** One row of the query: a subscription and one of its parameter values, already parsed. */
  datatype ParameterRow = ParameterRow(subscription: SubscriptionEntity, parameter: string, value: string)

  /** The project entity, as far as the conversion reads it. */
  datatype Project = Project(id: int, name: string, description: string, pkey: string,
                             teamLeader: string, subscriptions: seq<SubscriptionEntity>)

  /** `SubscriptionVo`: parameter values keyed by parameter identifier, and the optional status. */
  datatype SubscriptionVo = SubscriptionVo(id: int, node: Node, parameters: map<string, string>, status: Option<string>)

  /** `ProjectVo`; `teamLeader` is what the user converter made of the entity's team leader. */
  datatype ProjectVo = ProjectVo(id: int, name: string, description: string, pkey: string,
                                 teamLeader: string, subscriptions: seq<SubscriptionVo>)

  function NodeKey(s: SubscriptionVo): string { s.node.id }

  function VoId(s: SubscriptionVo): int { s.id }

  // ---------------------------------------------------------------- what the result holds

  /** The subscriptions in the order `apply` meets them: those of the rows, then the project's own. */
  function Met(rows: seq<ParameterRow>, project: Project): (r: seq<SubscriptionEntity>)
    ensures |r| == |rows| + |project.subscriptions|
    ensures forall i :: 0 <= i < |rows| ==> r[i] == rows[i].subscription
    ensures forall i :: 0 <= i < |project.subscriptions| ==> r[|rows| + i] == project.subscriptions[i]
  {
    seq(|rows|, i requires 0 <= i < |rows| => rows[i].subscription) + project.subscriptions
  }

  /**
   * The node of the first subscription met with this identifier: `computeIfAbsent` builds the
   * view once, from the first entity, and later entities with that identifier change nothing.
   */
  function FirstNode(met: seq<SubscriptionEntity>, id: int): Option<Node>
    decreases |met|
  {
    if met == [] then None
    else
      var first := FirstNode(met[..|met| - 1], id);
      if first.Some? then first
      else if met[|met| - 1].id == id then Some(met[|met| - 1].node)
      else None
  }

  /** Meeting one more entity only settles the node of an identifier not met before. */
  lemma FirstNodeSnoc(met: seq<SubscriptionEntity>, e: SubscriptionEntity)
    ensures forall id :: FirstNode(met, id).Some? ==> FirstNode(met + [e], id) == FirstNode(met, id)
    ensures forall id :: FirstNode(met, id).None? ==> FirstNode(met + [e], id) == if e.id == id then Some(e.node) else None
  {
    assert (met + [e])[..|met|] == met;
  }

  /** `FirstNode` finds a node exactly when the identifier is met, and it is the first one's. */
  lemma {:induction false} FirstNodeIsFirst(met: seq<SubscriptionEntity>, id: int)
    ensures FirstNode(met, id).None? <==> forall k :: 0 <= k < |met| ==> met[k].id != id
    ensures FirstNode(met, id).Some? ==>
      exists k :: 0 <= k < |met| && met[k].id == id && met[k].node == FirstNode(met, id).value
                  && forall k' :: 0 <= k' < k ==> met[k'].id != id
    decreases |met|
  {
    if met != [] {
      var init := met[..|met| - 1];
      FirstNodeIsFirst(init, id);
      assert forall k :: 0 <= k < |init| ==> met[k] == init[k];
      if FirstNode(init, id).Some? {
        var k :| 0 <= k < |init| && init[k].id == id && init[k].node == FirstNode(init, id).value
                 && forall k' :: 0 <= k' < k ==> init[k'].id != id;
        assert met[k] == init[k];
      } else if met[|met| - 1].id == id {
        assert FirstNode(met, id) == Some(met[|met| - 1].node);
      }
    }
  }

  /** The parameter values the rows give to the subscription `id`, a later row replacing an earlier one. */
  function ParametersOf(rows: seq<ParameterRow>, id: int): map<string, string>
    decreases |rows|
  {
    if rows == [] then map[]
    else
      var previous := ParametersOf(rows[..|rows| - 1], id);
      var last := rows[|rows| - 1];
      if last.subscription.id == id then previous[last.parameter := last.value] else previous
  }

  /** Some row of the subscription sets the parameter. */
  ghost predicate SetsParameter(rows: seq<ParameterRow>, k: int, id: int, parameter: string)
  {
    0 <= k < |rows| && rows[k].subscription.id == id && rows[k].parameter == parameter
  }

  /**
   * Every parameter some row of the subscription sets is in its map, nothing else is, and its
   * value is the one of the last such row.
   */
  lemma {:induction false} ParametersOfLastWins(rows: seq<ParameterRow>, id: int, parameter: string)
    ensures parameter in ParametersOf(rows, id) <==> exists k :: SetsParameter(rows, k, id, parameter)
    ensures forall k :: SetsParameter(rows, k, id, parameter)
                        && (forall k' :: k < k' < |rows| ==> !SetsParameter(rows, k', id, parameter)) ==>
      parameter in ParametersOf(rows, id) && ParametersOf(rows, id)[parameter] == rows[k].value
    decreases |rows|
  {
    if rows != [] {
      var init, last := rows[..|rows| - 1], rows[|rows| - 1];
      ParametersOfLastWins(init, id, parameter);
      forall k | 0 <= k < |init| ensures SetsParameter(rows, k, id, parameter) <==> SetsParameter(init, k, id, parameter) {
        assert rows[k] == init[k];
      }
      if SetsParameter(rows, |rows| - 1, id, parameter) {
        assert ParametersOf(rows, id) == ParametersOf(init, id)[parameter := last.value];
      } else {
        assert ParametersOf(rows, id) == ParametersOf(init, id)
          || ParametersOf(rows, id) == ParametersOf(init, id)[last.parameter := last.value];
        if parameter in ParametersOf(rows, id) {
          var k :| SetsParameter(init, k, id, parameter);
          assert SetsParameter(rows, k, id, parameter);
        }
        forall k | SetsParameter(rows, k, id, parameter)
                   && (forall k' :: k < k' < |rows| ==> !SetsParameter(rows, k', id, parameter))
          ensures parameter in ParametersOf(rows, id) && ParametersOf(rows, id)[parameter] == rows[k].value
        {
          assert SetsParameter(init, k, id, parameter);
          assert rows[k] == init[k];
        }
      }
    }
  }

  /** A subscription of the project without any row keeps an empty parameter map. */
  lemma NoRowNoParameter(rows: seq<ParameterRow>, id: int)
    requires forall k :: 0 <= k < |rows| ==> rows[k].subscription.id != id
    ensures ParametersOf(rows, id) == map[]
  {
    forall parameter ensures parameter !in ParametersOf(rows, id) {
      ParametersOfLastWins(rows, id, parameter);
    }
  }

  // ---------------------------------------------------------------- the converter

  /**
   * `ToVoConverter`: the rows of subscriptions with their parameter values, the last event of
   * each subscription keyed by subscription identifier, and the user converter.
   */
  datatype Converter = Converter(rows: seq<ParameterRow>, lastEvents: map<int, string>, users: string -> string)
  {
    /** The status of a subscription: that of its last event, and none when it has none. */
    function Status(id: int): (r: Option<string>)
      ensures r.Some? <==> id in lastEvents
      ensures r.Some? ==> r.value == lastEvents[id]
    {
      if id in lastEvents then Some(lastEvents[id]) else None
    }

    /** The view of the subscription `id` once every row and every project subscription is met. */
    function Expected(project: Project, id: int): SubscriptionVo
      requires FirstNode(Met(rows, project), id).Some?
    {
      SubscriptionVo(id, FirstNode(Met(rows, project), id).value, ParametersOf(rows, id), Status(id))
    }

    /** The view `addVo` builds for a subscription not in the map yet: no parameter value yet. */
    function Fresh(entity: SubscriptionEntity): (vo: SubscriptionVo)
      ensures vo.id == entity.id && vo.node == entity.node && vo.parameters == map[]
      ensures vo.status.Some? <==> entity.id in lastEvents
    {
      SubscriptionVo(entity.id, entity.node, map[], Status(entity.id))
    }

    /**
     * `addVo`: the view already in the map for this identifier, or a fresh one with the node,
     * no parameter value and the status of its last event, which is then stored.
     */
    method AddVo(subscriptions: map<int, SubscriptionVo>, entity: SubscriptionEntity)
      returns (updated: map<int, SubscriptionVo>, vo: SubscriptionVo)
      ensures entity.id in updated && vo == updated[entity.id]
      ensures entity.id in subscriptions ==> updated == subscriptions
      ensures entity.id !in subscriptions ==> updated == subscriptions[entity.id := vo] && vo == Fresh(entity)
    {
      if entity.id in subscriptions {
        updated, vo := subscriptions, subscriptions[entity.id];
      } else {
        vo := Fresh(entity);
        updated := subscriptions[entity.id := vo];
      }
    }

    /**
     * The map once the subscriptions `met` are met and the rows `done` are put: one view per
     * identifier met, with the first node met, the rows' parameter values and the status.
     */
    ghost predicate Grouped(subscriptions: map<int, SubscriptionVo>, met: seq<SubscriptionEntity>, done: seq<ParameterRow>)
    {
      forall id ::
        && (id in subscriptions <==> FirstNode(met, id).Some?)
        && (id in subscriptions ==>
              subscriptions[id] == SubscriptionVo(id, FirstNode(met, id).value, ParametersOf(done, id), Status(id)))
    }

    /** A subscription met for the first time has no row among those met before it. */
    lemma FirstMet(met: seq<SubscriptionEntity>, done: seq<ParameterRow>, id: int)
      requires |done| <= |met| && forall k :: 0 <= k < |done| ==> met[k] == done[k].subscription
      requires FirstNode(met, id).None?
      ensures ParametersOf(done, id) == map[]
    {
      FirstNodeIsFirst(met, id);
      forall k | 0 <= k < |done| ensures done[k].subscription.id != id {
        assert met[k] == done[k].subscription;
      }
      NoRowNoParameter(done, id);
    }

    /** Putting the value of row `i` into the view `addVo` returned keeps the map grouped. */
    lemma RowStep(project: Project, subscriptions: map<int, SubscriptionVo>, i: nat)
      requires i < |rows|
      requires Grouped(subscriptions, Met(rows, project)[..i], rows[..i])
      ensures var row := rows[i];
        var id := row.subscription.id;
        var current := if id in subscriptions then subscriptions[id] else Fresh(row.subscription);
        Grouped(subscriptions[id := current.(parameters := current.parameters[row.parameter := row.value])],
                Met(rows, project)[..i + 1], rows[..i + 1])
    {
      var met, done, row := Met(rows, project)[..i], rows[..i], rows[i];
      assert Met(rows, project)[..i + 1] == met + [row.subscription];
      assert rows[..i + 1] == done + [row];
      FirstNodeSnoc(met, row.subscription);
      assert (done + [row])[..|done|] == done;
      if row.subscription.id !in subscriptions {
        FirstMet(met, done, row.subscription.id);
      }
    }

    /** Merging project subscription `j` through `addVo` keeps the map grouped. */
    lemma MergeStep(project: Project, subscriptions: map<int, SubscriptionVo>, j: nat)
      requires j < |project.subscriptions|
      requires Grouped(subscriptions, Met(rows, project)[..|rows| + j], rows)
      ensures var entity := project.subscriptions[j];
        Grouped(if entity.id in subscriptions then subscriptions else subscriptions[entity.id := Fresh(entity)],
                Met(rows, project)[..|rows| + j + 1], rows)
    {
      var met, entity := Met(rows, project)[..|rows| + j], project.subscriptions[j];
      assert Met(rows, project)[..|rows| + j + 1] == met + [entity];
      assert forall k :: 0 <= k < |rows| ==> met[k] == rows[k].subscription;
      Merged(subscriptions, met, entity);
    }

    /** `addVo` on one more entity, once every row has been met. */
    lemma Merged(subscriptions: map<int, SubscriptionVo>, met: seq<SubscriptionEntity>, entity: SubscriptionEntity)
      requires |rows| <= |met| && forall k :: 0 <= k < |rows| ==> met[k] == rows[k].subscription
      requires Grouped(subscriptions, met, rows)
      ensures Grouped(if entity.id in subscriptions then subscriptions else subscriptions[entity.id := Fresh(entity)],
                      met + [entity], rows)
    {
      FirstNodeSnoc(met, entity);
      if entity.id !in subscriptions {
        FirstMet(met, rows, entity.id);
      }
    }

    /**
     * `apply`: the project's own fields, the team leader through the user converter, and each
     * subscription met once, with the parameter values of its rows (the last row winning), its
     * status, ordered by node identifier and, for one node, by subscription identifier.
     */
    method Apply(project: Project) returns (vo: ProjectVo)
      ensures vo.id == project.id && vo.name == project.name && vo.description == project.description
      ensures vo.pkey == project.pkey
      ensures vo.teamLeader == users(project.teamLeader)
      ensures forall s :: s in vo.subscriptions <==>
        FirstNode(Met(rows, project), s.id).Some? && s == Expected(project, s.id)
      ensures SortedByThen(vo.subscriptions, NodeKey, VoId)
      ensures forall i, j :: 0 <= i < j < |vo.subscriptions| ==> vo.subscriptions[i].id != vo.subscriptions[j].id
    {
      var subscriptions := Group(project);
      var values := Values(subscriptions);
      GroupedValues(project, subscriptions, values);
      SortByIsStable(values, NodeKey, VoId);
      var sorted := SortBy(values, NodeKey);
      SameMembers(values, sorted);
      SortedViewsDistinct(sorted);
      vo := ProjectVo(project.id, project.name, project.description, project.pkey, users(project.teamLeader), sorted);
    }

    /** The values of the grouped map are the expected views of the identifiers met. */
    lemma GroupedValues(project: Project, subscriptions: map<int, SubscriptionVo>, values: seq<SubscriptionVo>)
      requires Grouped(subscriptions, Met(rows, project), rows)
      requires forall v :: v in values <==> v.id in subscriptions && subscriptions[v.id] == v
      ensures forall s :: s in values <==> FirstNode(Met(rows, project), s.id).Some? && s == Expected(project, s.id)
    {
    }

    /**
     * The `TreeMap` of `apply`: each row put into the view `addVo` returns for its
     * subscription, then each subscription of the project merged in through `addVo`.
     */
    method Group(project: Project) returns (subscriptions: map<int, SubscriptionVo>)
      ensures Grouped(subscriptions, Met(rows, project), rows)
    {
      subscriptions := PutRows(project);
      for j := 0 to |project.subscriptions|
        invariant Grouped(subscriptions, Met(rows, project)[..|rows| + j], rows)
      {
        MergeStep(project, subscriptions, j);
        var added;
        subscriptions, added := AddVo(subscriptions, project.subscriptions[j]);
      }
      assert Met(rows, project)[..|rows| + |project.subscriptions|] == Met(rows, project);
    }

    /** The first loop of `apply`: every row's value put into its subscription's view. */
    method PutRows(project: Project) returns (subscriptions: map<int, SubscriptionVo>)
      ensures Grouped(subscriptions, Met(rows, project)[..|rows|], rows)
    {
      subscriptions := map[];
      for i := 0 to |rows|
        invariant Grouped(subscriptions, Met(rows, project)[..i], rows[..i])
      {
        var row := rows[i];
        RowStep(project, subscriptions, i);
        var updated, current := AddVo(subscriptions, row.subscription);
        subscriptions := updated[row.subscription.id := current.(parameters := current.parameters[row.parameter := row.value])];
      }
      assert rows[..|rows|] == rows;
    }
  }

  /**
   * Views sorted by node then strictly by identifier, one view per identifier: no identifier
   * appears twice.
   */
  lemma SortedViewsDistinct(s: seq<SubscriptionVo>)
    requires SortedByThen(s, NodeKey, VoId)
    requires forall x, y :: x in s && y in s && x.id == y.id ==> x == y
    ensures forall i, j :: 0 <= i < j < |s| ==> s[i].id != s[j].id
  {
    forall i, j | 0 <= i < j < |s| ensures s[i].id != s[j].id {
      if s[i].id == s[j].id {
        assert s[i] == s[j];
        LessIrreflexive(NodeKey(s[i]));
      }
    }
  }

  // ---------------------------------------------------------------- the map's values in key order

  /** Strictly increasing subscription identifiers: the iteration order of a `TreeMap<Integer, _>`. */
  ghost predicate IncreasingIds(s: seq<SubscriptionVo>)
  {
    forall i, j :: 0 <= i < j < |s| ==> s[i].id < s[j].id
  }

  /** `x` put at its place among views of smaller and greater identifiers. */
  function InsertById(s: seq<SubscriptionVo>, x: SubscriptionVo): (r: seq<SubscriptionVo>)
    requires IncreasingIds(s) && forall y :: y in s ==> y.id != x.id
    ensures IncreasingIds(r)
    ensures forall y :: y in r <==> y in s || y == x
    decreases |s|
  {
    if s == [] || s[|s| - 1].id < x.id then s + [x]
    else
      var init, last := s[..|s| - 1], s[|s| - 1];
      assert s == init + [last];
      BelowLast(s);
      var r' := InsertById(init, x);
      r' + [last]
  }

  /** In increasing order, every view before the last has a smaller identifier. */
  lemma BelowLast(s: seq<SubscriptionVo>)
    requires IncreasingIds(s) && s != []
    ensures forall y :: y in s[..|s| - 1] ==> y.id < s[|s| - 1].id
  {
    forall y | y in s[..|s| - 1] ensures y.id < s[|s| - 1].id {
      var k :| 0 <= k < |s| - 1 && s[k] == y;
    }
  }

  /** `subscriptions.values()`: the views in increasing identifier order. */
  method Values(subscriptions: map<int, SubscriptionVo>) returns (s: seq<SubscriptionVo>)
    requires forall id :: id in subscriptions ==> subscriptions[id].id == id
    ensures IncreasingIds(s)
    ensures forall v :: v in s <==> v.id in subscriptions && subscriptions[v.id] == v
  {
    s := [];
    var rest := subscriptions.Keys;
    while rest != {}
      invariant rest <= subscriptions.Keys
      invariant IncreasingIds(s)
      invariant forall v :: v in s <==> v.id in subscriptions && v.id !in rest && subscriptions[v.id] == v
      decreases rest
    {
      assert (forall k :: k !in rest) ==> rest == {};
      var key :| key in rest;
      s := InsertById(s, subscriptions[key]);
      rest := rest - {key};
    }
  }
}
