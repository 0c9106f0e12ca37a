/**
 * The subscription life cycle of `SubscriptionResource`: the checks made before a project
 * subscribes to a node, the delegation to the chain of service plugins, and the deletion.
 * The persistent state is a `SubscriptionResource` object whose tables are maps; everything
 * the resource only reads (security, node and parameter tables, plugin locator, which plugin
 * calls fail) is a `Context` value.
 */
module Subscriptions {
  import opened Wrappers
  import opened Sequences
  import opened Nodes
  import opened ParameterRepository

  // ---------------------------------------------------------------- data

  /** `ParameterValueEditionVo`: a value supplied for a parameter. */
  datatype ValueEdition = ValueEdition(parameter: string, value: string)

  /** `SubscriptionEditionVo`; a `null` mode or parameter list is `None`. */
  datatype SubscriptionEdition = SubscriptionEdition(
    project: int, node: string, mode: Option<Mode>, parameters: Option<seq<ValueEdition>>)

  /** A stored subscription: the project subscribed and the node it subscribes to. */
  datatype Subscription = Subscription(project: int, node: string)

  /** What the resource asks a plugin to do for a subscription. */
  datatype CallKind = Creating | Linking | Deleting(deleteRemoteData: bool)

  /** One invocation of a service plugin: `create(id)`, `link(id)` or `delete(id, flag)`. */
  datatype PluginCall = PluginCall(plugin: string, kind: CallKind, subscription: int)

  /** The exceptions the operations raise. */
  datatype Error =
    | ProjectNotFound(project: int)           // EntityNotFoundException, project not visible
    | Forbidden(project: int)                 // ForbiddenException, project not managed
    | UnknownNode(node: string)               // ValidationJsonException "unknown-id" on "node"
    | MissingParameter(parameter: string)     // ValidationJsonException "NotNull"
    | NotAcceptedParameter(parameter: string) // ValidationJsonException "not-accepted-parameter"
    | SubscriptionNotFound(subscription: int) // EntityNotFoundException from findOneExpected
    | PluginFailure(call: PluginCall)         // whatever a plugin throws

  /**
   * `ServicePluginLocator`: `resources` gives the plugin serving a key (`getResource`),
   * `parents` the key of a plugin's parent (`getParent`). A plugin's key is never longer than
   * the key it serves and a parent key is a strict prefix of its child's.
   */
  datatype Locator = Locator(resources: map<string, string>, parents: map<string, string>)
  {
    ghost predicate Valid()
    {
      && (forall k :: k in resources ==> |resources[k]| <= |k|)
      && (forall p :: p in parents ==> |parents[p]| < |p|)
    }

    /** `getResource(key)`; a `null` key or an unknown one gives no plugin. */
    function Resource(key: Option<string>): (r: Option<string>)
      requires Valid()
      ensures r.Some? ==> key.Some? && |r.value| <= |key.value|
    {
      if key.Some? && key.value in resources then Some(resources[key.value]) else None
    }

    /** `getResource(getParent(plugin.getKey()))`: the next plugin up the chain. */
    function Next(plugin: string): (r: Option<string>)
      requires Valid()
      ensures r.Some? ==> |r.value| < |plugin|
    {
      Resource(if plugin in parents then Some(parents[plugin]) else None)
    }

    /** The plugins visited from `plugin` on, in order. */
    function Chain(plugin: Option<string>): (r: seq<string>)
      requires Valid()
      ensures plugin.None? <==> r == []
      ensures forall i, j :: 0 <= i < j < |r| ==> |r[j]| < |r[i]|
      decreases if plugin.Some? then |plugin.value| + 1 else 0
    {
      if plugin.None? then []
      else
        var rest := Chain(Next(plugin.value));
        assert forall i :: 0 <= i < |rest| ==> |rest[i]| < |plugin.value| by {
          if rest != [] {
            forall i | 0 <= i < |rest| ensures |rest[i]| < |plugin.value| {
              assert |rest[i]| <= |rest[0]|;
            }
          }
        }
        [plugin.value] + rest
    }
  }

  /** Everything the resource reads but does not change. */
  datatype Context = Context(
    visibleProjects: set<int>,       // projectRepository.findOneVisible
    managedProjects: set<int>,       // projectRepository.isManageSubscription
    subscribableNodes: set<string>,  // nodeRepository.findOneForSubscription
    catalog: seq<Parameter>,         // the parameter table
    nodeValues: seq<ParameterValue>, // the values attached to nodes
    nodes: map<string, Node>,        // the node table
    visibleNodes: set<string>,       // VISIBLE_NODES for the current user
    locator: Locator,
    failing: set<PluginCall>,        // the plugin invocations that throw
    checked: set<PluginCall>)        // those of them whose exception is a checked one

  // ---------------------------------------------------------------- parameter checks

  /** Some supplied value is for parameter `id`. */
  predicate Supplied(parameters: seq<ValueEdition>, id: string)
  {
    exists v | v in parameters :: v.parameter == id
  }

  /** `required[i]` is the first parameter of `required` with no supplied value. */
  predicate MissingAt(parameters: seq<ValueEdition>, required: seq<Parameter>, i: int)
  {
    && 0 <= i < |required|
    && !Supplied(parameters, required[i].id)
    && forall j :: 0 <= j < i ==> Supplied(parameters, required[j].id)
  }

  /** `checkMandatoryParameter` over a list: the first parameter of `required` with no value. */
  function FirstMissing(parameters: seq<ValueEdition>, required: seq<Parameter>): (r: Option<Error>)
    ensures r.None? <==> forall p :: p in required ==> Supplied(parameters, p.id)
    ensures r.Some? ==> exists i :: MissingAt(parameters, required, i) && r.value == MissingParameter(required[i].id)
    decreases |required|
  {
    if required == [] then None
    else if !Supplied(parameters, required[0].id) then
      assert MissingAt(parameters, required, 0);
      Some(MissingParameter(required[0].id))
    else
      var r := FirstMissing(parameters, required[1..]);
      assert required == [required[0]] + required[1..];
      if r.Some? then
        var i :| MissingAt(parameters, required[1..], i) && r.value == MissingParameter(required[1..][i].id);
        MissingAtShift(parameters, required, i);
        r
      else r
  }

  /** The first missing parameter of the tail is the first missing one when the head is supplied. */
  lemma MissingAtShift(parameters: seq<ValueEdition>, required: seq<Parameter>, i: int)
    requires required != [] && Supplied(parameters, required[0].id)
    requires MissingAt(parameters, required[1..], i)
    ensures MissingAt(parameters, required, i + 1) && required[i + 1] == required[1..][i]
  {
    forall j | 0 <= j < i + 1 ensures Supplied(parameters, required[j].id) {
      if j > 0 { assert required[j] == required[1..][j - 1]; }
    }
  }

  /**
   * The mandatory parameters of `checkMandatoryParameters` as written: mandatory, with the
   * requested mode or with no mode at all.
   */
  function MandatoryAsWritten(accepted: seq<Parameter>, mode: Option<Mode>): (r: seq<Parameter>)
    ensures forall p :: p in r <==> p in accepted && p.mandatory && (p.mode == mode || p.mode.None?)
  {
    Filter(accepted, (p: Parameter) => (p.mode == mode || p.mode.None?) && p.mandatory)
  }

  /** The mandatory parameters for a mode: mandatory, with that mode or with mode `ALL`. */
  function Mandatory(accepted: seq<Parameter>, mode: Option<Mode>): (r: seq<Parameter>)
    ensures forall p :: p in r <==> p in accepted && p.mandatory && (p.mode == mode || p.mode == Some(All))
  {
    Filter(accepted, (p: Parameter) => (p.mode == mode || p.mode == Some(All)) && p.mandatory)
  }

  /**
   * The two readings of the mode filter of `checkMandatoryParameters`: as written, a parameter
   * of the requested mode or with no mode; corrected, one of the requested mode or of mode `ALL`.
   */
  datatype MandatoryFilter = AsWritten | Corrected

  /** A parameter of mode `own` is mandatory for a request in `mode`, under `filter`. */
  predicate RequiredFor(filter: MandatoryFilter, own: Option<Mode>, mode: Option<Mode>)
  {
    own == mode || (if filter.AsWritten? then own.None? else own == Some(All))
  }

  /** Every accepted parameter that is mandatory for the mode, under `filter`, has a supplied value. */
  predicate MandatorySupplied(filter: MandatoryFilter, parameters: seq<ValueEdition>, accepted: seq<Parameter>, mode: Option<Mode>)
  {
    forall p :: p in accepted && p.mandatory && RequiredFor(filter, p.mode, mode) ==> Supplied(parameters, p.id)
  }

  /** Every supplied value is for an accepted parameter. */
  predicate OnlyAccepted(parameters: seq<ValueEdition>, accepted: seq<Parameter>)
  {
    forall v :: v in parameters ==> exists p :: p in accepted && p.id == v.parameter
  }

  /** `checkMandatoryParameters`, with the mode filter of `Mandatory`. */
  function CheckMandatoryParameters(parameters: seq<ValueEdition>, accepted: seq<Parameter>, mode: Option<Mode>): (r: Option<Error>)
    ensures r.None? <==> MandatorySupplied(Corrected, parameters, accepted, mode)
    ensures r.Some? ==> exists p :: p in accepted && p.mandatory && r.value == MissingParameter(p.id)
                                    && !exists v :: v in parameters && v.parameter == p.id
  {
    FirstMissing(parameters, Mandatory(accepted, mode))
  }

  /** `checkMandatoryParameters` as written, with the mode filter of `MandatoryAsWritten`. */
  function CheckMandatoryParametersAsWritten(parameters: seq<ValueEdition>, accepted: seq<Parameter>, mode: Option<Mode>): (r: Option<Error>)
    ensures r.None? <==>
      forall p :: p in accepted && p.mandatory && (p.mode == mode || p.mode.None?) ==> Supplied(parameters, p.id)
  {
    FirstMissing(parameters, MandatoryAsWritten(accepted, mode))
  }

  /** `checkMandatoryParameters` under either reading of its mode filter. */
  function CheckMandatory(filter: MandatoryFilter, parameters: seq<ValueEdition>, accepted: seq<Parameter>, mode: Option<Mode>): (r: Option<Error>)
    ensures r.None? <==> MandatorySupplied(filter, parameters, accepted, mode)
    ensures r.Some? ==> exists p :: && p in accepted && p.mandatory && RequiredFor(filter, p.mode, mode)
                                    && r.value == MissingParameter(p.id) && !Supplied(parameters, p.id)
  {
    var required := if filter.AsWritten? then MandatoryAsWritten(accepted, mode) else Mandatory(accepted, mode);
    var r := FirstMissing(parameters, required);
    assert r.Some? ==> exists p :: p in required && r.value == MissingParameter(p.id) && !Supplied(parameters, p.id) by {
      if r.Some? {
        var i :| MissingAt(parameters, required, i) && r.value == MissingParameter(required[i].id);
        assert required[i] in required;
      }
    }
    r
  }

  /**
   * The `null` alternative of the filter as written never applies to an accepted parameter,
   * since the query only accepts mode `ALL` or the requested mode; so a mandatory parameter of
   * mode `ALL` is never required unless `ALL` is the requested mode.
   */
  lemma AsWrittenIgnoresAllMode(accepted: seq<Parameter>, mode: Option<Mode>)
    requires forall p :: p in accepted ==> ModeMatches(p.mode, mode)
    ensures forall p :: p in MandatoryAsWritten(accepted, mode) <==> p in accepted && p.mandatory && p.mode == mode
    ensures mode != Some(All) ==> forall p :: p in accepted && p.mode == Some(All) ==> p !in MandatoryAsWritten(accepted, mode)
  {
  }

  /**
   * An example: the node `service:s` owns one mandatory parameter of mode `ALL`, the query
   * accepts it for a subscription in mode `CREATE`, and no value is supplied. The check as
   * written lets the request through; `CheckMandatoryParameters` rejects it.
   */
  lemma MandatoryAllModeExample()
    ensures var p := Parameter("service:s:url", "service:s", Some(All), true);
      var nodes := map["service:s" := Node("service:s", "s", None)];
      var accepted := OrphanParameters([p], [], nodes, {"service:s"}, "service:s", Some(Mode.Create));
      && p in accepted
      && CheckMandatoryParametersAsWritten([], accepted, Some(Mode.Create)).None?
      && CheckMandatoryParameters([], accepted, Some(Mode.Create)) == Some(MissingParameter("service:s:url"))
  {
    var p := Parameter("service:s:url", "service:s", Some(All), true);
    var nodes := map["service:s" := Node("service:s", "s", None)];
    ExampleAccepted(p, nodes);
    OnlyAllModeRequired(OrphanParameters([p], [], nodes, {"service:s"}, "service:s", Some(Mode.Create)), p);
  }

  lemma ExampleAccepted(p: Parameter, nodes: map<string, Node>)
    requires p == Parameter("service:s:url", "service:s", Some(All), true)
    requires nodes == map["service:s" := Node("service:s", "s", None)]
    ensures var accepted := OrphanParameters([p], [], nodes, {"service:s"}, "service:s", Some(Mode.Create));
      p in accepted && forall q :: q in accepted ==> q == p
  {
    assert "service:s" in Lineage(nodes, "service:s");
  }

  /** With one mandatory `ALL` parameter and nothing supplied, the two checks disagree. */
  lemma OnlyAllModeRequired(accepted: seq<Parameter>, p: Parameter)
    requires p in accepted && forall q :: q in accepted ==> q == p
    requires p.mandatory && p.mode == Some(All)
    ensures CheckMandatoryParametersAsWritten([], accepted, Some(Mode.Create)).None?
    ensures CheckMandatoryParameters([], accepted, Some(Mode.Create)) == Some(MissingParameter(p.id))
  {
    var m := Mandatory(accepted, Some(Mode.Create));
    assert p in m;
    assert m[0] in m;
    assert !Supplied([], m[0].id);
  }

  /** `checkOverrides`: the first supplied identifier that is not an accepted one. */
  function CheckOverrides(accepted: seq<string>, supplied: seq<string>): (r: Option<Error>)
    ensures r.None? <==> forall s :: s in supplied ==> s in accepted
    ensures r.Some? ==>
      exists i ::
        && 0 <= i < |supplied|
        && r.value == NotAcceptedParameter(supplied[i])
        && supplied[i] !in accepted
        && forall j :: 0 <= j < i ==> supplied[j] in accepted
    decreases |supplied|
  {
    if supplied == [] then None
    else if supplied[0] !in accepted then Some(NotAcceptedParameter(supplied[0]))
    else
      var r := CheckOverrides(accepted, supplied[1..]);
      assert supplied == [supplied[0]] + supplied[1..];
      if r.Some? then
        var i :| 0 <= i < |supplied[1..]| && r.value == NotAcceptedParameter(supplied[1..][i])
          && supplied[1..][i] !in accepted
          && forall j :: 0 <= j < i ==> supplied[1..][j] in accepted;
        assert forall j :: 0 <= j < i + 1 ==> supplied[j] in accepted by {
          forall j | 0 <= j < i + 1 ensures supplied[j] in accepted {
            if j > 0 { assert supplied[j] == supplied[1..][j - 1]; }
          }
        }
        r
      else r
  }

  /** `map(Parameter::getId)` */
  function ParameterIds(accepted: seq<Parameter>): (r: seq<string>)
    ensures |r| == |accepted| && forall i :: 0 <= i < |accepted| ==> r[i] == accepted[i].id
    ensures forall s :: s in r <==> exists p :: p in accepted && p.id == s
  {
    var r := seq(|accepted|, i requires 0 <= i < |accepted| => accepted[i].id);
    assert forall s :: s in r ==> exists p :: p in accepted && p.id == s by {
      forall s | s in r ensures exists p :: p in accepted && p.id == s {
        var i :| 0 <= i < |r| && r[i] == s;
        assert accepted[i] in accepted;
      }
    }
    assert forall p :: p in accepted ==> p.id in r by {
      forall p | p in accepted ensures p.id in r {
        var i :| 0 <= i < |accepted| && accepted[i] == p;
        assert r[i] == p.id;
      }
    }
    r
  }

  /** `map(ParameterValueEditionVo::getParameter)` */
  function SuppliedIds(parameters: seq<ValueEdition>): (r: seq<string>)
    ensures |r| == |parameters| && forall i :: 0 <= i < |parameters| ==> r[i] == parameters[i].parameter
    ensures forall s :: s in r <==> Supplied(parameters, s)
  {
    var r := seq(|parameters|, i requires 0 <= i < |parameters| => parameters[i].parameter);
    assert forall s :: s in r ==> Supplied(parameters, s) by {
      forall s | s in r ensures Supplied(parameters, s) {
        var i :| 0 <= i < |r| && r[i] == s;
        assert parameters[i] in parameters;
      }
    }
    assert forall v :: v in parameters ==> v.parameter in r by {
      forall v | v in parameters ensures v.parameter in r {
        var i :| 0 <= i < |parameters| && parameters[i] == v;
        assert r[i] == v.parameter;
      }
    }
    r
  }

  /** `defaultIfNull(vo.getParameters(), new ArrayList<>())`. */
  function SuppliedValues(vo: SubscriptionEdition): seq<ValueEdition>
  {
    vo.parameters.GetOr([])
  }

  // ---------------------------------------------------------------- create: before persistence

  /** The parameters the node accepts for the request: `getOrphanParameters(node, mode)`. */
  function Accepted(vo: SubscriptionEdition, ctx: Context): seq<Parameter>
  {
    OrphanParameters(ctx.catalog, ctx.nodeValues, ctx.nodes, ctx.visibleNodes, vo.node, vo.mode)
  }

  /**
   * The checks `create` makes before it persists anything, in their order: visible project,
   * managed project, subscribable node, mandatory parameters (under `filter`), then no
   * parameter outside the accepted ones. On success, the accepted parameters.
   */
  function Validate(vo: SubscriptionEdition, ctx: Context, filter: MandatoryFilter): (r: Result<seq<Parameter>, Error>)
    ensures r.Success? <==>
      && vo.project in ctx.visibleProjects
      && vo.project in ctx.managedProjects
      && vo.node in ctx.subscribableNodes
      && MandatorySupplied(filter, SuppliedValues(vo), Accepted(vo, ctx), vo.mode)
      && OnlyAccepted(SuppliedValues(vo), Accepted(vo, ctx))
    ensures r.Success? ==> r.value == Accepted(vo, ctx)
    ensures r.Failure? && r.error.NotAcceptedParameter? ==>
      Supplied(SuppliedValues(vo), r.error.parameter)
      && !exists p :: p in Accepted(vo, ctx) && p.id == r.error.parameter
  {
    if vo.project !in ctx.visibleProjects then Failure(ProjectNotFound(vo.project))
    else if vo.project !in ctx.managedProjects then Failure(Forbidden(vo.project))
    else if vo.node !in ctx.subscribableNodes then Failure(UnknownNode(vo.node))
    else
      var accepted := Accepted(vo, ctx);
      var parameters := SuppliedValues(vo);
      OverridesMeaning(parameters, accepted);
      match CheckMandatory(filter, parameters, accepted, vo.mode)
      case Some(e) => Failure(e)
      case None =>
        match CheckOverrides(ParameterIds(accepted), SuppliedIds(parameters))
        case Some(e) => Failure(e)
        case None => Success(accepted)
  }

  /** `checkOverrides` on the identifiers passes exactly when only accepted parameters are supplied. */
  lemma OverridesMeaning(parameters: seq<ValueEdition>, accepted: seq<Parameter>)
    ensures CheckOverrides(ParameterIds(accepted), SuppliedIds(parameters)).None? <==> OnlyAccepted(parameters, accepted)
    ensures forall x :: x in SuppliedIds(parameters) && x !in ParameterIds(accepted) ==>
      Supplied(parameters, x) && !exists p :: p in accepted && p.id == x
  {
    var ids, supplied := ParameterIds(accepted), SuppliedIds(parameters);
    if OnlyAccepted(parameters, accepted) {
      forall x | x in supplied ensures x in ids {
        var v :| v in parameters && v.parameter == x;
      }
    } else {
      var v :| v in parameters && !exists p :: p in accepted && p.id == v.parameter;
      assert v.parameter in supplied && v.parameter !in ids;
    }
  }

  // ---------------------------------------------------------------- delegation

  /** The outcome of walking the plugin chain: the calls made, and the one that threw if any. */
  datatype Delegated = Delegated(trace: seq<PluginCall>, failed: Option<PluginCall>)

  /** The `while (plugin != null)` loops of `create` and `delete`, as a specification. */
  function Delegate(loc: Locator, plugin: Option<string>, kind: CallKind, id: int, failing: set<PluginCall>): (d: Delegated)
    requires loc.Valid()
    decreases if plugin.Some? then |plugin.value| + 1 else 0
  {
    if plugin.None? then Delegated([], None)
    else
      var call := PluginCall(plugin.value, kind, id);
      if call in failing then Delegated([call], Some(call))
      else
        var rest := Delegate(loc, loc.Next(plugin.value), kind, id, failing);
        Delegated([call] + rest.trace, rest.failed)
  }

  /**
   * The calls follow the plugin chain in order, one per plugin, all of the same kind and for
   * the same subscription; they stop at the first call that throws, which is the last one.
   */
  lemma {:induction false} DelegateFollowsChain(loc: Locator, plugin: Option<string>, kind: CallKind, id: int, failing: set<PluginCall>)
    requires loc.Valid()
    ensures var d := Delegate(loc, plugin, kind, id, failing);
      var chain := loc.Chain(plugin);
      && |d.trace| <= |chain|
      && (forall i :: 0 <= i < |d.trace| ==> d.trace[i] == PluginCall(chain[i], kind, id))
      && (d.failed.None? <==> |d.trace| == |chain| && forall c :: c in d.trace ==> c !in failing)
      && (d.failed.Some? ==> d.trace != [] && d.failed.value == d.trace[|d.trace| - 1] && d.failed.value in failing
                             && forall i :: 0 <= i < |d.trace| - 1 ==> d.trace[i] !in failing)
    decreases if plugin.Some? then |plugin.value| + 1 else 0
  {
    if plugin.Some? {
      var call := PluginCall(plugin.value, kind, id);
      if call !in failing {
        DelegateFollowsChain(loc, loc.Next(plugin.value), kind, id, failing);
        var rest := Delegate(loc, loc.Next(plugin.value), kind, id, failing);
        var d := Delegate(loc, plugin, kind, id, failing);
        assert d.trace == [call] + rest.trace;
        assert loc.Chain(plugin) == [plugin.value] + loc.Chain(loc.Next(plugin.value));
        assert forall c :: c in d.trace <==> c == call || c in rest.trace;
      }
    }
  }

  /** The plugin calls of `create`: `create(id)` in mode `CREATE`, `link(id)` otherwise. */
  function CreateKind(mode: Option<Mode>): CallKind
  {
    if mode == Some(Create) then Creating else Linking
  }

  /** The delegation of `create` for subscription `id`. */
  function CreateDelegation(vo: SubscriptionEdition, ctx: Context, id: int): Delegated
    requires ctx.locator.Valid()
  {
    Delegate(ctx.locator, ctx.locator.Resource(Some(vo.node)), CreateKind(vo.mode), id, ctx.failing)
  }

  /**
   * The outcome of `create` when the next identifier is `id`: the first failing check, the
   * first plugin call that throws, the second mandatory check in mode `CREATE`, or the id;
   * both mandatory checks read their mode filter as `filter` says.
   */
  function CreateResult(vo: SubscriptionEdition, ctx: Context, id: int, filter: MandatoryFilter): Result<int, Error>
    requires ctx.locator.Valid()
  {
    match Validate(vo, ctx, filter)
    case Failure(e) => Failure(e)
    case Success(accepted) =>
      var d := CreateDelegation(vo, ctx, id);
      if d.failed.Some? then Failure(PluginFailure(d.failed.value))
      else match CheckMandatory(filter, SuppliedValues(vo), accepted, Some(Create))
        case Some(e) => Failure(e)
        case None => Success(id)
  }

  /** The plugin calls `create` makes: none when a check fails first. */
  function CreateTrace(vo: SubscriptionEdition, ctx: Context, id: int, filter: MandatoryFilter): seq<PluginCall>
    requires ctx.locator.Valid()
  {
    if Validate(vo, ctx, filter).Failure? then [] else CreateDelegation(vo, ctx, id).trace
  }

  /**
   * The check repeated after delegation, in mode `CREATE`, never fails once the first one
   * passed: every accepted parameter has mode `ALL` or the requested mode, so each parameter
   * the second check requires was already required by the first.
   */
  lemma RecheckIsImplied(parameters: seq<ValueEdition>, accepted: seq<Parameter>, mode: Option<Mode>)
    requires forall p :: p in accepted ==> ModeMatches(p.mode, mode)
    requires CheckMandatoryParameters(parameters, accepted, mode).None?
    ensures CheckMandatoryParameters(parameters, accepted, Some(Create)).None?
  {
    forall p | p in accepted && p.mandatory && (p.mode == Some(Create) || p.mode == Some(All))
      ensures exists v :: v in parameters && v.parameter == p.id
    {
      assert p.mode == mode || p.mode == Some(All);
    }
  }

  /** The second check of `create` passes on whatever passed its first checks, under either filter. */
  lemma RecheckAfterValidate(vo: SubscriptionEdition, ctx: Context, filter: MandatoryFilter)
    requires Validate(vo, ctx, filter).Success?
    ensures CheckMandatory(filter, SuppliedValues(vo), Validate(vo, ctx, filter).value, Some(Create)).None?
  {
    var accepted := Validate(vo, ctx, filter).value;
    forall p | p in accepted ensures ModeMatches(p.mode, vo.mode) { }
    if filter.AsWritten? {
      RecheckIsImpliedAsWritten(SuppliedValues(vo), accepted, vo.mode);
    } else {
      RecheckIsImplied(SuppliedValues(vo), accepted, vo.mode);
    }
  }

  /** The same holds of the check as written. */
  lemma RecheckIsImpliedAsWritten(parameters: seq<ValueEdition>, accepted: seq<Parameter>, mode: Option<Mode>)
    requires forall p :: p in accepted ==> ModeMatches(p.mode, mode)
    requires FirstMissing(parameters, MandatoryAsWritten(accepted, mode)).None?
    ensures FirstMissing(parameters, MandatoryAsWritten(accepted, Some(Create))).None?
  {
    forall p | p in MandatoryAsWritten(accepted, Some(Create)) ensures Supplied(parameters, p.id) {
      assert p in MandatoryAsWritten(accepted, mode);
    }
  }

  /**
   * `create` succeeds exactly when every check passes and no plugin of the chain throws; its
   * result is then the new identifier and every plugin of the chain was called once, in order.
   */
  lemma CreateSucceeds(vo: SubscriptionEdition, ctx: Context, id: int, filter: MandatoryFilter)
    requires ctx.locator.Valid()
    ensures CreateResult(vo, ctx, id, filter).Success? <==>
      Validate(vo, ctx, filter).Success? && CreateDelegation(vo, ctx, id).failed.None?
    ensures CreateResult(vo, ctx, id, filter).Success? ==>
      && CreateResult(vo, ctx, id, filter).value == id
      && var chain := ctx.locator.Chain(ctx.locator.Resource(Some(vo.node)));
         CreateTrace(vo, ctx, id, filter) == seq(|chain|, i requires 0 <= i < |chain| => PluginCall(chain[i], CreateKind(vo.mode), id))
  {
    if Validate(vo, ctx, filter).Success? {
      RecheckAfterValidate(vo, ctx, filter);
      DelegateFollowsChain(ctx.locator, ctx.locator.Resource(Some(vo.node)), CreateKind(vo.mode), id, ctx.failing);
    }
  }

  /** The request and the context of the mandatory-parameter example, with no plugin on the node. */
  function AllModeRequest(): SubscriptionEdition
  {
    SubscriptionEdition(1, "service:s", Some(Create), None)
  }

  function AllModeContext(): Context
  {
    Context({1}, {1}, {"service:s"}, [Parameter("service:s:url", "service:s", Some(All), true)], [],
            map["service:s" := Node("service:s", "s", None)], {"service:s"}, Locator(map[], map[]), {}, {})
  }

  /**
   * On the example of `MandatoryAllModeExample`, `create` as written succeeds without the
   * mandatory `ALL` parameter; with the corrected filter it fails, naming that parameter.
   */
  lemma {:induction false} CreateAllModeExample(id: int)
    ensures AllModeContext().locator.Valid()
    ensures CreateResult(AllModeRequest(), AllModeContext(), id, AsWritten) == Success(id)
    ensures CreateResult(AllModeRequest(), AllModeContext(), id, Corrected) == Failure(MissingParameter("service:s:url"))
  {
    AllModeValidation();
    AllModeOutcome(AllModeRequest(), AllModeContext(), id, AsWritten);
    AllModeOutcome(AllModeRequest(), AllModeContext(), id, Corrected);
  }

  lemma {:induction false} AllModeOutcome(vo: SubscriptionEdition, ctx: Context, id: int, filter: MandatoryFilter)
    requires vo == AllModeRequest() && ctx == AllModeContext()
    ensures ctx.locator.Valid()
    ensures CreateResult(vo, ctx, id, filter) == if filter.AsWritten? then Success(id) else Failure(MissingParameter("service:s:url"))
  {
    AllModeNoPlugin();
    CreateWithoutPlugin(vo, ctx, id, filter);
    AllModeValidation();
  }

  lemma AllModeNoPlugin()
    ensures AllModeContext().locator.Valid()
    ensures AllModeContext().locator.Resource(Some(AllModeRequest().node)).None?
  {
  }

  /** Once the checks pass, the outcome of `create` is that of its delegation. */
  lemma CreateAfterValidate(vo: SubscriptionEdition, ctx: Context, id: int, filter: MandatoryFilter)
    requires ctx.locator.Valid() && Validate(vo, ctx, filter).Success?
    ensures var d := CreateDelegation(vo, ctx, id);
      && CreateResult(vo, ctx, id, filter) == (if d.failed.Some? then Failure(PluginFailure(d.failed.value)) else Success(id))
      && CreateTrace(vo, ctx, id, filter) == d.trace
  {
    RecheckAfterValidate(vo, ctx, filter);
  }

  /** With no plugin on the node, `create` fails exactly as its checks do, and returns the id otherwise. */
  lemma CreateWithoutPlugin(vo: SubscriptionEdition, ctx: Context, id: int, filter: MandatoryFilter)
    requires ctx.locator.Valid() && ctx.locator.Resource(Some(vo.node)).None?
    ensures CreateResult(vo, ctx, id, filter) == if Validate(vo, ctx, filter).Failure? then Failure(Validate(vo, ctx, filter).error) else Success(id)
  {
    if Validate(vo, ctx, filter).Success? {
      RecheckAfterValidate(vo, ctx, filter);
    }
  }

  /** The checks of `create` on the example: they pass as written, and fail once corrected. */
  lemma AllModeValidation()
    ensures Validate(AllModeRequest(), AllModeContext(), AsWritten).Success?
    ensures Validate(AllModeRequest(), AllModeContext(), Corrected) == Failure(MissingParameter("service:s:url"))
  {
    var vo, ctx := AllModeRequest(), AllModeContext();
    MandatoryAllModeExample();
    var accepted := Accepted(vo, ctx);
    assert CheckMandatory(AsWritten, [], accepted, Some(Create)).None?;
    assert CheckMandatory(Corrected, [], accepted, Some(Create)) == Some(MissingParameter("service:s:url"));
    OverridesMeaning([], accepted);
  }

  // ---------------------------------------------------------------- delete

  /** The checks of `delete` and the delegation's outcome; `None` when the deletion goes through. */
  function DeleteResult(subscriptions: map<int, Subscription>, id: int, deleteRemoteData: bool, ctx: Context): Option<Error>
    requires ctx.locator.Valid()
  {
    if id !in subscriptions then Some(SubscriptionNotFound(id))
    else
      var project := subscriptions[id].project;
      if project !in ctx.visibleProjects then Some(ProjectNotFound(project))
      else if project !in ctx.managedProjects then Some(Forbidden(project))
      else
        var d := DeleteDelegation(subscriptions, id, deleteRemoteData, ctx);
        if d.failed.Some? then Some(PluginFailure(d.failed.value)) else None
  }

  function DeleteDelegation(subscriptions: map<int, Subscription>, id: int, deleteRemoteData: bool, ctx: Context): Delegated
    requires ctx.locator.Valid()
    requires id in subscriptions
  {
    Delegate(ctx.locator, ctx.locator.Resource(Some(subscriptions[id].node)), Deleting(deleteRemoteData), id, ctx.failing)
  }

  /** The plugin calls `delete` makes: none when a check fails first. */
  function DeleteTrace(subscriptions: map<int, Subscription>, id: int, deleteRemoteData: bool, ctx: Context): seq<PluginCall>
    requires ctx.locator.Valid()
  {
    if id !in subscriptions || subscriptions[id].project !in ctx.visibleProjects
       || subscriptions[id].project !in ctx.managedProjects then []
    else DeleteDelegation(subscriptions, id, deleteRemoteData, ctx).trace
  }

  /**
   * Every plugin `delete` reaches gets the same `deleteRemoteData` flag, for the subscription
   * deleted, in chain order; the deletion goes through exactly when the subscription exists,
   * its project is visible and managed and no plugin throws.
   */
  lemma DeleteCallsShareFlag(subscriptions: map<int, Subscription>, id: int, deleteRemoteData: bool, ctx: Context)
    requires ctx.locator.Valid()
    ensures forall c :: c in DeleteTrace(subscriptions, id, deleteRemoteData, ctx) ==>
      c.kind == Deleting(deleteRemoteData) && c.subscription == id
    ensures DeleteResult(subscriptions, id, deleteRemoteData, ctx).None? <==>
      && id in subscriptions
      && subscriptions[id].project in ctx.visibleProjects
      && subscriptions[id].project in ctx.managedProjects
      && var chain := ctx.locator.Chain(ctx.locator.Resource(Some(subscriptions[id].node)));
         DeleteTrace(subscriptions, id, deleteRemoteData, ctx)
           == seq(|chain|, i requires 0 <= i < |chain| => PluginCall(chain[i], Deleting(deleteRemoteData), id))
         && forall c :: c in DeleteTrace(subscriptions, id, deleteRemoteData, ctx) ==> c !in ctx.failing
  {
    if id in subscriptions {
      DelegateFollowsChain(ctx.locator, ctx.locator.Resource(Some(subscriptions[id].node)),
                           Deleting(deleteRemoteData), id, ctx.failing);
    }
  }

  // ---------------------------------------------------------------- the resource

  /**
   * A plugin failure whose exception is a checked one. The class-level `@Transactional` is
   * JTA's, which rolls back on unchecked exceptions only: the transaction then commits what
   * the operation wrote before the plugin threw. The resource's own exceptions are unchecked.
   */
  predicate CheckedFailure(ctx: Context, e: Error)
  {
    e.PluginFailure? && e.call in ctx.checked
  }

  /**
   * The resource and the tables it writes; the whole of each operation is one transaction,
   * rolled back when the operation ends with an unchecked exception.
   */
  class SubscriptionResource {
    var subscriptions: map<int, Subscription>
    /** The parameter values of each subscription. */
    var values: map<int, seq<ValueEdition>>
    /** The events (status history) of each subscription. */
    var events: map<int, seq<string>>
    /** The identifier the next saved subscription receives. */
    var nextId: int
    /** The plugin calls made so far; a plugin's own effects are outside the transaction. */
    var invoked: seq<PluginCall>

    /** Values and events belong to stored subscriptions; identifiers are below `nextId`. */
    ghost predicate Valid()
      reads this
    {
      && values.Keys <= subscriptions.Keys
      && events.Keys <= subscriptions.Keys
      && forall id :: id in subscriptions ==> id < nextId
    }

    constructor ()
      ensures Valid()
      ensures subscriptions == map[] && values == map[] && events == map[] && invoked == []
    {
      subscriptions, values, events := map[], map[], map[];
      nextId := 1;
      invoked := [];
    }

    /**
     * The `while (plugin != null)` loop of `create` and `delete`: calls each plugin of the
     * chain in turn, `getResource(getParent(plugin.getKey()))` giving the next one, and stops
     * at the first call that throws.
     */
    method Delegation(start: Option<string>, kind: CallKind, id: int, ctx: Context) returns (failed: Option<PluginCall>)
      requires ctx.locator.Valid()
      modifies this`invoked
      ensures failed == Delegate(ctx.locator, start, kind, id, ctx.failing).failed
      ensures invoked == old(invoked) + Delegate(ctx.locator, start, kind, id, ctx.failing).trace
    {
      var plugin := start;
      while plugin.Some?
        invariant Delegate(ctx.locator, plugin, kind, id, ctx.failing).failed
                  == Delegate(ctx.locator, start, kind, id, ctx.failing).failed
        invariant invoked + Delegate(ctx.locator, plugin, kind, id, ctx.failing).trace
                  == old(invoked) + Delegate(ctx.locator, start, kind, id, ctx.failing).trace
        decreases if plugin.Some? then |plugin.value| + 1 else 0
      {
        var call := PluginCall(plugin.value, kind, id);
        invoked := invoked + [call];
        if call in ctx.failing {
          return Some(call);
        }
        plugin := ctx.locator.Next(plugin.value);
      }
      return None;
    }

    /**
     * `create`, with the corrected mandatory check: on success the subscription and its
     * supplied values are stored under the new identifier, and so they are when a plugin
     * throws a checked exception; on any other failure the tables are as before. The plugin
     * calls made stay made.
     */
    method Create(vo: SubscriptionEdition, ctx: Context) returns (r: Result<int, Error>)
      requires Valid() && ctx.locator.Valid()
      modifies this
      ensures Valid()
      ensures r == CreateResult(vo, ctx, old(nextId), Corrected)
      ensures invoked == old(invoked) + CreateTrace(vo, ctx, old(nextId), Corrected)
      ensures r.Success? ==>
        && subscriptions == old(subscriptions)[r.value := Subscription(vo.project, vo.node)]
        && values == old(values)[r.value := SuppliedValues(vo)]
        && events == old(events)
        && nextId == old(nextId) + 1
      ensures r.Failure? && CheckedFailure(ctx, r.error) ==>
        && subscriptions == old(subscriptions)[old(nextId) := Subscription(vo.project, vo.node)]
        && values == old(values)[old(nextId) := SuppliedValues(vo)]
        && events == old(events)
        && nextId == old(nextId) + 1
      ensures r.Failure? && !CheckedFailure(ctx, r.error) ==>
        subscriptions == old(subscriptions) && values == old(values) && events == old(events) && nextId == old(nextId)
    {
      var checked := Validate(vo, ctx, Corrected);
      if checked.Failure? {
        return Failure(checked.error);
      }
      // The second check, in mode CREATE, cannot fail once the first one passed.
      CreateAfterValidate(vo, ctx, nextId, Corrected);
      r := Persist(vo, ctx);
    }

    /**
     * The part of `create` after its checks: the subscription and its values saved under the
     * next identifier, then the delegation; an unchecked exception from a plugin rolls the
     * saves back, a checked one leaves them committed.
     */
    method Persist(vo: SubscriptionEdition, ctx: Context) returns (r: Result<int, Error>)
      requires Valid() && ctx.locator.Valid()
      modifies this
      ensures Valid()
      ensures var d := CreateDelegation(vo, ctx, old(nextId));
        && r == (if d.failed.Some? then Failure(PluginFailure(d.failed.value)) else Success(old(nextId)))
        && invoked == old(invoked) + d.trace
      ensures r.Success? || CheckedFailure(ctx, r.error) ==>
        && subscriptions == old(subscriptions)[old(nextId) := Subscription(vo.project, vo.node)]
        && values == old(values)[old(nextId) := SuppliedValues(vo)]
        && events == old(events)
        && nextId == old(nextId) + 1
      ensures r.Failure? && !CheckedFailure(ctx, r.error) ==>
        subscriptions == old(subscriptions) && values == old(values) && events == old(events) && nextId == old(nextId)
    {
      // The transaction: what it rolls back to.
      var savedSubscriptions, savedValues, id := subscriptions, values, nextId;
      subscriptions := subscriptions[id := Subscription(vo.project, vo.node)];
      values := values[id := SuppliedValues(vo)];
      nextId := nextId + 1;

      var failed := Delegation(ctx.locator.Resource(Some(vo.node)), CreateKind(vo.mode), id, ctx);
      if failed.Some? {
        if failed.value !in ctx.checked {
          subscriptions, values, nextId := savedSubscriptions, savedValues, id;
        }
        return Failure(PluginFailure(failed.value));
      }
      return Success(id);
    }

    /**
     * `delete(id, deleteRemoteData)`: on success the subscription, its values and its events
     * are gone. When a plugin throws a checked exception, the removal of the events, made
     * before the delegation, is committed; on any other failure the tables are as before.
     */
    method Delete(id: int, deleteRemoteData: bool, ctx: Context) returns (r: Option<Error>)
      requires Valid() && ctx.locator.Valid()
      modifies this
      ensures Valid()
      ensures r == DeleteResult(old(subscriptions), id, deleteRemoteData, ctx)
      ensures invoked == old(invoked) + DeleteTrace(old(subscriptions), id, deleteRemoteData, ctx)
      ensures r.None? ==>
        && subscriptions == old(subscriptions) - {id}
        && values == old(values) - {id}
        && events == old(events) - {id}
      ensures r.Some? && CheckedFailure(ctx, r.value) ==>
        subscriptions == old(subscriptions) && values == old(values) && events == old(events) - {id}
      ensures r.Some? && !CheckedFailure(ctx, r.value) ==>
        subscriptions == old(subscriptions) && values == old(values) && events == old(events)
      ensures nextId == old(nextId)
    {
      if id !in subscriptions {
        return Some(SubscriptionNotFound(id));
      }
      var entity := subscriptions[id];
      if entity.project !in ctx.visibleProjects {
        return Some(ProjectNotFound(entity.project));
      }
      if entity.project !in ctx.managedProjects {
        return Some(Forbidden(entity.project));
      }

      // The transaction: what it rolls back to.
      var savedEvents := events;
      events := events - {id};

      var failed := Delegation(ctx.locator.Resource(Some(entity.node)), Deleting(deleteRemoteData), id, ctx);
      if failed.Some? {
        if failed.value !in ctx.checked {
          events := savedEvents;
        }
        return Some(PluginFailure(failed.value));
      }
      values := values - {id};
      subscriptions := subscriptions - {id};
      return None;
    }

    /** `delete(id)`: the deletion that leaves the plugins' remote data in place. */
    method DeleteKeepingRemoteData(id: int, ctx: Context) returns (r: Option<Error>)
      requires Valid() && ctx.locator.Valid()
      modifies this
      ensures Valid()
      ensures r == DeleteResult(old(subscriptions), id, false, ctx)
      ensures invoked == old(invoked) + DeleteTrace(old(subscriptions), id, false, ctx)
      ensures r.None? ==>
        subscriptions == old(subscriptions) - {id} && values == old(values) - {id} && events == old(events) - {id}
      ensures r.Some? && CheckedFailure(ctx, r.value) ==>
        subscriptions == old(subscriptions) && values == old(values) && events == old(events) - {id}
      ensures r.Some? && !CheckedFailure(ctx, r.value) ==>
        subscriptions == old(subscriptions) && values == old(values) && events == old(events)
      ensures nextId == old(nextId)
    {
      r := Delete(id, false, ctx);
    }
  }
}
