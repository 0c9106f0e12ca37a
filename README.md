# Ligoj subscriptions, parameters and plugins — a Dafny model

Ligoj connects *projects* to *nodes*. A node is a service, a tool or an instance, each one
`refined`-ing its parent (`service:id:ldap:server1` refines `service:id:ldap`, which refines
`service:id`). A *subscription* binds a project to a node. Creating one checks the caller's
rights, the node's *orphan parameters* (parameters of the node, its parent or its grandparent
that no node value fixes yet) and the supplied values. It then asks each *service plugin*
from the node's plugin up to the root to `create` or `link` the subscription. Deleting a
subscription walks the same chain with `delete`.

This project models:

- `SubscriptionResource`: `create`, `delete`, `findAll`, `addNodeAsNeeded` and their checks.
- The `ParameterRepository` queries.
- The project-to-view conversion of `ToVoConverter`.
- The node-key and project-key validation rules.
- The plugin class-loader rules its tests pin down:
  - the extended version string;
  - the module path;
  - the storage path of a subscription;
  - the export of plugin resources.

It also proves properties of these.

Modules:

| module | file | what |
|---|---|---|
| `Wrappers` | `wrappers.dfy` | `Option`, `Result` |
| `Strings` | `strings.dfy` | ASCII case folding, `compareTo` order, split/join, decimal rendering |
| `Sequences` | `sequences.dfy` | filter and the stable insertion sort used for `ORDER BY` and `sorted` |
| `Nodes` | `nodes.dfy` | the node table and the `refined` ancestry |
| `NodeKey` | `node_key.dfy` | the node identifier rule |
| `ProjectKey` | `project_key.dfy` | the project `pkey` constraints |
| `Versions` | `versions.dfy` | `toExtendedVersion` and the newest archive per plugin |
| `PluginLoader` | `plugin_loader.dfy` | module path, storage path, resource export |
| `ParameterRepository` | `parameter_repository.dfy` | orphan parameters, `findOneVisible`, `deleteByNode` |
| `Subscriptions` | `subscriptions.dfy` | `create` / `delete` as a class over maps, plus their specification functions |
| `SubscriptionListing` | `subscription_listing.dfy` | `findAll` and `addNodeAsNeeded` |
| `ToVo` | `to_vo_converter.dfy` | `ToVoConverter.apply` / `addVo` |

How the model represents the system:

- **Persistence.** Tables are maps and sequences.
- **Security.** Security answers are sets of identifiers (visible projects, managed projects,
  subscribable nodes, visible nodes).
- **Plugin locator.** The `ServicePluginLocator` is a pair of tables (`getResource`,
  `getParent`). Its validity predicate says keys shrink along the chain, so the walk ends.
- **Plugin failures.** Which plugin calls throw is a set of calls.
- **Plugin calls.** The calls that were made are recorded in a trace that rollback does not
  undo.

Modelling choices that follow the code:

- **Check order.** `create` checks the mandatory parameters before it looks for overrides
  (`SubscriptionResource.java:212-216`).
- **Rollback.** `create` and `delete` run inside the class-level `javax.transaction.Transactional`
  (`SubscriptionResource.java:16`, `:66`). It rolls back on unchecked exceptions only. The
  resource's own validation errors are unchecked and leave the tables as they were. Plugin calls
  are declared `throws Exception` (`AbstractToolPluginResource.java:52`), so a plugin may throw a
  checked exception. The transaction then commits: `create` keeps the saved subscription and
  its values, and `delete` keeps the removal of the events. Which plugin calls throw a checked
  exception is a set of calls in the context.
- **Alphanumeric version components.** These are padded like numeric ones, as the fixture
  `"12.3b.5A"` shows (`PluginsClassLoaderTest.java:99`).

## Model

| member | source | states |
|---|---|---|
| Nodes.Ancestry | plugin-core/src/main/java/org/ligoj/app/resource/subscription/SubscriptionResource.java:451-457 | the node and its ancestors through `refined`, nearest first; empty for an unknown node; every entry is a stored node |
| Nodes.AncestryLinks | plugin-core/src/main/java/org/ligoj/app/resource/subscription/SubscriptionResource.java:451-457 | each ancestry entry is refined by the one before it, the last refines nothing, and keys strictly shrink, so the walk up `refined` ends |
| NodeKey.IsValidKeyMeaning | plugin-core/src/test/java/org/ligoj/app/model/NodeIdValidatorTest.java:12-38 | the validator's scan accepts a key exactly when it is `service:` followed by lower-case letters, digits and separators (`-`, `:`), starting and ending with a letter or digit, with no two separators in a row |
| NodeKey.InvalidFixtures | plugin-core/src/test/java/org/ligoj/app/model/NodeIdValidatorTest.java:13-24 | the twelve rejected identifiers, `null` included, are rejected |
| NodeKey.ValidFixtures | plugin-core/src/test/java/org/ligoj/app/model/NodeIdValidatorTest.java:33-37 | the five accepted identifiers are accepted |
| NodeKey.ChildKeyIsValid | plugin-core/src/test/java/org/ligoj/app/model/NodeIdValidatorTest.java:33-37 | appending `:` and a well-formed segment to a valid key gives a valid key |
| NodeKey.TrailingSeparatorInvalid | plugin-core/src/test/java/org/ligoj/app/model/NodeIdValidatorTest.java:14-16 | a key ending in `:` or `-` is rejected |
| NodeKey.ForeignCharInvalid | plugin-core/src/test/java/org/ligoj/app/model/NodeIdValidatorTest.java:18-21 | a key holding a character other than lower-case letters, digits, `-` and `:` is rejected |
| NodeKey.DoubleSeparatorInvalid | plugin-core/src/test/java/org/ligoj/app/model/NodeIdValidatorTest.java:16-17 | a key holding two separators in a row (`--`, `-:`, `:-`, `::`) is rejected |
| ProjectKey.PatternMeaning | plugin-core/src/main/java/org/ligoj/app/model/Project.java:34 | the `PKEY_PATTERN` matcher accepts exactly a lower-case letter, or digits with an optional dash then a lower-case letter, followed by lower-case letters, digits and dashes |
| ProjectKey.PatternSubsumesCase | plugin-core/src/main/java/org/ligoj/app/model/Project.java:44-49 | a non-null `pkey` satisfies all five constraints exactly when it matches the pattern and has at most 100 characters; not-blank and lower-case follow from the pattern |
| ProjectKey.DigitsOnlyInvalid | plugin-core/src/main/java/org/ligoj/app/model/Project.java:34 | a key made of digits only, or digits and a dash, is rejected |
| ProjectKey.SuffixKeepsMatch | plugin-core/src/main/java/org/ligoj/app/model/Project.java:34 | appending lower-case letters, digits or dashes to a matching key keeps it matching |
| ProjectKey.ValidExamples | plugin-core/src/main/java/org/ligoj/app/model/Project.java:44-49 | `ligoj`, `1a`, `12-b`, `a--` and `gfi-gstack` are valid |
| ProjectKey.InvalidExamples | plugin-core/src/main/java/org/ligoj/app/model/Project.java:44-49 | `null`, `""`, `123`, `1-`, `-a`, `Ligoj`, `a_b` and `1--a` are invalid |
| Versions.Block | plugin-core/src/test/java/org/ligoj/app/resource/plugin/PluginsClassLoaderTest.java:94-99 | a component of at most seven characters becomes a `Z`-led block of eight characters |
| Versions.BlockExamples | plugin-core/src/test/java/org/ligoj/app/resource/plugin/PluginsClassLoaderTest.java:94-99 | the blocks of every component appearing in the fixtures |
| Versions.ExtendedVersionOfNothing | plugin-core/src/test/java/org/ligoj/app/resource/plugin/PluginsClassLoaderTest.java:94-95 | `null` and `""` give four zero blocks |
| Versions.ExtendedVersionOfShortVersions | plugin-core/src/test/java/org/ligoj/app/resource/plugin/PluginsClassLoaderTest.java:96-97 | `1.0` and `1.2.3.4` give the expected strings, missing components padded with zero blocks |
| Versions.ExtendedVersionOfWideVersion | plugin-core/src/test/java/org/ligoj/app/resource/plugin/PluginsClassLoaderTest.java:98 | `12.34.56.789` gives `Z0000012Z0000034Z0000056Z0000789` |
| Versions.ExtendedVersionOfAlphanumericVersion | plugin-core/src/test/java/org/ligoj/app/resource/plugin/PluginsClassLoaderTest.java:99 | `12.3b.5A` gives `Z0000012Z000003bZ000005AZ0000000` |
| Versions.DigitStringOrder | plugin-core/src/test/java/org/ligoj/app/resource/plugin/PluginsClassLoaderTest.java:94-99 | on digit strings of equal length, string order is numeric order |
| Versions.BlockOrder | plugin-core/src/test/java/org/ligoj/app/resource/plugin/PluginsClassLoaderTest.java:94-99 | blocks of numeric components compare as the numbers they denote |
| Versions.ExtendedVersionMonotonic | plugin-core/src/test/java/org/ligoj/app/resource/plugin/PluginsClassLoaderTest.java:94-99 | for numeric versions, the extended strings compare exactly as the versions compare component by component |
| Versions.OneZeroOneIsNewer | plugin-core/src/test/java/org/ligoj/app/resource/plugin/PluginsClassLoaderTest.java:196-197 | `1.0.1` sorts after `1.0` and not before it |
| Versions.LatestNames | plugin-core/src/test/java/org/ligoj/app/resource/plugin/PluginsClassLoaderTest.java:189-197 | the newest-archive map has exactly one entry per plugin name found |
| Versions.LatestFromArchives | plugin-core/src/test/java/org/ligoj/app/resource/plugin/PluginsClassLoaderTest.java:189-197 | each kept archive is one of the archives of that plugin |
| Versions.LatestIsNewest | plugin-core/src/test/java/org/ligoj/app/resource/plugin/PluginsClassLoaderTest.java:189-197 | no archive of a plugin is newer than the one kept for it |
| Versions.LatestOfTwo | plugin-core/src/test/java/org/ligoj/app/resource/plugin/PluginsClassLoaderTest.java:189-197 | of two archives of the same plugin, the newer is kept, the first one on a tie |
| Versions.LatestExample | plugin-core/src/test/java/org/ligoj/app/resource/plugin/PluginsClassLoaderTest.java:197 | of `plugin-foo-1.0.jar` and `plugin-foo-1.0.1.jar`, the latter is kept |
| PluginLoader.BuildModulePath | plugin-core/src/test/java/org/ligoj/app/resource/plugin/PluginsClassLoaderTest.java:192-193 | the class path starts with the home directory URL, which ends with `/`; the plugin entries follow |
| PluginLoader.PluginNames | plugin-core/src/test/java/org/ligoj/app/resource/plugin/PluginsClassLoaderTest.java:187-197 | the plugin names found, each once, in strictly increasing order |
| PluginLoader.SafeModeHomeOnly | plugin-core/src/test/java/org/ligoj/app/resource/plugin/PluginsClassLoaderTest.java:56-64 | in safe mode the class path is exactly the home directory URL, one entry |
| PluginLoader.NormalModeOnePerPlugin | plugin-core/src/test/java/org/ligoj/app/resource/plugin/PluginsClassLoaderTest.java:187-197 | otherwise there is one entry after the home per plugin name, in strictly increasing name order; each is an archive of that plugin in the plugin directory, and no archive of that plugin is newer |
| PluginLoader.ModulePathExample | plugin-core/src/test/java/org/ligoj/app/resource/plugin/PluginsClassLoaderTest.java:187-197 | with `plugin-foo` in versions 1.0 and 1.0.1 and one more plugin whose name sorts after it, the path has three entries: the home, then `plugin-foo-1.0.1.jar` at index 1, then the other plugin's archive |
| PluginLoader.StoragePath | plugin-core/src/test/java/org/ligoj/app/resource/plugin/PluginsClassLoaderTest.java:129-149 | a subscription's path is the home, one fragment per node of the node's own `refined` ancestry from the root down (the root with `:` replaced by `-`, the others by the last `:`-token of their key), the subscription id, then the extra fragments |
| PluginLoader.ChainAncestry | plugin-core/src/test/java/org/ligoj/app/resource/plugin/PluginsClassLoaderTest.java:151-164 | on a node table where each key of a chain refines the one before it and the first refines nothing, the ancestry of the last key is the chain reversed |
| PluginLoader.ChainKeysChildren | plugin-core/src/test/java/org/ligoj/app/resource/plugin/PluginsClassLoaderTest.java:151-164 | each node key of the chain extends its parent's key with `:` and one segment |
| PluginLoader.StoragePathLayout | plugin-core/src/test/java/org/ligoj/app/resource/plugin/PluginsClassLoaderTest.java:129-149 | for a node whose ancestry is a root and children each adding one `:`-free segment, the path is the home, the root with `-` for `:`, the segments, the id and the extras |
| PluginLoader.StoragePathInjective | plugin-core/src/test/java/org/ligoj/app/resource/plugin/PluginsClassLoaderTest.java:129-149 | for nodes of the same depth under the same root in one node table, the path determines the node's segments, the subscription id and the extras |
| PluginLoader.StoragePathExample | plugin-core/src/test/java/org/ligoj/app/resource/plugin/PluginsClassLoaderTest.java:133-134 | on any node table holding the test's three nodes and their `refined` links, subscription 42 on `service:id:ldap:server1` with `foo`, `bar.log` gives `service-id/ldap/server1/42/foo/bar.log` under the home |
| PluginLoader.ExampleNodesHoldChain | plugin-core/src/test/java/org/ligoj/app/resource/plugin/PluginsClassLoaderTest.java:151-164 | the test's node table, `service:id:ldap:server1` refining `service:id:ldap` refining `service:id`, holds that chain |
| PluginLoader.ChainExample | plugin-core/src/test/java/org/ligoj/app/resource/plugin/PluginsClassLoaderTest.java:151-164 | the chain of the test subscription is `service:id`, `service:id:ldap`, `service:id:ldap:server1` |
| PluginLoader.StorageFileExample | plugin-core/src/test/java/org/ligoj/app/resource/plugin/PluginsClassLoaderTest.java:129-149 | the test subscription's file path joined with `/` is `<home>/service-id/ldap/server1/42/foo/bar.log` |
| PluginLoader.ExportFailsOnFirstFailedCopy | plugin-core/src/test/java/org/ligoj/app/resource/plugin/PluginsClassLoaderTest.java:167-185 | the export fails exactly when some copy fails, and then with a `PluginException` naming the first failed resource |
| PluginLoader.ExportOverwrites | plugin-core/src/test/java/org/ligoj/app/resource/plugin/PluginsClassLoaderTest.java:208-213 | a successful export holds every exported file with the content of its last copy and keeps the other files |
| PluginLoader.CopyFailedExample | plugin-core/src/test/java/org/ligoj/app/resource/plugin/PluginsClassLoaderTest.java:171-179 | a copy that throws makes the export throw `PluginException` |
| ParameterRepository.Lineage | plugin-core/src/main/java/org/ligoj/app/dao/ParameterRepository.java:29 | the node, its parent and its grandparent, as far as they exist (outer joins) |
| ParameterRepository.OrphanParameters | plugin-core/src/main/java/org/ligoj/app/dao/ParameterRepository.java:29-32 | exactly the parameters of a visible node's lineage with mode `ALL` or the requested mode and no value on the lineage, each exactly as often as in the table, ordered by upper-cased id |
| ParameterRepository.OrphanParametersExt | plugin-core/src/main/java/org/ligoj/app/dao/ParameterRepository.java:35-53 | the same selection except that values on the node itself do not exclude a parameter, each exactly as often as in the table, ordered the same way |
| ParameterRepository.ExtIsSuperset | plugin-core/src/main/java/org/ligoj/app/dao/ParameterRepository.java:35-40 | the extended query returns everything the plain one does, and what only it returns has a value on the node itself |
| ParameterRepository.OwnershipStopsAtGrandparent | plugin-core/src/main/java/org/ligoj/app/dao/ParameterRepository.java:29 | a parameter owned above the grandparent is never offered |
| ParameterRepository.FindOneVisible | plugin-core/src/main/java/org/ligoj/app/dao/ParameterRepository.java:65-66 | the parameter with that id whose owner is visible, and `null` exactly when there is none |
| ParameterRepository.DeleteByNode | plugin-core/src/main/java/org/ligoj/app/dao/ParameterRepository.java:74-76 | exactly the parameters owned by the node or a `node:`-prefixed sub-node go, and every other parameter stays with its multiplicity |
| ParameterRepository.DeleteByNodeKeepsSibling | plugin-core/src/main/java/org/ligoj/app/dao/ParameterRepository.java:75 | a node that only shares a prefix (`k-x` for `k`) keeps its parameters |
| ParameterRepository.DeleteByNodeRemovesSubNodes | plugin-core/src/main/java/org/ligoj/app/dao/ParameterRepository.java:75 | parameters of any `k:…` sub-node go |
| ParameterRepository.DeleteByNodeIdempotent | plugin-core/src/main/java/org/ligoj/app/dao/ParameterRepository.java:74-76 | deleting the same subtree twice deletes nothing more |
| Sequences.SortByIsStable | plugin-core/src/main/java/org/ligoj/app/resource/project/ToVoConverter.java:82-83 | the sort is stable: elements with equal keys keep their earlier order |
| Subscriptions.Locator.Chain | plugin-core/src/main/java/org/ligoj/app/resource/subscription/SubscriptionResource.java:229-238 | the plugins visited by the `while (plugin != null)` walk, their keys strictly shrinking, empty exactly when there is no first plugin |
| Subscriptions.FirstMissing | plugin-core/src/main/java/org/ligoj/app/resource/subscription/SubscriptionResource.java:282-288 | no error exactly when every required parameter has a supplied value, otherwise `NotNull` on the first required parameter that has none |
| Subscriptions.CheckMandatoryParameters | plugin-core/src/main/java/org/ligoj/app/resource/subscription/SubscriptionResource.java:272-277 | passes exactly when every accepted mandatory parameter of the requested mode or of mode `ALL` is supplied; fails on a mandatory accepted parameter otherwise |
| Subscriptions.CheckMandatoryParametersAsWritten | plugin-core/src/main/java/org/ligoj/app/resource/subscription/SubscriptionResource.java:272-277 | passes exactly when every accepted mandatory parameter of the requested mode or with no mode is supplied |
| Subscriptions.CheckMandatory | plugin-core/src/main/java/org/ligoj/app/resource/subscription/SubscriptionResource.java:272-288 | under either filter, passes exactly when every accepted mandatory parameter the filter requires is supplied, and otherwise names one such parameter that is not |
| Subscriptions.AsWrittenIgnoresAllMode | plugin-core/src/main/java/org/ligoj/app/resource/subscription/SubscriptionResource.java:275 | on what the orphan query returns, the written filter keeps only parameters of the requested mode, never those of mode `ALL` |
| Subscriptions.MandatoryAllModeExample | plugin-core/src/main/java/org/ligoj/app/resource/subscription/SubscriptionResource.java:208-212 | a mandatory `ALL` parameter the query accepts and nobody supplies passes the written check but fails the corrected one |
| Subscriptions.OnlyAllModeRequired | plugin-core/src/main/java/org/ligoj/app/resource/subscription/SubscriptionResource.java:272-277 | with a single mandatory `ALL` parameter and no values, the written check passes and the corrected one reports it missing |
| Subscriptions.CheckOverrides | plugin-core/src/main/java/org/ligoj/app/resource/subscription/SubscriptionResource.java:261-267 | passes exactly when every supplied id is accepted, otherwise names the first supplied id that is not |
| Subscriptions.OverridesMeaning | plugin-core/src/main/java/org/ligoj/app/resource/subscription/SubscriptionResource.java:215-216 | the check on the id lists passes exactly when only accepted parameters are supplied |
| Subscriptions.Validate | plugin-core/src/main/java/org/ligoj/app/resource/subscription/SubscriptionResource.java:204-216 | `create`'s checks pass exactly when the project is visible and managed, the node subscribable, the mandatory parameters the chosen filter requires supplied and nothing outside the orphan parameters supplied; a rejected override names a supplied, unaccepted id |
| Subscriptions.DelegateFollowsChain | plugin-core/src/main/java/org/ligoj/app/resource/subscription/SubscriptionResource.java:229-238 | one call per plugin of the chain in order, same kind and subscription, stopping at the first call that throws, which is the last one made |
| Subscriptions.RecheckIsImplied | plugin-core/src/main/java/org/ligoj/app/resource/subscription/SubscriptionResource.java:241 | the second mandatory check in mode `CREATE` cannot fail once the first one passed |
| Subscriptions.RecheckIsImpliedAsWritten | plugin-core/src/main/java/org/ligoj/app/resource/subscription/SubscriptionResource.java:241 | the same of the check as written |
| Subscriptions.CreateSucceeds | plugin-core/src/main/java/org/ligoj/app/resource/subscription/SubscriptionResource.java:201-245 | under either filter, `create` succeeds exactly when the checks pass and no plugin throws; it then returns the new id, and each plugin of the chain was called once, in order, with `create` or `link` by mode |
| Subscriptions.CreateAfterValidate | plugin-core/src/main/java/org/ligoj/app/resource/subscription/SubscriptionResource.java:229-245 | once the checks pass, `create` fails exactly with the first plugin call that throws, returns the id otherwise, and its calls are those of the chain walk |
| Subscriptions.CreateWithoutPlugin | plugin-core/src/main/java/org/ligoj/app/resource/subscription/SubscriptionResource.java:201-245 | with no plugin for the node, `create` fails exactly with the error of its checks and returns the id otherwise |
| Subscriptions.CreateAllModeExample | plugin-core/src/main/java/org/ligoj/app/resource/subscription/SubscriptionResource.java:208-245 | on a node with one mandatory `ALL` parameter and no values, `create` as written returns the new id, and with the corrected check fails naming `service:s:url` |
| Subscriptions.AllModeValidation | plugin-core/src/main/java/org/ligoj/app/resource/subscription/SubscriptionResource.java:204-216 | on that example the checks as written pass, and the corrected ones fail naming `service:s:url` |
| Subscriptions.DeleteCallsShareFlag | plugin-core/src/main/java/org/ligoj/app/resource/subscription/SubscriptionResource.java:314-329 | every plugin call of `delete` carries the caller's `deleteRemoteData` flag and the subscription id; the deletion goes through exactly when the subscription exists, its project is visible and managed, and the whole chain is called without a throw |
| Subscriptions.SubscriptionResource.constructor | plugin-core/src/main/java/org/ligoj/app/resource/subscription/SubscriptionResource.java:66 | the resource starts with empty tables and no plugin call |
| Subscriptions.SubscriptionResource.Delegation | plugin-core/src/main/java/org/ligoj/app/resource/subscription/SubscriptionResource.java:229-238 | the loop makes exactly the calls of the chain walk and reports the same failing call |
| Subscriptions.SubscriptionResource.Create | plugin-core/src/main/java/org/ligoj/app/resource/subscription/SubscriptionResource.java:201-245 | returns the outcome of `create` with the corrected mandatory check; on success, and on a checked plugin exception, stores the subscription and its values under the new id; on any other failure every table is as before; plugin calls made stay made |
| Subscriptions.SubscriptionResource.Persist | plugin-core/src/main/java/org/ligoj/app/resource/subscription/SubscriptionResource.java:218-238 | saves the subscription and its values under the next id, then delegates; an unchecked plugin exception rolls the saves back, a checked one leaves them committed |
| Subscriptions.SubscriptionResource.Delete | plugin-core/src/main/java/org/ligoj/app/resource/subscription/SubscriptionResource.java:314-329 | returns the outcome of `delete`; on success removes the subscription, its values and its events; on a checked plugin exception only the events are removed; on any other failure every table is as before |
| Subscriptions.SubscriptionResource.DeleteKeepingRemoteData | plugin-core/src/main/java/org/ligoj/app/resource/subscription/SubscriptionResource.java:299-302 | is the deletion with `deleteRemoteData` false |
| SubscriptionListing.AddNodeAsNeeded | plugin-core/src/main/java/org/ligoj/app/resource/subscription/SubscriptionResource.java:440-460 | keeps existing entries, adds only wrappers of the node's ancestry, changes nothing when the node is present, and leaves the node and all its ancestors in a map whose entries have their ancestors |
| SubscriptionListing.ProjectNames | plugin-core/src/main/java/org/ligoj/app/resource/subscription/SubscriptionResource.java:401-413 | every listed project is indexed, with the name of a project of that id, and with the name of the last row of that id, as a later `put` overwrites an earlier one |
| SubscriptionListing.SortKeyInjective | plugin-core/src/main/java/org/ligoj/app/resource/subscription/SubscriptionResource.java:416-417 | two subscriptions with the same case-insensitive `name,id` key have the same id, so the set drops no subscription with a distinct id |
| SubscriptionListing.FindAll | plugin-core/src/main/java/org/ligoj/app/resource/subscription/SubscriptionResource.java:380-435 | projects as listed; subscriptions ordered by project name then id, all from the rows, and all of them when ids are distinct; nodes sorted by id, exactly the wrappers of the nodes reached by a subscription and their ancestors |
| SubscriptionListing.Values | plugin-core/src/main/java/org/ligoj/app/resource/subscription/SubscriptionResource.java:433 | the map's wrappers in increasing key order, each exactly once |
| ToVo.Met | plugin-core/src/main/java/org/ligoj/app/resource/project/ToVoConverter.java:71-79 | the subscriptions in the order `apply` meets them: those of the rows, then the project's |
| ToVo.FirstNodeIsFirst | plugin-core/src/main/java/org/ligoj/app/resource/project/ToVoConverter.java:98-103 | the node kept for an id is that of the first subscription met with it, and there is none exactly when none is met |
| ToVo.ParametersOfLastWins | plugin-core/src/main/java/org/ligoj/app/resource/project/ToVoConverter.java:71-76 | a subscription's parameter map holds exactly the parameters some row sets, each with the value of the last such row |
| ToVo.NoRowNoParameter | plugin-core/src/main/java/org/ligoj/app/resource/project/ToVoConverter.java:79 | a subscription met only through the project has an empty parameter map |
| ToVo.Converter.Status | plugin-core/src/main/java/org/ligoj/app/resource/project/ToVoConverter.java:107-111 | the status is set exactly when a last event is known, and is that event's value |
| ToVo.Converter.Fresh | plugin-core/src/main/java/org/ligoj/app/resource/project/ToVoConverter.java:99-112 | a new view carries the entity's id and node, no parameter, and a status exactly when an event is known |
| ToVo.Converter.AddVo | plugin-core/src/main/java/org/ligoj/app/resource/project/ToVoConverter.java:97-114 | returns the view stored under the id; an existing one is returned unchanged, otherwise a fresh one is added and nothing else changes |
| ToVo.Converter.PutRows | plugin-core/src/main/java/org/ligoj/app/resource/project/ToVoConverter.java:70-75 | after the parameter rows the map holds one view per subscription of a row, with its first node, last-wins parameters and status |
| ToVo.Converter.Group | plugin-core/src/main/java/org/ligoj/app/resource/project/ToVoConverter.java:70-79 | after both loops the map holds one view per subscription met, with its first node, last-wins parameters and status |
| ToVo.Converter.GroupedValues | plugin-core/src/main/java/org/ligoj/app/resource/project/ToVoConverter.java:82 | the values of that map are exactly the expected views |
| ToVo.Converter.Apply | plugin-core/src/main/java/org/ligoj/app/resource/project/ToVoConverter.java:61-85 | copies id, name, description and pkey, converts the team leader, and lists exactly one expected view per subscription met, sorted by node id and, for equal nodes, by subscription id |
| ToVo.InsertById | plugin-core/src/main/java/org/ligoj/app/resource/project/ToVoConverter.java:70 | inserting a view keeps the list in increasing id order and adds exactly that view |
| ToVo.Values | plugin-core/src/main/java/org/ligoj/app/resource/project/ToVoConverter.java:82 | the `TreeMap`'s values in increasing key order, each exactly once |

## Left out

- I/O, class loading, file-system state, logging and the Spring/JAX-RS wiring are not modelled.
  The class loader reads the plugin directory into a list of archives. The export reads and
  writes a map from paths to contents. Whether a copy throws is a set of failing paths.
- The `NodeIdValidator` and `PluginsClassLoader` implementations are not part of this model.
  Their rules are modelled from the behaviour their tests pin down
  (`NodeIdValidatorTest.java`, `PluginsClassLoaderTest.java`).
- Versions.ExtendedVersion: only the first four dot-separated components are used.
  Components longer than seven characters are not truncated.
- Versions.Latest: among archives with equal extended versions, the first one met is kept.
  The directory listing order is not modelled.
- `NodeRepository.getOrphanParameters` and `NodeRepository.VISIBLE_NODES` are not part of
  this model. `create` calls the node repository's query; it is modelled as the parameter
  repository's `getOrphanParameters`, and visibility as a set of node ids.
- `LIKE` wildcards inside a node id (`_`, `%`) are not modelled. `deleteByNode` treats the id
  literally; Ligoj node ids cannot hold either character.
- `UPPER` and `compareToIgnoreCase` fold ASCII letters only.
- Subscriptions.SubscriptionResource.Create: takes `nextId` as the new identifier and
  restores it on rollback. The database sequence, which does not roll back, is not modelled.
- Subscriptions.SubscriptionResource.Create: the locator's validity (keys shrink along the
  chain) is a precondition. The source relies on plugin registration to make the walk end.
- Subscriptions.SubscriptionResource.Create: uses the corrected mandatory check of the
  finding below. `CreateResult` with the `AsWritten` filter is `create` as written, and
  `CreateAllModeExample` shows where the two differ.
- Which plugin calls throw, and which of those throw a checked exception, are sets in the
  context. The exception classes of the plugins are not part of this model.
- PluginLoader.BuildModulePath: the plugin entries follow the home in increasing plugin-name
  order. `PluginsClassLoader` is not part of this model, and its test fixes only the home at
  index 0 and `plugin-foo-1.0.1.jar` at index 1.
- PluginLoader.ModulePathExample: the third archive of the test's plugin directory is not
  named by the test, so the lemma holds for any archive whose plugin name sorts after
  `plugin-foo`.
- PluginLoader.StoragePath: requires the node table to be `Closed`. Every `refined` link
  designates a stored node, which the foreign key guarantees. `Closed` also demands that each
  parent key be strictly shorter than its child's. That is the Ligoj key convention
  (`service:id:ldap` refines `service:id`), and the source never checks it. It also rules
  out `refined` cycles. `Nodes.Ancestry` carries the same requirement.
- SubscriptionListing.AddNodeAsNeeded and SubscriptionListing.FindAll: require a `Closed`
  node table. The source's `addNodeAsNeeded` tests `containsKey` before it recurses
  (`SubscriptionResource.java:441`), so it also ends on a table with a `refined` cycle. It
  also ends when a parent key is not shorter than its child's. The model excludes both kinds
  of table. It also excludes a parent missing from the node map, on which the source passes
  `null` to the recursive call and throws a `NullPointerException`.
- Subscriptions.SubscriptionResource.Create: `parameterValueResource.create`
  (`SubscriptionResource.java:226`) is assumed to accept and store every supplied value
  unchanged. `ParameterValueResource` is not part of this model. The comment at
  `SubscriptionResource.java:218` expects invalid parameter values to make it throw and roll the
  saved subscription back; that failure is not modelled. `Persist`, `CreateResult` and `CreateSucceeds` hold under this assumption:
  `create` succeeds exactly when the checks pass and no plugin throws.
- Events are kept as a map from subscription id to an event value.
  - `eventRepository.deleteAllBy` is the removal of that entry.
  - The event value is a string.
  - `NodeStatus.valueOf` failing on an unknown value is not modelled.
- ToVo.Converter.Apply: parameter values are kept as the stored strings.
  - `ParameterValueResource.parseValue` is not part of this model.
  - `NodeResource.toVo` is not part of this model; the node is copied.
  - Audit data (`copyAuditData`) is not modelled.
- ToVo.Converter.AddVo: follows the `Map.computeIfAbsent` contract, under which the `put`
  inside the mapping function is redundant. On Java 15 and later,
  `TreeMap.computeIfAbsent` throws `ConcurrentModificationException` when the mapping function
  itself modifies the map. That depends on the runtime, so it is not modelled.
- SubscriptionListing.FindAll requires every subscription row's node and project to exist.
  The source would throw a `NullPointerException` otherwise (`SubscriptionResource.java:416-417`
  and `:430-431`).
- `findAll`'s light subscription rows carry only id, project and node; the other view fields
  are not modelled.
- `checkVisibleSubscription` is the lookup of the subscription followed by the project
  visibility check inside `delete`.
- Persistence details (flush, cascade, the `Project` entity's other columns) are not modelled.

## Findings

| source | as written | input that shows it | evidently intended | confidence | as-written member | corrected member |
|---|---|---|---|---|---|---|
| plugin-core/src/main/java/org/ligoj/app/resource/subscription/SubscriptionResource.java:275 | mandatory parameters are those of the requested mode or with a `null` mode; the orphan query never returns a `null`-mode parameter, so mandatory `ALL`-mode parameters are never enforced | node `service:s` owning mandatory parameter `service:s:url` of mode `ALL`, mode `CREATE`, no values: the written check passes | mandatory parameters of the requested mode or of mode `ALL` must be supplied | not executed | Subscriptions.CheckMandatoryParametersAsWritten, Subscriptions.MandatoryAllModeExample, Subscriptions.CreateAllModeExample | Subscriptions.CheckMandatoryParameters, Subscriptions.SubscriptionResource.Create |
