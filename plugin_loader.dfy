/**
 * The pure computations of the plugin class loader: the module search path (home directory,
 * then one archive per plugin unless safe mode is on), the per-subscription storage path, and
 * the export of bundled resources, where a failed copy aborts loading.
 */
module PluginLoader {
  import opened Wrappers
  import opened Strings
  import opened Versions
  import opened Sequences
  import opened Nodes

  // ---------------------------------------------------------------- module search path

  /** A plugin name is its own sort key. */
  function NameKey(name: string): string { name }

  /** The plugin names found among the archives, each once, in ascending order. */
  function PluginNames(archives: seq<Archive>): (r: seq<string>)
    ensures StrictlySorted(r, NameKey)
    ensures forall n :: n in r <==> exists a :: a in archives && a.name == n
    decreases |archives|
  {
    if archives == [] then []
    else
      var init, last := archives[..|archives| - 1], archives[|archives| - 1];
      assert archives == init + [last];
      var names := PluginNames(init);
      AddToSetSorted(names, last.name, NameKey);
      AddToSetMembers(names, last.name, NameKey);
      AddToSet(names, last.name, NameKey)
  }

  /** The URL of a directory ends with `/`. */
  function DirectoryUrl(dir: string): string { dir + "/" }

  /**
   * The module search path built at start-up, as the sequence of its URLs: the home directory
   * first; then, unless in safe mode, for every plugin name in ascending order, the archive
   * kept by version selection.
   */
  function BuildModulePath(home: string, pluginDirectory: string, archives: seq<Archive>, safeMode: bool): (r: seq<string>)
    ensures |r| >= 1 && r[0] == DirectoryUrl(home)
    ensures |r[0]| > 0 && r[0][|r[0]| - 1] == '/'
  {
    var kept := Latest(archives);
    var names := if safeMode then [] else PluginNames(archives);
    assert forall n :: n in names ==> n in kept by { LatestNames(archives); }
    [DirectoryUrl(home)] + seq(|names|, i requires 0 <= i < |names| => DirectoryUrl(pluginDirectory) + kept[names[i]].file)
  }

  /** Safe mode exposes the home directory only, however many archives there are. */
  lemma SafeModeHomeOnly(home: string, pluginDirectory: string, archives: seq<Archive>)
    ensures |BuildModulePath(home, pluginDirectory, archives, true)| == 1
    ensures BuildModulePath(home, pluginDirectory, archives, true) == [DirectoryUrl(home)]
  {
  }

  /**
   * Outside safe mode the entries after the home directory follow the plugin names found, in
   * ascending order and each name once; the entry of a name is the archive of that name with
   * the greatest extended version.
   */
  lemma NormalModeOnePerPlugin(home: string, pluginDirectory: string, archives: seq<Archive>)
    ensures var r := BuildModulePath(home, pluginDirectory, archives, false);
            var names := PluginNames(archives);
            && |r| == 1 + |names|
            && StrictlySorted(names, NameKey)
            && (forall n :: n in names <==> exists a :: a in archives && a.name == n)
            && (forall i :: 0 <= i < |names| ==>
                  exists a :: (a in archives && a.name == names[i] && r[i + 1] == DirectoryUrl(pluginDirectory) + a.file
                               && forall b :: b in archives && b.name == names[i] ==> !Older(a, b)))
  {
    var names := PluginNames(archives);
    forall i | 0 <= i < |names|
      ensures exists a :: a in archives && a.name == names[i]
                && BuildModulePath(home, pluginDirectory, archives, false)[i + 1] == DirectoryUrl(pluginDirectory) + a.file
                && forall b :: b in archives && b.name == names[i] ==> !Older(a, b)
    {
      EntryIsNewest(home, pluginDirectory, archives, i);
    }
  }

  /** The entry at position `i + 1` is the newest archive of the `i`-th plugin name. */
  lemma EntryIsNewest(home: string, pluginDirectory: string, archives: seq<Archive>, i: nat)
    requires i < |PluginNames(archives)|
    ensures PluginNames(archives)[i] in Latest(archives)
    ensures var name := PluginNames(archives)[i];
            var a := Latest(archives)[name];
            && a in archives && a.name == name
            && BuildModulePath(home, pluginDirectory, archives, false)[i + 1] == DirectoryUrl(pluginDirectory) + a.file
            && forall b :: b in archives && b.name == name ==> !Older(a, b)
  {
    var names := PluginNames(archives);
    var kept := Latest(archives);
    assert names[i] in kept by {
      assert names[i] in names;
      LatestNames(archives);
    }
    LatestFromArchives(archives);
    LatestIsNewest(archives);
  }

  /**
   * With `plugin-foo-1.0.jar`, `plugin-foo-1.0.1.jar` and the archive of a third plugin whose
   * name sorts after `plugin-foo`, the path has three URLs: the home directory, then
   * `plugin-foo-1.0.1.jar`, then the third archive.
   */
  lemma ModulePathExample(home: string, pluginDirectory: string, other: Archive)
    requires Less("plugin-foo", other.name)
    ensures var archives := [Archive("plugin-foo-1.0.jar", "plugin-foo", Some("1.0")),
                             Archive("plugin-foo-1.0.1.jar", "plugin-foo", Some("1.0.1")), other];
            var r := BuildModulePath(home, pluginDirectory, archives, false);
            && |r| == 3
            && r[0] == DirectoryUrl(home)
            && r[1] == DirectoryUrl(pluginDirectory) + "plugin-foo-1.0.1.jar"
            && r[2] == DirectoryUrl(pluginDirectory) + other.file
  {
    var archives := [Archive("plugin-foo-1.0.jar", "plugin-foo", Some("1.0")),
                     Archive("plugin-foo-1.0.1.jar", "plugin-foo", Some("1.0.1")), other];
    ExampleLatest(other);
    ExamplePluginNames(other);
    var r := BuildModulePath(home, pluginDirectory, archives, false);
    assert r[1] == DirectoryUrl(pluginDirectory) + Latest(archives)["plugin-foo"].file;
  }

  lemma ExampleLatest(other: Archive)
    requires Less("plugin-foo", other.name)
    ensures var old10 := Archive("plugin-foo-1.0.jar", "plugin-foo", Some("1.0"));
            var new101 := Archive("plugin-foo-1.0.1.jar", "plugin-foo", Some("1.0.1"));
            Latest([old10, new101, other]) == map["plugin-foo" := new101, other.name := other]
  {
    var old10 := Archive("plugin-foo-1.0.jar", "plugin-foo", Some("1.0"));
    var new101 := Archive("plugin-foo-1.0.1.jar", "plugin-foo", Some("1.0.1"));
    assert [old10, new101, other][..2] == [old10, new101];
    LatestExample();
    LessIrreflexive("plugin-foo");
  }

  lemma ExamplePluginNames(other: Archive)
    requires Less("plugin-foo", other.name)
    ensures PluginNames([Archive("plugin-foo-1.0.jar", "plugin-foo", Some("1.0")),
                         Archive("plugin-foo-1.0.1.jar", "plugin-foo", Some("1.0.1")), other])
            == ["plugin-foo", other.name]
  {
    var old10 := Archive("plugin-foo-1.0.jar", "plugin-foo", Some("1.0"));
    var new101 := Archive("plugin-foo-1.0.1.jar", "plugin-foo", Some("1.0.1"));
    assert [old10, new101, other][..2] == [old10, new101];
    FooNames();
    InsertAfter("plugin-foo", other.name);
  }

  lemma FooNames()
    ensures PluginNames([Archive("plugin-foo-1.0.jar", "plugin-foo", Some("1.0")),
                         Archive("plugin-foo-1.0.1.jar", "plugin-foo", Some("1.0.1"))]) == ["plugin-foo"]
  {
    var old10 := Archive("plugin-foo-1.0.jar", "plugin-foo", Some("1.0"));
    var new101 := Archive("plugin-foo-1.0.1.jar", "plugin-foo", Some("1.0.1"));
    assert [old10, new101][..1] == [old10];
    assert [old10][..0] == [];
    assert PluginNames([old10]) == ["plugin-foo"];
  }

  /** A name greater than the only one of a sequence goes after it. */
  lemma InsertAfter(first: string, name: string)
    requires Less(first, name)
    ensures AddToSet([first], name, NameKey) == [first, name]
  {
    LessIrreflexive(first);
    LessAsymmetric(first, name);
    assert [first][1..] == [];
  }

  // ---------------------------------------------------------------- storage path of a subscription

  /** The directory name of a node: the root key with `:` turned into `-`, a descendant's last segment. */
  function Fragment(key: string, isRoot: bool): string
  {
    if isRoot then Replace(key, ':', '-') else LastToken(key, ':')
  }

  /**
   * The storage path below the home directory for a chain of node keys listed root first: the
   * fragment of each key, the subscription identifier, then the extras.
   */
  function PathOfChain(home: string, chain: seq<string>, subscription: int, extras: seq<string>): (r: seq<string>)
    ensures |r| == |chain| + 2 + |extras|
    ensures r[0] == home && r[|chain| + 1] == IntToString(subscription) && r[|chain| + 2..] == extras
    ensures forall i :: 0 <= i < |chain| ==> r[i + 1] == Fragment(chain[i], i == 0)
  {
    [home] + seq(|chain|, i requires 0 <= i < |chain| => Fragment(chain[i], i == 0)) + [IntToString(subscription)] + extras
  }

  /**
   * `toFile(subscription, extras...)`: the home, the fragment of every node from the root of
   * the subscription's node's ancestry down to the node itself, the subscription identifier,
   * then the extras. The root's fragment is its whole key with `:` turned into `-`; each node
   * below contributes the last `:`-separated segment of its key.
   */
  function StoragePath(home: string, nodes: map<string, Node>, node: string, subscription: int, extras: seq<string>): (r: seq<string>)
    requires Closed(nodes) && node in nodes
    ensures var down := Reverse(Ancestry(nodes, node));
            && |r| == |down| + 2 + |extras|
            && r[0] == home && r[|down| + 1] == IntToString(subscription) && r[|down| + 2..] == extras
            && r[1] == Replace(down[0], ':', '-')
            && forall i :: 0 < i < |down| ==> r[i + 1] == LastToken(down[i], ':')
  {
    PathOfChain(home, Reverse(Ancestry(nodes, node)), subscription, extras)
  }

  /** `nodes` stores `keys` as a chain: the first refines nothing, each other one refines the key before it. */
  ghost predicate HoldsChain(nodes: map<string, Node>, keys: seq<string>)
  {
    && |keys| >= 1
    && (forall i :: 0 <= i < |keys| ==> keys[i] in nodes)
    && Parent(nodes, keys[0]).None?
    && forall i :: 0 <= i < |keys| - 1 ==> Parent(nodes, keys[i + 1]) == Some(keys[i])
  }

  /** The ancestry of the last node of a stored chain is the chain, read from the node up. */
  lemma {:induction false} ChainAncestry(nodes: map<string, Node>, keys: seq<string>)
    requires Closed(nodes) && HoldsChain(nodes, keys)
    ensures Ancestry(nodes, keys[|keys| - 1]) == Reverse(keys)
    decreases |keys|
  {
    var n := |keys| - 1;
    if n > 0 {
      var init := keys[..n];
      assert HoldsChain(nodes, init);
      ChainAncestry(nodes, init);
      assert Parent(nodes, keys[n]) == Some(keys[n - 1]);
      assert Ancestry(nodes, keys[n]) == [keys[n]] + Ancestry(nodes, init[n - 1]);
    }
  }

  /** The keys of a chain: the root, then the root extended one segment at a time. */
  function ChainKeys(root: string, segments: seq<string>): (r: seq<string>)
    ensures |r| == |segments| + 1 && r[0] == root
    decreases |segments|
  {
    if segments == [] then [root]
    else
      var init := ChainKeys(root, segments[..|segments| - 1]);
      init + [init[|init| - 1] + ":" + segments[|segments| - 1]]
  }

  lemma {:induction false} ChainKeysChildren(root: string, segments: seq<string>)
    ensures forall i :: 0 <= i < |segments| ==> ChainKeys(root, segments)[i + 1] == ChainKeys(root, segments)[i] + ":" + segments[i]
    decreases |segments|
  {
    if segments != [] {
      ChainKeysChildren(root, segments[..|segments| - 1]);
    }
  }

  /** The last segment of a child key is the segment that was appended. */
  lemma LastTokenOfChild(parent: string, segment: string)
    requires ':' !in segment
    ensures LastToken(parent + ":" + segment, ':') == segment
  {
    SplitLast(parent, ':', segment);
    assert parent + ":" + segment == parent + [':'] + segment;
  }

  /**
   * The layout of the storage tree: `<home>/<root key with dashes>/<segment>.../<id>/<extras>`,
   * for a node whose ancestry extends the root one `:`-free segment at a time.
   */
  lemma {:induction false} StoragePathLayout(home: string, nodes: map<string, Node>, root: string, segments: seq<string>,
                          subscription: int, extras: seq<string>)
    requires Closed(nodes) && HoldsChain(nodes, ChainKeys(root, segments))
    requires forall i :: 0 <= i < |segments| ==> ':' !in segments[i]
    ensures StoragePath(home, nodes, ChainKeys(root, segments)[|segments|], subscription, extras)
            == [home, Replace(root, ':', '-')] + segments + [IntToString(subscription)] + extras
  {
    var chain := ChainKeys(root, segments);
    ChainAncestry(nodes, chain);
    assert Reverse(Ancestry(nodes, chain[|segments|])) == chain;
    ChainLayout(home, root, segments, subscription, extras);
  }

  lemma ChainLayout(home: string, root: string, segments: seq<string>, subscription: int, extras: seq<string>)
    requires forall i :: 0 <= i < |segments| ==> ':' !in segments[i]
    ensures PathOfChain(home, ChainKeys(root, segments), subscription, extras)
            == [home, Replace(root, ':', '-')] + segments + [IntToString(subscription)] + extras
  {
    var chain := ChainKeys(root, segments);
    ChainKeysChildren(root, segments);
    var frags := seq(|chain|, i requires 0 <= i < |chain| => Fragment(chain[i], i == 0));
    forall i | 0 <= i < |segments| ensures frags[i + 1] == segments[i] {
      LastTokenOfChild(chain[i], segments[i]);
    }
    assert frags == [Replace(root, ':', '-')] + segments;
  }

  /**
   * Distinct subscriptions never share a storage path: for nodes of the same depth under the
   * same root, the path determines the subscription identifier, the node's segments and the extras.
   */
  lemma {:induction false} StoragePathInjective(home: string, nodes: map<string, Node>, root: string, s1: seq<string>, s2: seq<string>,
                             id1: int, id2: int, e1: seq<string>, e2: seq<string>)
    requires Closed(nodes) && HoldsChain(nodes, ChainKeys(root, s1)) && HoldsChain(nodes, ChainKeys(root, s2))
    requires forall i :: 0 <= i < |s1| ==> ':' !in s1[i]
    requires forall i :: 0 <= i < |s2| ==> ':' !in s2[i]
    requires |s1| == |s2|
    requires StoragePath(home, nodes, ChainKeys(root, s1)[|s1|], id1, e1) == StoragePath(home, nodes, ChainKeys(root, s2)[|s2|], id2, e2)
    ensures s1 == s2 && id1 == id2 && e1 == e2
  {
    var prefix := [home, Replace(root, ':', '-')];
    var p1 := StoragePath(home, nodes, ChainKeys(root, s1)[|s1|], id1, e1);
    var p2 := StoragePath(home, nodes, ChainKeys(root, s2)[|s2|], id2, e2);
    assert p1 == prefix + s1 + [IntToString(id1)] + e1 by { StoragePathLayout(home, nodes, root, s1, id1, e1); }
    assert p2 == prefix + s2 + [IntToString(id2)] + e2 by { StoragePathLayout(home, nodes, root, s2, id2, e2); }
    SegmentsInjective(prefix, s1, s2, IntToString(id1), IntToString(id2), e1, e2);
    IntToStringInjective(id1, id2);
  }

  lemma SegmentsInjective<T>(prefix: seq<T>, s1: seq<T>, s2: seq<T>, x1: T, x2: T, e1: seq<T>, e2: seq<T>)
    requires |s1| == |s2|
    requires prefix + s1 + [x1] + e1 == prefix + s2 + [x2] + e2
    ensures s1 == s2 && x1 == x2 && e1 == e2
  {
    var p1, p2 := prefix + s1 + [x1] + e1, prefix + s2 + [x2] + e2;
    var m, n := |prefix|, |s1|;
    assert s1 == p1[m..m + n] && s2 == p2[m..m + n];
    assert x1 == p1[m + n] && x2 == p2[m + n];
    assert e1 == p1[m + n + 1..] && e2 == p2[m + n + 1..];
  }

  /** The nodes of a subscription on `service:id:ldap:server1`, refining `service:id:ldap`, refining `service:id`. */
  function ExampleNodes(): map<string, Node>
  {
    map["service:id" := Node("service:id", "", None),
        "service:id:ldap" := Node("service:id:ldap", "", Some("service:id")),
        "service:id:ldap:server1" := Node("service:id:ldap:server1", "", Some("service:id:ldap"))]
  }

  /**
   * Subscription 42 on `service:id:ldap:server1`, refining `service:id:ldap`, refining the root
   * `service:id`, with extras `foo`, `bar.log` (`ExampleNodes` is such a node table).
   */
  lemma {:induction false} StoragePathExample(home: string, nodes: map<string, Node>)
    requires Closed(nodes) && HoldsChain(nodes, ["service:id", "service:id:ldap", "service:id:ldap:server1"])
    ensures "service:id:ldap:server1" in nodes
    ensures StoragePath(home, nodes, "service:id:ldap:server1", 42, ["foo", "bar.log"])
            == [home, "service-id", "ldap", "server1", "42", "foo", "bar.log"]
  {
    assert ["service:id", "service:id:ldap", "service:id:ldap:server1"][2] in nodes;
    var p := StoragePath(home, nodes, "service:id:ldap:server1", 42, ["foo", "bar.log"]);
    assert p == [home, Replace("service:id", ':', '-')] + ["ldap", "server1"] + [IntToString(42)] + ["foo", "bar.log"] by {
      ChainExample();
      ColonFreeExample();
      StoragePathLayout(home, nodes, "service:id", ["ldap", "server1"], 42, ["foo", "bar.log"]);
    }
    ExampleFragments(home);
  }

  lemma ColonFreeExample()
    ensures forall i :: 0 <= i < |["ldap", "server1"]| ==> ':' !in ["ldap", "server1"][i]
  {
    assert ':' !in "ldap" && ':' !in "server1";
  }

  lemma ExampleFragments(home: string)
    ensures [home, Replace("service:id", ':', '-')] + ["ldap", "server1"] + [IntToString(42)] + ["foo", "bar.log"]
            == [home, "service-id", "ldap", "server1", "42", "foo", "bar.log"]
  {
    assert Replace("service:id", ':', '-') == "service-id";
    assert IntToString(42) == "42" by { assert NatToString(4) == "4"; }
  }

  /** The node table of the example stores its three keys as a chain. */
  lemma ExampleNodesHoldChain()
    ensures Closed(ExampleNodes())
    ensures HoldsChain(ExampleNodes(), ["service:id", "service:id:ldap", "service:id:ldap:server1"])
  {
    var nodes := ExampleNodes();
    assert nodes.Keys == {"service:id", "service:id:ldap", "service:id:ldap:server1"};
  }

  lemma ChainExample()
    ensures ChainKeys("service:id", ["ldap", "server1"]) == ["service:id", "service:id:ldap", "service:id:ldap:server1"]
  {
    assert ["ldap", "server1"][..1] == ["ldap"];
    assert ["ldap"][..0] == [];
    assert ChainKeys("service:id", []) == ["service:id"];
    assert "service:id" + ":" + "ldap" == "service:id:ldap";
    assert ChainKeys("service:id", ["ldap"]) == ["service:id", "service:id:ldap"];
    assert "service:id:ldap" + ":" + "server1" == "service:id:ldap:server1";
  }

  /** `parts` glued with `/`, one part at a time from the front. */
  lemma JoinCons(first: string, rest: seq<string>)
    requires |rest| > 0
    ensures Join([first] + rest, '/') == first + "/" + Join(rest, '/')
  {
    assert ([first] + rest)[1..] == rest;
  }

  /** Joined with `/`, the example is the file `<home>/service-id/ldap/server1/42/foo/bar.log`. */
  lemma {:induction false} StorageFileExample(home: string, nodes: map<string, Node>)
    requires Closed(nodes) && HoldsChain(nodes, ["service:id", "service:id:ldap", "service:id:ldap:server1"])
    ensures "service:id:ldap:server1" in nodes
    ensures Join(StoragePath(home, nodes, "service:id:ldap:server1", 42, ["foo", "bar.log"]), '/')
            == home + "/" + "service-id/ldap/server1/42/foo/bar.log"
  {
    StoragePathExample(home, nodes);
    JoinedExample(home);
  }

  lemma JoinedExample(home: string)
    ensures Join([home, "service-id", "ldap", "server1", "42", "foo", "bar.log"], '/')
            == home + "/" + "service-id/ldap/server1/42/foo/bar.log"
  {
    var tail := ["service-id", "ldap", "server1", "42", "foo", "bar.log"];
    assert [home, "service-id", "ldap", "server1", "42", "foo", "bar.log"] == [home] + tail;
    JoinCons(home, tail);
    JoinedTail();
  }

  lemma JoinedTail()
    ensures Join(["service-id", "ldap", "server1", "42", "foo", "bar.log"], '/') == "service-id/ldap/server1/42/foo/bar.log"
  {
    JoinedSubscription();
    JoinCons("server1", ["42", "foo", "bar.log"]);
    assert ["server1"] + ["42", "foo", "bar.log"] == ["server1", "42", "foo", "bar.log"];
    JoinCons("ldap", ["server1", "42", "foo", "bar.log"]);
    assert ["ldap"] + ["server1", "42", "foo", "bar.log"] == ["ldap", "server1", "42", "foo", "bar.log"];
    JoinCons("service-id", ["ldap", "server1", "42", "foo", "bar.log"]);
    assert ["service-id"] + ["ldap", "server1", "42", "foo", "bar.log"] == ["service-id", "ldap", "server1", "42", "foo", "bar.log"];
    TailLiteral();
  }

  lemma JoinedSubscription()
    ensures Join(["42", "foo", "bar.log"], '/') == "42/foo/bar.log"
  {
    JoinCons("foo", ["bar.log"]);
    assert ["42"] + ["foo", "bar.log"] == ["42", "foo", "bar.log"];
    JoinCons("42", ["foo", "bar.log"]);
  }

  lemma TailLiteral()
    ensures "service-id" + "/" + ("ldap" + "/" + ("server1" + "/" + "42/foo/bar.log")) == "service-id/ldap/server1/42/foo/bar.log"
  {
  }

  // ---------------------------------------------------------------- resource export

  /** A resource bundled in an archive, by its path relative to the export directory. */
  datatype Resource = Resource(path: string, content: string)

  /** The error that aborts loading. */
  datatype LoaderError = PluginException(path: string)

  /**
   * Copying the exportable resources into the export directory, one after the other, each
   * overwriting a file of the same path; the copy of a path in `failing` raises, which stops the
   * export with a `PluginException`.
   */
  function Export(directory: map<string, string>, resources: seq<Resource>, failing: set<string>): (r: Result<map<string, string>, LoaderError>)
    decreases |resources|
  {
    if resources == [] then Success(directory)
    else if resources[0].path in failing then Failure(PluginException(resources[0].path))
    else Export(directory[resources[0].path := resources[0].content], resources[1..], failing)
  }

  /** The first resource whose copy fails, if any. */
  ghost predicate FirstFailure(resources: seq<Resource>, failing: set<string>, k: int)
  {
    0 <= k < |resources| && resources[k].path in failing && forall j :: 0 <= j < k ==> resources[j].path !in failing
  }

  /**
   * A copy failure is fatal: the export fails exactly when some resource cannot be copied, and
   * the error names the first such resource.
   */
  lemma {:induction false} ExportFailsOnFirstFailedCopy(directory: map<string, string>, resources: seq<Resource>, failing: set<string>)
    ensures Export(directory, resources, failing).Failure? <==> exists k :: FirstFailure(resources, failing, k)
    ensures forall k :: FirstFailure(resources, failing, k) ==>
              Export(directory, resources, failing) == Failure(PluginException(resources[k].path))
    decreases |resources|
  {
    if resources != [] {
      var d' := directory[resources[0].path := resources[0].content];
      ExportFailsOnFirstFailedCopy(d', resources[1..], failing);
      if resources[0].path in failing {
        assert FirstFailure(resources, failing, 0);
      } else {
        forall k | FirstFailure(resources, failing, k) ensures k > 0 && FirstFailure(resources[1..], failing, k - 1) {
        }
        if exists k :: FirstFailure(resources[1..], failing, k) {
          var k :| FirstFailure(resources[1..], failing, k);
          assert FirstFailure(resources, failing, k + 1);
        }
      }
    }
  }

  /** The last resource of `resources` with path `p`, if any. */
  function LastWith(resources: seq<Resource>, p: string): Option<string>
    decreases |resources|
  {
    if resources == [] then None
    else if resources[|resources| - 1].path == p then Some(resources[|resources| - 1].content)
    else LastWith(resources[..|resources| - 1], p)
  }

  /**
   * A successful export leaves every path that was not exported as it was, and gives every
   * exported path the content of the last resource with that path.
   */
  lemma {:induction false} ExportOverwrites(directory: map<string, string>, resources: seq<Resource>, failing: set<string>)
    requires Export(directory, resources, failing).Success?
    ensures var d := Export(directory, resources, failing).value;
            forall p :: (p in d <==> p in directory || LastWith(resources, p).Some?)
                     && (p in d ==> d[p] == if LastWith(resources, p).Some? then LastWith(resources, p).value else directory[p])
    decreases |resources|
  {
    if resources != [] {
      var r0 := resources[0];
      var d' := directory[r0.path := r0.content];
      ExportOverwrites(d', resources[1..], failing);
      forall p ensures LastWith(resources, p) == if LastWith(resources[1..], p).Some? then LastWith(resources[1..], p)
                                                   else if p == r0.path then Some(r0.content) else None {
        LastWithCons(r0, resources[1..], p);
        assert resources == [r0] + resources[1..];
      }
    }
  }

  lemma {:induction false} LastWithCons(r0: Resource, rest: seq<Resource>, p: string)
    ensures LastWith([r0] + rest, p) == if LastWith(rest, p).Some? then LastWith(rest, p)
                                        else if p == r0.path then Some(r0.content) else None
    decreases |rest|
  {
    if rest != [] {
      var s := [r0] + rest;
      assert s[..|s| - 1] == [r0] + rest[..|rest| - 1];
      LastWithCons(r0, rest[..|rest| - 1], p);
    } else {
      assert ([r0] + rest)[..0] == [];
    }
  }

  /** A copy that always fails makes loading fail as soon as there is one resource to export. */
  lemma CopyFailedExample(directory: map<string, string>, resource: Resource)
    ensures Export(directory, [resource], {resource.path}) == Failure(PluginException(resource.path))
  {
  }
}
