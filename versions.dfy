/**
 * Plugin versions: the extended form that makes version strings comparable as plain strings,
 * and the choice of one archive per plugin name.
 */
module Versions {
  import opened Wrappers
  import opened Strings

  /** Number of dotted components the extended form keeps. */
  const BlockCount: nat := 4
  /** Width every component is padded to. */
  const BlockWidth: nat := 7
  /** The character that opens each block; it sorts after every digit. */
  const BlockMark: char := 'Z'

  // ---------------------------------------------------------------- extended form

  /** The dotted components of a version; `null` has none, `""` has one empty component. */
  function Parts(version: Option<string>): seq<string>
  {
    if version.None? then [] else Split(version.value, '.')
  }

  /** The `i`-th component, empty when the version has fewer. */
  function Component(parts: seq<string>, i: nat): string
  {
    if i < |parts| then parts[i] else ""
  }

  /** One block: the mark, then the component left-padded with `0` to the block width. */
  function Block(component: string): (b: string)
    ensures |component| <= BlockWidth ==> |b| == BlockWidth + 1
  {
    [BlockMark] + LeftPad(component, BlockWidth, '0')
  }

  /** `toExtendedVersion`: the first four components as blocks, missing ones as all-zero blocks. */
  function ExtendedVersion(version: Option<string>): string
  {
    var parts := Parts(version);
    Block(Component(parts, 0)) + Block(Component(parts, 1)) + Block(Component(parts, 2)) + Block(Component(parts, 3))
  }

  // ---------------------------------------------------------------- splitting literals

  lemma BlockExamples()
    ensures Block("") == "Z0000000" && Block("0") == "Z0000000" && Block("1") == "Z0000001"
    ensures Block("2") == "Z0000002" && Block("3") == "Z0000003" && Block("4") == "Z0000004"
    ensures Block("12") == "Z0000012" && Block("34") == "Z0000034" && Block("56") == "Z0000056"
    ensures Block("789") == "Z0000789" && Block("3b") == "Z000003b" && Block("5A") == "Z000005A"
  {
    assert Repeat('0', 7) == "0000000";
    assert Repeat('0', 6) == "000000";
    assert Repeat('0', 5) == "00000";
    assert Repeat('0', 4) == "0000";
  }

  /** `null` and `""` both give four all-zero blocks. */
  lemma ExtendedVersionOfNothing()
    ensures ExtendedVersion(None) == "Z0000000Z0000000Z0000000Z0000000"
    ensures ExtendedVersion(Some("")) == "Z0000000Z0000000Z0000000Z0000000"
  {
    ZeroBlocks();
    BlockExamples();
    assert Split("", '.') == [""];
    ExtendedVersionBlocks(None, [], "Z0000000", "Z0000000", "Z0000000", "Z0000000");
    ExtendedVersionBlocks(Some(""), [""], "Z0000000", "Z0000000", "Z0000000", "Z0000000");
  }

  lemma PartsOfOneZero()
    ensures Parts(Some("1.0")) == ["1", "0"]
  {
    SplitWithoutSeparator("0", '.');
    assert "1.0" == "1" + ['.'] + "0";
    SplitFirst("1", '.', "0");
  }

  lemma SplitThreeFour()
    ensures Split("3.4", '.') == ["3", "4"]
  {
    SplitWithoutSeparator("4", '.');
    assert "3.4" == "3" + ['.'] + "4";
    SplitFirst("3", '.', "4");
  }

  lemma SplitTwoThreeFour()
    ensures Split("2.3.4", '.') == ["2", "3", "4"]
  {
    SplitThreeFour();
    assert "2.3.4" == "2" + ['.'] + "3.4";
    SplitFirst("2", '.', "3.4");
  }

  lemma PartsOfOneTwoThreeFour()
    ensures Parts(Some("1.2.3.4")) == ["1", "2", "3", "4"]
  {
    SplitTwoThreeFour();
    assert "1.2.3.4" == "1" + ['.'] + "2.3.4";
    SplitFirst("1", '.', "2.3.4");
  }

  lemma SplitWideTail()
    ensures Split("56.789", '.') == ["56", "789"]
  {
    SplitWithoutSeparator("789", '.');
    assert "56.789" == "56" + ['.'] + "789";
    SplitFirst("56", '.', "789");
  }

  lemma SplitWideMiddle()
    ensures Split("34.56.789", '.') == ["34", "56", "789"]
  {
    SplitWideTail();
    assert "34.56.789" == "34" + ['.'] + "56.789";
    SplitFirst("34", '.', "56.789");
  }

  lemma PartsOfWide()
    ensures Parts(Some("12.34.56.789")) == ["12", "34", "56", "789"]
  {
    SplitWideMiddle();
    WideLiteral();
    SplitFirst("12", '.', "34.56.789");
    assert ["12"] + ["34", "56", "789"] == ["12", "34", "56", "789"];
  }

  lemma WideLiteral()
    ensures "12.34.56.789" == "12" + ['.'] + "34.56.789"
  {
  }

  lemma PartsOfAlphanumeric()
    ensures Parts(Some("12.3b.5A")) == ["12", "3b", "5A"]
  {
    SplitWithoutSeparator("5A", '.');
    assert "3b.5A" == "3b" + ['.'] + "5A";
    SplitFirst("3b", '.', "5A");
    assert "12.3b.5A" == "12" + ['.'] + "3b.5A";
    SplitFirst("12", '.', "3b.5A");
  }

  /** The four blocks of a version whose components are `parts`. */
  lemma ExtendedVersionBlocks(version: Option<string>, parts: seq<string>, b0: string, b1: string, b2: string, b3: string)
    requires Parts(version) == parts
    requires Block(Component(parts, 0)) == b0 && Block(Component(parts, 1)) == b1
    requires Block(Component(parts, 2)) == b2 && Block(Component(parts, 3)) == b3
    ensures ExtendedVersion(version) == b0 + b1 + b2 + b3
  {
  }

  lemma ZeroBlocks()
    ensures "Z0000000Z0000000Z0000000Z0000000" == "Z0000000" + "Z0000000" + "Z0000000" + "Z0000000"
    ensures "Z0000001Z0000000Z0000000Z0000000" == "Z0000001" + "Z0000000" + "Z0000000" + "Z0000000"
  {
  }

  lemma CountingBlocks()
    ensures "Z0000001Z0000002Z0000003Z0000004" == "Z0000001" + "Z0000002" + "Z0000003" + "Z0000004"
  {
  }

  lemma WideBlocks()
    ensures "Z0000012Z0000034Z0000056Z0000789" == "Z0000012" + "Z0000034" + "Z0000056" + "Z0000789"
  {
  }

  lemma AlphanumericBlocks()
    ensures "Z0000012Z000003bZ000005AZ0000000" == "Z0000012" + "Z000003b" + "Z000005A" + "Z0000000"
  {
  }

  /** Missing components are zero blocks: `1.0` and `1.2.3.4`. */
  lemma ExtendedVersionOfShortVersions()
    ensures ExtendedVersion(Some("1.0")) == "Z0000001Z0000000Z0000000Z0000000"
    ensures ExtendedVersion(Some("1.2.3.4")) == "Z0000001Z0000002Z0000003Z0000004"
  {
    ZeroBlocks();
    CountingBlocks();
    BlockExamples();
    PartsOfOneZero();
    ExtendedVersionBlocks(Some("1.0"), ["1", "0"], "Z0000001", "Z0000000", "Z0000000", "Z0000000");
    PartsOfOneTwoThreeFour();
    assert Component(["1", "2", "3", "4"], 3) == "4";
    ExtendedVersionBlocks(Some("1.2.3.4"), ["1", "2", "3", "4"], "Z0000001", "Z0000002", "Z0000003", "Z0000004");
  }

  /** Multi-digit components are right-aligned in their block. */
  lemma ExtendedVersionOfWideVersion()
    ensures ExtendedVersion(Some("12.34.56.789")) == "Z0000012Z0000034Z0000056Z0000789"
  {
    WideBlocks();
    BlockExamples();
    PartsOfWide();
    ExtendedVersionBlocks(Some("12.34.56.789"), ["12", "34", "56", "789"], "Z0000012", "Z0000034", "Z0000056", "Z0000789");
  }

  /** Alphanumeric components keep their characters and case, padded like numbers. */
  lemma ExtendedVersionOfAlphanumericVersion()
    ensures ExtendedVersion(Some("12.3b.5A")) == "Z0000012Z000003bZ000005AZ0000000"
  {
    AlphanumericBlocks();
    BlockExamples();
    PartsOfAlphanumeric();
    ExtendedVersionBlocks(Some("12.3b.5A"), ["12", "3b", "5A"], "Z0000012", "Z000003b", "Z000005A", "Z0000000");
  }

  // ---------------------------------------------------------------- numeric reading

  function DigitValue(c: char): nat
    requires IsDigit(c)
  {
    c as int - '0' as int
  }

  /** The number a string of decimal digits denotes; the empty string denotes 0. */
  function Num(s: string): nat
    requires AllDigits(s)
    decreases |s|
  {
    if s == [] then 0 else 10 * Num(s[..|s| - 1]) + DigitValue(s[|s| - 1])
  }

  /** A component the numeric ordering applies to: digits only, and no wider than a block. */
  predicate IsNumericComponent(c: string) { |c| <= BlockWidth && AllDigits(c) }

  /** A version of at most four numeric components (empty components read as 0). */
  predicate IsNumericVersion(version: Option<string>)
  {
    var parts := Parts(version);
    |parts| <= BlockCount && forall i :: 0 <= i < |parts| ==> IsNumericComponent(parts[i])
  }

  /** The four numbers a numeric version denotes, missing components being 0. */
  function Numbers(version: Option<string>): (r: seq<nat>)
    requires IsNumericVersion(version)
    ensures |r| == BlockCount
  {
    var parts := Parts(version);
    seq(BlockCount, i requires 0 <= i < BlockCount => Num(Component(parts, i)))
  }

  /** Component-wise numeric order of versions, from index `i` on. */
  predicate NumbersLess(a: seq<nat>, b: seq<nat>, i: nat)
    requires |a| == |b| && i <= |a|
    decreases |a| - i
  {
    i < |a| && (a[i] < b[i] || (a[i] == b[i] && NumbersLess(a, b, i + 1)))
  }

  /** A greater dotted-numeric version. */
  predicate VersionLess(a: Option<string>, b: Option<string>)
    requires IsNumericVersion(a) && IsNumericVersion(b)
  {
    NumbersLess(Numbers(a), Numbers(b), 0)
  }

  // ---------------------------------------------------------------- monotonicity

  /** Between digit strings of one length, string order is numeric order. */
  lemma {:induction false} DigitStringOrder(x: string, y: string)
    requires AllDigits(x) && AllDigits(y) && |x| == |y|
    ensures Less(x, y) <==> Num(x) < Num(y)
    ensures x == y <==> Num(x) == Num(y)
    decreases |x|
  {
    if |x| > 0 {
      var n := |x| - 1;
      var x', y', c, d := x[..n], y[..n], x[n], y[n];
      assert x == x' + [c] && y == y' + [d];
      DigitStringOrder(x', y');
      LessAppend(x', [c], y', [d]);
      assert Less([c], [d]) <==> c < d by {
        assert [c][1..] == [] && [d][1..] == [];
      }
    }
  }

  lemma {:induction false} LeadingZero(s: string)
    requires AllDigits(s)
    ensures AllDigits(['0'] + s) && Num(['0'] + s) == Num(s)
    decreases |s|
  {
    if s != [] {
      var n := |s| - 1;
      assert (['0'] + s)[..n + 1] == ['0'] + s[..n];
      LeadingZero(s[..n]);
    }
  }

  lemma {:induction false} ZeroPadding(s: string, k: nat)
    requires AllDigits(s)
    ensures AllDigits(Repeat('0', k) + s) && Num(Repeat('0', k) + s) == Num(s)
    decreases k
  {
    if k == 0 {
      assert Repeat('0', k) + s == s;
    } else {
      var t := Repeat('0', k - 1) + s;
      ZeroPadding(s, k - 1);
      assert Repeat('0', k) + s == ['0'] + t;
      LeadingZero(t);
    }
  }

  /** Blocks of numeric components compare as the numbers do. */
  lemma BlockOrder(a: string, b: string)
    requires IsNumericComponent(a) && IsNumericComponent(b)
    ensures Less(Block(a), Block(b)) <==> Num(a) < Num(b)
    ensures Block(a) == Block(b) <==> Num(a) == Num(b)
  {
    var pa, pb := LeftPad(a, BlockWidth, '0'), LeftPad(b, BlockWidth, '0');
    ZeroPadding(a, BlockWidth - |a|);
    ZeroPadding(b, BlockWidth - |b|);
    DigitStringOrder(pa, pb);
    LessAppend([BlockMark], pa, [BlockMark], pb);
    assert !Less([BlockMark], [BlockMark]) by { LessIrreflexive([BlockMark]); }
    assert Block(a) == [BlockMark] + pa && Block(b) == [BlockMark] + pb;
    if Block(a) == Block(b) { assert pa == Block(a)[1..] == Block(b)[1..] == pb; }
  }

  /** One step of the comparison: equal-width leading blocks decide, then the rest. */
  lemma BlockStep(a: string, ra: string, b: string, rb: string, x: seq<nat>, y: seq<nat>, i: nat)
    requires IsNumericComponent(a) && IsNumericComponent(b)
    requires |x| == |y| && i < |x| && x[i] == Num(a) && y[i] == Num(b)
    requires Less(ra, rb) <==> NumbersLess(x, y, i + 1)
    ensures Less(Block(a) + ra, Block(b) + rb) <==> NumbersLess(x, y, i)
  {
    BlockOrder(a, b);
    LessAppend(Block(a), ra, Block(b), rb);
  }

  /** The blocks of the components from index `i` on, concatenated. */
  function BlocksFrom(c: seq<string>, i: nat): string
    requires i <= |c|
    decreases |c| - i
  {
    if i == |c| then [] else Block(c[i]) + BlocksFrom(c, i + 1)
  }

  /** Numeric blocks compare as their numbers do, leftmost first. */
  lemma {:induction false} BlocksOrder(a: seq<string>, b: seq<string>, x: seq<nat>, y: seq<nat>, i: nat)
    requires |a| == |b| == |x| == |y| && i <= |a|
    requires forall k :: 0 <= k < |a| ==> IsNumericComponent(a[k]) && x[k] == Num(a[k])
    requires forall k :: 0 <= k < |b| ==> IsNumericComponent(b[k]) && y[k] == Num(b[k])
    ensures Less(BlocksFrom(a, i), BlocksFrom(b, i)) <==> NumbersLess(x, y, i)
    decreases |a| - i
  {
    if i < |a| {
      BlocksOrder(a, b, x, y, i + 1);
      BlockStep(a[i], BlocksFrom(a, i + 1), b[i], BlocksFrom(b, i + 1), x, y, i);
    }
  }

  /**
   * `toExtendedVersion` is monotonic: for versions of at most four numeric components of at
   * most seven digits, the extended forms compare as strings exactly as the versions compare
   * component by component.
   */
  lemma ExtendedVersionMonotonic(a: Option<string>, b: Option<string>)
    requires IsNumericVersion(a) && IsNumericVersion(b)
    ensures Less(ExtendedVersion(a), ExtendedVersion(b)) <==> VersionLess(a, b)
  {
    var pa, pb := Parts(a), Parts(b);
    var ca := seq(BlockCount, i requires 0 <= i < BlockCount => Component(pa, i));
    var cb := seq(BlockCount, i requires 0 <= i < BlockCount => Component(pb, i));
    assert ExtendedVersion(a) == BlocksFrom(ca, 0) by { FourBlocks(ca); }
    assert ExtendedVersion(b) == BlocksFrom(cb, 0) by { FourBlocks(cb); }
    BlocksOrder(ca, cb, Numbers(a), Numbers(b), 0);
  }

  lemma FourBlocks(c: seq<string>)
    requires |c| == BlockCount
    ensures BlocksFrom(c, 0) == Block(c[0]) + Block(c[1]) + Block(c[2]) + Block(c[3])
  {
    assert BlocksFrom(c, 3) == Block(c[3]) + [] == Block(c[3]);
    assert BlocksFrom(c, 2) == Block(c[2]) + Block(c[3]);
    assert BlocksFrom(c, 1) == Block(c[1]) + (Block(c[2]) + Block(c[3]));
  }

  // ---------------------------------------------------------------- one archive per plugin

  /** A plugin archive: its file name, and the plugin name and version read from it. */
  datatype Archive = Archive(file: string, name: string, version: Option<string>)

  /** `a` is superseded by `b`: its extended version is strictly smaller. */
  predicate Older(a: Archive, b: Archive)
  {
    Less(ExtendedVersion(a.version), ExtendedVersion(b.version))
  }

  /**
   * The archives kept after scanning the plugin directory in the order given, by plugin name:
   * an archive replaces the one kept for its name only when its extended version is greater.
   */
  function Latest(archives: seq<Archive>): map<string, Archive>
    decreases |archives|
  {
    if archives == [] then map[]
    else
      var kept, a := Latest(archives[..|archives| - 1]), archives[|archives| - 1];
      if a.name in kept && !Older(kept[a.name], a) then kept else kept[a.name := a]
  }

  /** A plugin name is kept exactly when some archive carries it. */
  lemma {:induction false} LatestNames(archives: seq<Archive>)
    ensures forall name :: name in Latest(archives) <==> exists a :: a in archives && a.name == name
    decreases |archives|
  {
    if archives != [] {
      var n := |archives| - 1;
      assert archives == archives[..n] + [archives[n]];
      LatestNames(archives[..n]);
    }
  }

  /** The archive kept for a name is one of the archives given, and carries that name. */
  lemma {:induction false} LatestFromArchives(archives: seq<Archive>)
    ensures forall name :: name in Latest(archives) ==>
              Latest(archives)[name] in archives && Latest(archives)[name].name == name
    decreases |archives|
  {
    if archives != [] {
      var n := |archives| - 1;
      assert archives == archives[..n] + [archives[n]];
      LatestFromArchives(archives[..n]);
    }
  }

  /** No archive is newer than the one kept for its name. */
  lemma {:induction false} LatestIsNewest(archives: seq<Archive>)
    ensures forall a :: a in archives ==> a.name in Latest(archives) && !Older(Latest(archives)[a.name], a)
    decreases |archives|
  {
    if archives != [] {
      var n := |archives| - 1;
      var init, a := archives[..n], archives[n];
      assert archives == init + [a];
      LatestIsNewest(init);
      var kept := Latest(init);
      LessIrreflexive(ExtendedVersion(a.version));
      if !(a.name in kept && !Older(kept[a.name], a)) {
        forall b | b in archives ensures b.name in Latest(archives) && !Older(Latest(archives)[b.name], b) {
          if b.name == a.name && b != a {
            assert b in init;
            NotOlderTransitive(kept[a.name], a, b);
          }
        }
      }
    }
  }

  /** When `k` is older than `a` and not older than `b`, then `b` is not newer than `a`. */
  lemma NotOlderTransitive(k: Archive, a: Archive, b: Archive)
    requires Older(k, a) && !Older(k, b)
    ensures !Older(a, b)
  {
    var vk, va, vb := ExtendedVersion(k.version), ExtendedVersion(a.version), ExtendedVersion(b.version);
    LessTotal(vk, vb);
    assert Less(vb, va) by { if vb != vk { LessTransitive(vb, vk, va); } }
    LessAsymmetric(vb, va);
  }

  /** Two archives of one plugin: the newer one is kept, the first one on a tie. */
  lemma LatestOfTwo(x: Archive, y: Archive)
    requires x.name == y.name
    ensures Latest([x, y]) == map[x.name := if Older(x, y) then y else x]
  {
    assert [x, y][..1] == [x];
    assert [x][..0] == [];
    assert Latest([x]) == map[x.name := x];
    assert map[x.name := x][x.name := y] == map[x.name := y];
  }

  /** Of `plugin-foo-1.0` and `plugin-foo-1.0.1`, in either order, only `plugin-foo-1.0.1` is kept. */
  lemma LatestExample()
    ensures var old10 := Archive("plugin-foo-1.0.jar", "plugin-foo", Some("1.0"));
            var new101 := Archive("plugin-foo-1.0.1.jar", "plugin-foo", Some("1.0.1"));
            Latest([old10, new101]) == map["plugin-foo" := new101] &&
            Latest([new101, old10]) == map["plugin-foo" := new101]
  {
    var old10 := Archive("plugin-foo-1.0.jar", "plugin-foo", Some("1.0"));
    var new101 := Archive("plugin-foo-1.0.1.jar", "plugin-foo", Some("1.0.1"));
    OneZeroOneIsNewer();
    LatestOfTwo(old10, new101);
    LatestOfTwo(new101, old10);
  }

  lemma PartsOfOneZeroOne()
    ensures Parts(Some("1.0.1")) == ["1", "0", "1"]
  {
    SplitWithoutSeparator("1", '.');
    assert "0.1" == "0" + ['.'] + "1";
    SplitFirst("0", '.', "1");
    assert "1.0.1" == "1" + ['.'] + "0.1";
    SplitFirst("1", '.', "0.1");
  }

  lemma DigitNumbers()
    ensures AllDigits("0") && AllDigits("1") && Num("0") == 0 && Num("1") == 1 && Num("") == 0
  {
    assert "0"[..0] == "" && "1"[..0] == "";
  }

  lemma NumbersOfOneZero()
    ensures IsNumericVersion(Some("1.0")) && Numbers(Some("1.0")) == [1, 0, 0, 0]
  {
    PartsOfOneZero();
    DigitNumbers();
  }

  lemma NumbersOfOneZeroOne()
    ensures IsNumericVersion(Some("1.0.1")) && Numbers(Some("1.0.1")) == [1, 0, 1, 0]
  {
    PartsOfOneZeroOne();
    DigitNumbers();
  }

  /** `1.0.1` is a greater version than `1.0`, and the extended forms agree. */
  lemma OneZeroOneIsNewer()
    ensures Less(ExtendedVersion(Some("1.0")), ExtendedVersion(Some("1.0.1")))
    ensures !Less(ExtendedVersion(Some("1.0.1")), ExtendedVersion(Some("1.0")))
  {
    NumbersOfOneZero();
    NumbersOfOneZeroOne();
    var x, y := [1, 0, 0, 0], [1, 0, 1, 0];
    assert NumbersLess(x, y, 2) && !NumbersLess(y, x, 2);
    assert NumbersLess(x, y, 0) && !NumbersLess(y, x, 0);
    ExtendedVersionMonotonic(Some("1.0"), Some("1.0.1"));
    ExtendedVersionMonotonic(Some("1.0.1"), Some("1.0"));
  }
}
