/**
 * Strings as Java handles them in the modelled code: character classes, ASCII case folding,
 * `String.compareTo` ordering, splitting on a separator and `Integer.toString`.
 */
module Strings {

  // ---------------------------------------------------------------- character classes

  predicate IsLowerLetter(c: char) { 'a' <= c <= 'z' }
  predicate IsUpperLetter(c: char) { 'A' <= c <= 'Z' }
  predicate IsDigit(c: char) { '0' <= c <= '9' }

  /** `[a-z0-9]` */
  predicate IsLowerAlnum(c: char) { IsLowerLetter(c) || IsDigit(c) }

  predicate AllDigits(s: string) { forall i :: 0 <= i < |s| ==> IsDigit(s[i]) }

  // ---------------------------------------------------------------- case folding (ASCII)

  function ToLowerChar(c: char): char { if IsUpperLetter(c) then (c as int + 32) as char else c }
  function ToUpperChar(c: char): char { if IsLowerLetter(c) then (c as int - 32) as char else c }

  function ToLower(s: string): (r: string)
    ensures |r| == |s|
  {
    seq(|s|, i requires 0 <= i < |s| => ToLowerChar(s[i]))
  }

  function ToUpper(s: string): (r: string)
    ensures |r| == |s|
  {
    seq(|s|, i requires 0 <= i < |s| => ToUpperChar(s[i]))
  }

  // ---------------------------------------------------------------- String.compareTo

  /** `a.compareTo(b) < 0`: the first differing character decides, else the shorter string is smaller. */
  predicate Less(a: string, b: string)
    decreases |a|
  {
    if |b| == 0 then false
    else if |a| == 0 then true
    else if a[0] != b[0] then a[0] < b[0]
    else Less(a[1..], b[1..])
  }

  /** `a.compareTo(b) <= 0` */
  predicate LessEq(a: string, b: string) { a == b || Less(a, b) }

  lemma {:induction false} LessIrreflexive(a: string)
    ensures !Less(a, a)
  {
    if |a| > 0 { LessIrreflexive(a[1..]); }
  }

  lemma {:induction false} LessAsymmetric(a: string, b: string)
    requires Less(a, b)
    ensures !Less(b, a)
  {
    if |a| > 0 && |b| > 0 && a[0] == b[0] { LessAsymmetric(a[1..], b[1..]); }
  }

  lemma {:induction false} LessTransitive(a: string, b: string, c: string)
    requires Less(a, b) && Less(b, c)
    ensures Less(a, c)
    decreases |a|
  {
    if |a| > 0 && a[0] == b[0] && b[0] == c[0] { LessTransitive(a[1..], b[1..], c[1..]); }
  }

  /** The order is total: any two distinct strings are comparable. */
  lemma {:induction false} LessTotal(a: string, b: string)
    ensures a == b || Less(a, b) || Less(b, a)
    decreases |a|
  {
    if |a| > 0 && |b| > 0 && a[0] == b[0] {
      LessTotal(a[1..], b[1..]);
      if a[1..] == b[1..] {
        assert a == [a[0]] + a[1..] && b == [b[0]] + b[1..];
      }
    }
  }

  lemma LessEqTransitive(a: string, b: string, c: string)
    requires LessEq(a, b) && LessEq(b, c)
    ensures LessEq(a, c)
  {
    if a != b && b != c { LessTransitive(a, b, c); }
  }

  /** Comparing two concatenations whose first parts have the same length: the first parts decide, then the rest. */
  lemma {:induction false} LessAppend(a: string, x: string, b: string, y: string)
    requires |a| == |b|
    ensures Less(a + x, b + y) <==> Less(a, b) || (a == b && Less(x, y))
    decreases |a|
  {
    if |a| == 0 {
      assert a + x == x && b + y == y;
    } else {
      assert (a + x)[0] == a[0] && (b + y)[0] == b[0];
      assert (a + x)[1..] == a[1..] + x && (b + y)[1..] == b[1..] + y;
      LessAppend(a[1..], x, b[1..], y);
      if a[0] == b[0] && a[1..] == b[1..] {
        assert a == [a[0]] + a[1..] && b == [b[0]] + b[1..];
      }
      if a == b { assert a[1..] == b[1..]; }
    }
  }

  // ---------------------------------------------------------------- splitting and joining

  /** `s` split on every `sep`, `current` being the part read so far; empty parts are kept. */
  function SplitFrom(s: string, sep: char, current: string): (parts: seq<string>)
    ensures |parts| >= 1
    decreases |s|
  {
    if s == [] then [current]
    else if s[0] == sep then [current] + SplitFrom(s[1..], sep, "")
    else SplitFrom(s[1..], sep, current + [s[0]])
  }

  /** `s` split on every `sep`; empty parts are kept, so there is always at least one part. */
  function Split(s: string, sep: char): (parts: seq<string>)
    ensures |parts| >= 1
  {
    SplitFrom(s, sep, "")
  }

  /** Parts glued back with `sep` between them. */
  function Join(parts: seq<string>, sep: char): string
  {
    if |parts| == 0 then ""
    else if |parts| == 1 then parts[0]
    else parts[0] + [sep] + Join(parts[1..], sep)
  }

  lemma {:induction false} SplitFromParts(s: string, sep: char, current: string)
    requires sep !in current
    ensures Join(SplitFrom(s, sep, current), sep) == current + s
    ensures forall i :: 0 <= i < |SplitFrom(s, sep, current)| ==> sep !in SplitFrom(s, sep, current)[i]
    decreases |s|
  {
    if s == [] {
      assert current + s == current;
    } else if s[0] == sep {
      var rest := SplitFrom(s[1..], sep, "");
      SplitFromParts(s[1..], sep, "");
      assert [current] + rest == [current] + rest;
      assert ([current] + rest)[1..] == rest;
      assert current + s == current + [sep] + s[1..] by { assert s == [sep] + s[1..]; }
      forall i | 0 <= i < |[current] + rest| ensures sep !in ([current] + rest)[i] {
        if i > 0 { assert ([current] + rest)[i] == rest[i - 1]; }
      }
    } else {
      SplitFromParts(s[1..], sep, current + [s[0]]);
      assert current + [s[0]] + s[1..] == current + s by { assert s == [s[0]] + s[1..]; }
    }
  }

  /** Splitting loses nothing: joining the parts gives `s` back, and no part holds `sep`. */
  lemma SplitParts(s: string, sep: char)
    ensures Join(Split(s, sep), sep) == s
    ensures forall i :: 0 <= i < |Split(s, sep)| ==> sep !in Split(s, sep)[i]
  {
    SplitFromParts(s, sep, "");
  }

  lemma {:induction false} SplitFromWithoutSeparator(s: string, sep: char, current: string)
    requires sep !in s
    ensures SplitFrom(s, sep, current) == [current + s]
    decreases |s|
  {
    if s == [] {
      assert current + s == current;
    } else {
      SplitFromWithoutSeparator(s[1..], sep, current + [s[0]]);
      assert current + [s[0]] + s[1..] == current + s by { assert s == [s[0]] + s[1..]; }
    }
  }

  lemma {:induction false} SplitFromFirst(a: string, sep: char, b: string, current: string)
    requires sep !in a
    ensures SplitFrom(a + [sep] + b, sep, current) == [current + a] + SplitFrom(b, sep, "")
    decreases |a|
  {
    var s := a + [sep] + b;
    if a == [] {
      assert s[1..] == b;
      assert current + a == current;
    } else {
      assert s[1..] == a[1..] + [sep] + b;
      SplitFromFirst(a[1..], sep, b, current + [a[0]]);
      assert current + [a[0]] + a[1..] == current + a by { assert a == [a[0]] + a[1..]; }
    }
  }

  /** A string without the separator is one part. */
  lemma SplitWithoutSeparator(s: string, sep: char)
    requires sep !in s
    ensures Split(s, sep) == [s]
  {
    SplitFromWithoutSeparator(s, sep, "");
    assert "" + s == s;
  }

  /** Splitting at the first separator: the text before it is the first part. */
  lemma SplitFirst(a: string, sep: char, b: string)
    requires sep !in a
    ensures Split(a + [sep] + b, sep) == [a] + Split(b, sep)
  {
    SplitFromFirst(a, sep, b, "");
    assert "" + a == a;
  }

  lemma {:induction false} SplitFromAppend(a: string, t: string, sep: char, current: string)
    ensures var pa := SplitFrom(a, sep, current);
            SplitFrom(a + t, sep, current) == pa[..|pa| - 1] + SplitFrom(t, sep, pa[|pa| - 1])
    decreases |a|
  {
    if a == [] {
      assert a + t == t;
    } else {
      assert (a + t)[1..] == a[1..] + t;
      if a[0] == sep {
        SplitFromAppend(a[1..], t, sep, "");
        var rest := SplitFrom(a[1..], sep, "");
        assert ([current] + rest)[..|rest|] == [current] + rest[..|rest| - 1];
      } else {
        SplitFromAppend(a[1..], t, sep, current + [a[0]]);
      }
    }
  }

  /** Splitting at the last separator: the text after it is the last part. */
  lemma SplitLast(a: string, sep: char, b: string)
    requires sep !in b
    ensures Split(a + [sep] + b, sep) == Split(a, sep) + [b]
  {
    var pa := Split(a, sep);
    SplitFromAppend(a, [sep] + b, sep, "");
    assert a + [sep] + b == a + ([sep] + b);
    SplitFromWithoutSeparator(b, sep, "");
    assert ([sep] + b)[1..] == b;
    assert "" + b == b;
    assert pa == pa[..|pa| - 1] + [pa[|pa| - 1]];
  }

  /** The text after the last `sep` (the whole string when there is none). */
  function LastToken(s: string, sep: char): string
  {
    var parts := Split(s, sep);
    parts[|parts| - 1]
  }

  /** Every `from` replaced by `to`. */
  function Replace(s: string, from: char, to: char): (r: string)
    ensures |r| == |s|
  {
    seq(|s|, i requires 0 <= i < |s| => if s[i] == from then to else s[i])
  }

  // ---------------------------------------------------------------- padding

  function Repeat(c: char, n: nat): (r: string)
    ensures |r| == n && forall i :: 0 <= i < n ==> r[i] == c
  {
    if n == 0 then [] else [c] + Repeat(c, n - 1)
  }

  /** `StringUtils.leftPad(s, n, c)`: `c` prepended until the length is `n`; longer strings are unchanged. */
  function LeftPad(s: string, n: nat, c: char): (r: string)
    ensures |s| <= n ==> |r| == n
    ensures |s| > n ==> r == s
  {
    if |s| >= n then s else Repeat(c, n - |s|) + s
  }

  // ---------------------------------------------------------------- Integer.toString

  function DigitChar(d: int): char
    requires 0 <= d < 10
  {
    ('0' as int + d) as char
  }

  function NatToString(n: nat): (s: string)
    decreases n
  {
    if n < 10 then [DigitChar(n)] else NatToString(n / 10) + [DigitChar(n % 10)]
  }

  /** `Integer.toString(i)`: an optional minus sign, then the decimal digits. */
  function IntToString(i: int): string
  {
    if i < 0 then "-" + NatToString(-i) else NatToString(i)
  }

  lemma {:induction false} NatToStringDigits(n: nat)
    ensures |NatToString(n)| >= 1 && AllDigits(NatToString(n))
    ensures n >= 10 ==> |NatToString(n)| >= 2
    decreases n
  {
    if n >= 10 { NatToStringDigits(n / 10); }
  }

  lemma {:induction false} NatToStringInjective(a: nat, b: nat)
    requires NatToString(a) == NatToString(b)
    ensures a == b
    decreases a
  {
    NatToStringDigits(a);
    NatToStringDigits(b);
    if a >= 10 && b >= 10 {
      var sa, sb := NatToString(a), NatToString(b);
      assert sa[|sa| - 1] == DigitChar(a % 10) && sb[|sb| - 1] == DigitChar(b % 10);
      assert NatToString(a / 10) == sa[..|sa| - 1] == sb[..|sb| - 1] == NatToString(b / 10);
      NatToStringInjective(a / 10, b / 10);
    }
  }

  /** Distinct identifiers have distinct decimal renderings. */
  lemma IntToStringInjective(a: int, b: int)
    requires IntToString(a) == IntToString(b)
    ensures a == b
  {
    if a < 0 { NatToStringDigits(-a); }
    if b < 0 { NatToStringDigits(-b); }
    if a >= 0 { NatToStringDigits(a); assert IsDigit(IntToString(a)[0]); }
    if b >= 0 { NatToStringDigits(b); assert IsDigit(IntToString(b)[0]); }
    if a < 0 && b < 0 {
      assert NatToString(-a) == IntToString(a)[1..] == IntToString(b)[1..] == NatToString(-b);
      NatToStringInjective(-a, -b);
    } else if a >= 0 && b >= 0 {
      NatToStringInjective(a, b);
    }
  }
}
