/**
 * The node identifier grammar checked by `NodeIdValidator`: the literal `service` followed by
 * one or more `:`-separated segments, each segment `[a-z0-9]+(-[a-z0-9]+)*`.
 * The validator's own source is not part of this model; its test fixtures fix the behaviour.
 */
module NodeKey {
  import opened Wrappers
  import opened Strings

  const Prefix: string := "service:"

  predicate IsSeparator(c: char) { c == '-' || c == ':' }
  predicate IsKeyChar(c: char) { IsLowerAlnum(c) || IsSeparator(c) }

  datatype ScanState = NeedAlnum | InSegment

  /**
   * Left-to-right scan of `k` from index `i`; a separator (`-` or `:`) is accepted only right
   * after a letter or digit, and the text must end on a letter or digit.
   */
  function Scan(k: string, i: nat, st: ScanState): bool
    requires i <= |k|
    decreases |k| - i
  {
    if i == |k| then st == InSegment
    else if IsLowerAlnum(k[i]) then Scan(k, i + 1, InSegment)
    else if IsSeparator(k[i]) && st == InSegment then Scan(k, i + 1, NeedAlnum)
    else false
  }

  /** `NodeIdValidator.isValid`: `null` is `None`. */
  predicate IsValidKey(key: Option<string>)
  {
    key.Some? && |key.value| > |Prefix| && key.value[..|Prefix|] == Prefix && Scan(key.value, |Prefix|, NeedAlnum)
  }

  // ---------------------------------------------------------------- character-level reading

  /** Only key characters, ending on a letter or digit, and every separator followed by a letter or digit. */
  ghost predicate Tail(b: string)
  {
    && (forall i :: 0 <= i < |b| ==> IsKeyChar(b[i]))
    && (|b| > 0 ==> IsLowerAlnum(b[|b| - 1]))
    && (forall i :: 0 <= i < |b| - 1 && IsSeparator(b[i]) ==> IsLowerAlnum(b[i + 1]))
  }

  /** The segments part of a key: non-empty, starting with a letter or digit, and a `Tail`. */
  ghost predicate WellFormedBody(b: string)
  {
    |b| > 0 && IsLowerAlnum(b[0]) && Tail(b)
  }

  /** The grammar read character by character, independently of the scanner. */
  ghost predicate WellFormedKey(k: string)
  {
    |k| > |Prefix| && k[..|Prefix|] == Prefix && WellFormedBody(k[|Prefix|..])
  }

  lemma {:induction false} ScanMeaning(k: string, i: nat, st: ScanState)
    requires i <= |k|
    ensures Scan(k, i, st) <==> if st == NeedAlnum then WellFormedBody(k[i..]) else Tail(k[i..])
    decreases |k| - i
  {
    if i < |k| {
      var b, rest := k[i..], k[i + 1..];
      assert b[0] == k[i] && b[1..] == rest;
      if IsLowerAlnum(b[0]) {
        ScanMeaning(k, i + 1, InSegment);
        assert Tail(rest) <==> Tail(b) by {
          if Tail(rest) {
            forall j | 0 <= j < |b| ensures IsKeyChar(b[j]) { if j > 0 { assert b[j] == rest[j - 1]; } }
            forall j | 0 <= j < |b| - 1 && IsSeparator(b[j]) ensures IsLowerAlnum(b[j + 1]) {
              assert b[j] == rest[j - 1];
            }
          }
          if Tail(b) {
            forall j | 0 <= j < |rest| ensures IsKeyChar(rest[j]) { assert rest[j] == b[j + 1]; }
            forall j | 0 <= j < |rest| - 1 && IsSeparator(rest[j]) ensures IsLowerAlnum(rest[j + 1]) {
              assert rest[j] == b[j + 1];
            }
          }
        }
      } else if IsSeparator(b[0]) {
        ScanMeaning(k, i + 1, NeedAlnum);
        if st == InSegment {
          assert WellFormedBody(rest) <==> Tail(b) by {
            if WellFormedBody(rest) {
              forall j | 0 <= j < |b| ensures IsKeyChar(b[j]) { if j > 0 { assert b[j] == rest[j - 1]; } }
              forall j | 0 <= j < |b| - 1 && IsSeparator(b[j]) ensures IsLowerAlnum(b[j + 1]) {
                if j > 0 { assert b[j] == rest[j - 1]; }
              }
            }
            if Tail(b) {
              assert IsLowerAlnum(b[1]);
              forall j | 0 <= j < |rest| ensures IsKeyChar(rest[j]) { assert rest[j] == b[j + 1]; }
              forall j | 0 <= j < |rest| - 1 && IsSeparator(rest[j]) ensures IsLowerAlnum(rest[j + 1]) {
                assert rest[j] == b[j + 1];
              }
            }
          }
        }
      } else {
        assert !IsKeyChar(b[0]);
      }
    }
  }

  /** The validator accepts exactly the keys of the grammar. */
  lemma IsValidKeyMeaning(k: string)
    ensures IsValidKey(Some(k)) <==> WellFormedKey(k)
  {
    if |k| > |Prefix| { ScanMeaning(k, |Prefix|, NeedAlnum); }
  }

  lemma PrefixChars()
    ensures forall j :: 0 <= j < |Prefix| - 1 ==> IsLowerLetter(Prefix[j])
    ensures Prefix[|Prefix| - 1] == ':'
  {
    assert Prefix == ['s', 'e', 'r', 'v', 'i', 'c', 'e', ':'];
  }

  // ---------------------------------------------------------------- segments

  /** One segment: `[a-z0-9]+(-[a-z0-9]+)*`. */
  ghost predicate ValidSegment(t: string)
  {
    && |t| > 0 && IsLowerAlnum(t[0]) && IsLowerAlnum(t[|t| - 1])
    && (forall i :: 0 <= i < |t| ==> IsLowerAlnum(t[i]) || t[i] == '-')
    && (forall i :: 0 <= i < |t| - 1 && t[i] == '-' ==> t[i + 1] != '-')
  }

  /** Any depth is accepted: a valid key extended by a valid segment is a valid key. */
  lemma ChildKeyIsValid(k: string, t: string)
    requires IsValidKey(Some(k)) && ValidSegment(t)
    ensures IsValidKey(Some(k + ":" + t))
  {
    var c := k + ":" + t;
    IsValidKeyMeaning(k);
    var b := k[|Prefix|..];
    var b' := c[|Prefix|..];
    assert c[..|Prefix|] == Prefix;
    assert b' == b + ":" + t;
    forall i | 0 <= i < |b'| ensures IsKeyChar(b'[i]) {
      if i < |b| { assert b'[i] == b[i]; } else if i > |b| { assert b'[i] == t[i - |b| - 1]; }
    }
    forall i | 0 <= i < |b'| - 1 && IsSeparator(b'[i]) ensures IsLowerAlnum(b'[i + 1]) {
      if i < |b| - 1 {
        assert b'[i] == b[i] && b'[i + 1] == b[i + 1];
      } else if i == |b| - 1 {
        assert b'[i] == b[i];
      } else if i == |b| {
        assert b'[i + 1] == t[0];
      } else {
        assert b'[i] == t[i - |b| - 1] && b'[i + 1] == t[i - |b|];
      }
    }
    assert b'[|b'| - 1] == t[|t| - 1];
    assert b'[0] == b[0];
    assert WellFormedKey(c);
    IsValidKeyMeaning(c);
  }

  /** A key may not end with a separator, so `k + ":"` and `k + "-"` are never valid. */
  lemma TrailingSeparatorInvalid(k: string, sep: char)
    requires IsSeparator(sep)
    ensures !IsValidKey(Some(k + [sep]))
  {
    IsValidKeyMeaning(k + [sep]);
    var c := k + [sep];
    if |c| > |Prefix| { assert c[|Prefix|..][|c| - |Prefix| - 1] == sep; }
  }

  /** A character outside `[a-z0-9:-]` (an upper-case letter, `_`, `é`, a space) makes the key invalid. */
  lemma ForeignCharInvalid(k: string, i: nat)
    requires i < |k| && !IsKeyChar(k[i])
    ensures !IsValidKey(Some(k))
  {
    IsValidKeyMeaning(k);
    if |k| > |Prefix| && k[..|Prefix|] == Prefix {
      PrefixChars();
      assert i >= |Prefix|;
      assert k[|Prefix|..][i - |Prefix|] == k[i];
    }
  }

  /** Two separators in a row (`--`, `-:`, `:-`, `::`) make the key invalid. */
  lemma DoubleSeparatorInvalid(k: string, i: nat)
    requires i + 1 < |k| && IsSeparator(k[i]) && IsSeparator(k[i + 1])
    ensures !IsValidKey(Some(k))
  {
    IsValidKeyMeaning(k);
    if |k| > |Prefix| && k[..|Prefix|] == Prefix && i >= |Prefix| {
      var b := k[|Prefix|..];
      assert b[i - |Prefix|] == k[i] && b[i + 1 - |Prefix|] == k[i + 1];
    } else if |k| > |Prefix| && k[..|Prefix|] == Prefix {
      PrefixChars();
      assert k[i] == Prefix[i];
      if i + 1 == |Prefix| { assert k[|Prefix|..][0] == k[i + 1]; } else { assert k[i + 1] == Prefix[i + 1]; }
    }
  }

  // ---------------------------------------------------------------- fixtures of NodeIdValidatorTest

  lemma InvalidFixtures()
    ensures !IsValidKey(Some("service"))
    ensures !IsValidKey(Some("service:"))
    ensures !IsValidKey(Some("service:a:"))
    ensures !IsValidKey(Some("service:a-:"))
    ensures !IsValidKey(Some("service:a--b:"))
    ensures !IsValidKey(Some("service:a:B"))
    ensures !IsValidKey(Some("1:a:b"))
    ensures !IsValidKey(Some("service:a:bé"))
    ensures !IsValidKey(Some("service:a:b_c"))
    ensures !IsValidKey(Some(""))
    ensures !IsValidKey(None)
    ensures !IsValidKey(Some(" "))
  {
    TrailingSeparatorInvalid("service:a", ':');
    assert "service:a:" == "service:a" + [':'];
    TrailingSeparatorInvalid("service:a-", ':');
    assert "service:a-:" == "service:a-" + [':'];
    TrailingSeparatorInvalid("service:a--b", ':');
    assert "service:a--b:" == "service:a--b" + [':'];
    ForeignCharInvalid("service:a:B", 10);
    ForeignCharInvalid("service:a:bé", 11);
    ForeignCharInvalid("service:a:b_c", 11);
  }

  lemma ValidFixtures()
    ensures IsValidKey(Some("service:vm:vcloud:some-deep-name"))
    ensures IsValidKey(Some("service:e"))
    ensures IsValidKey(Some("service:a:b"))
    ensures IsValidKey(Some("service:a:b-c-d"))
    ensures IsValidKey(Some("service:a:b:c:1"))
  {
    DeepKeyIsValid();
    ShortKeyIsValid();
    TwoLevelKeyIsValid();
    DashedKeyIsValid();
    FourLevelKeyIsValid();
  }

  lemma DeepKeyIsValid()
    ensures IsValidKey(Some("service:vm:vcloud:some-deep-name"))
  {
    assert "service:vm:vcloud:some-deep-name"[..8] == Prefix;
    assert Scan("service:vm:vcloud:some-deep-name", 32, InSegment);
    assert Scan("service:vm:vcloud:some-deep-name", 31, InSegment);
    assert Scan("service:vm:vcloud:some-deep-name", 30, InSegment);
    assert Scan("service:vm:vcloud:some-deep-name", 29, InSegment);
    assert Scan("service:vm:vcloud:some-deep-name", 28, NeedAlnum);
    assert Scan("service:vm:vcloud:some-deep-name", 27, InSegment);
    assert Scan("service:vm:vcloud:some-deep-name", 26, InSegment);
    assert Scan("service:vm:vcloud:some-deep-name", 25, InSegment);
    assert Scan("service:vm:vcloud:some-deep-name", 24, InSegment);
    assert Scan("service:vm:vcloud:some-deep-name", 23, NeedAlnum);
    assert Scan("service:vm:vcloud:some-deep-name", 22, InSegment);
    assert Scan("service:vm:vcloud:some-deep-name", 21, InSegment);
    assert Scan("service:vm:vcloud:some-deep-name", 20, InSegment);
    assert Scan("service:vm:vcloud:some-deep-name", 19, InSegment);
    assert Scan("service:vm:vcloud:some-deep-name", 18, NeedAlnum);
    assert Scan("service:vm:vcloud:some-deep-name", 17, InSegment);
    assert Scan("service:vm:vcloud:some-deep-name", 16, InSegment);
    assert Scan("service:vm:vcloud:some-deep-name", 15, InSegment);
    assert Scan("service:vm:vcloud:some-deep-name", 14, InSegment);
    assert Scan("service:vm:vcloud:some-deep-name", 13, InSegment);
    assert Scan("service:vm:vcloud:some-deep-name", 12, InSegment);
    assert Scan("service:vm:vcloud:some-deep-name", 11, NeedAlnum);
    assert Scan("service:vm:vcloud:some-deep-name", 10, InSegment);
    assert Scan("service:vm:vcloud:some-deep-name", 9, InSegment);
    assert Scan("service:vm:vcloud:some-deep-name", 8, NeedAlnum);
  }

  lemma ShortKeyIsValid()
    ensures IsValidKey(Some("service:e"))
  {
    assert "service:e"[..8] == Prefix;
    assert Scan("service:e", 9, InSegment);
    assert Scan("service:e", 8, NeedAlnum);
  }

  lemma TwoLevelKeyIsValid()
    ensures IsValidKey(Some("service:a:b"))
  {
    assert "service:a:b"[..8] == Prefix;
    assert Scan("service:a:b", 11, InSegment);
    assert Scan("service:a:b", 10, NeedAlnum);
    assert Scan("service:a:b", 9, InSegment);
    assert Scan("service:a:b", 8, NeedAlnum);
  }

  lemma DashedKeyIsValid()
    ensures IsValidKey(Some("service:a:b-c-d"))
  {
    assert "service:a:b-c-d"[..8] == Prefix;
    assert Scan("service:a:b-c-d", 15, InSegment);
    assert Scan("service:a:b-c-d", 14, NeedAlnum);
    assert Scan("service:a:b-c-d", 13, InSegment);
    assert Scan("service:a:b-c-d", 12, NeedAlnum);
    assert Scan("service:a:b-c-d", 11, InSegment);
    assert Scan("service:a:b-c-d", 10, NeedAlnum);
    assert Scan("service:a:b-c-d", 9, InSegment);
    assert Scan("service:a:b-c-d", 8, NeedAlnum);
  }

  lemma FourLevelKeyIsValid()
    ensures IsValidKey(Some("service:a:b:c:1"))
  {
    assert "service:a:b:c:1"[..8] == Prefix;
    assert Scan("service:a:b:c:1", 15, InSegment);
    assert Scan("service:a:b:c:1", 14, NeedAlnum);
    assert Scan("service:a:b:c:1", 13, InSegment);
    assert Scan("service:a:b:c:1", 12, NeedAlnum);
    assert Scan("service:a:b:c:1", 11, InSegment);
    assert Scan("service:a:b:c:1", 10, NeedAlnum);
    assert Scan("service:a:b:c:1", 9, InSegment);
    assert Scan("service:a:b:c:1", 8, NeedAlnum);
  }
}
