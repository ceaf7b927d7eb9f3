/** Version parsing in `pytest_snapshot/_utils.py`: `simple_version_parse` matches the
    pattern `([0-9]+)\.([0-9]+)\.([0-9]+)` at the start of a version string, and
    `_pytest_expected_on_right` compares the parsed pytest version with 5.4.0. */
module Versions {
  import opened Wrappers

  /** The (major, minor, patch) tuple `simple_version_parse` returns. */
  datatype Version = Version(major: nat, minor: nat, patch: nat)

  const UnsupportedFormat: string := "Unsupported version format"

  predicate IsDigit(c: char)
  {
    '0' <= c <= '9'
  }

  predicate AllDigits(s: string)
  {
    forall i :: 0 <= i < |s| ==> IsDigit(s[i])
  }

  /** The length of the longest run of digits at the start of `s` (what a greedy
      `[0-9]+` consumes, when it is not zero). */
  function DigitRun(s: string): (n: nat)
    ensures n <= |s|
    ensures AllDigits(s[..n])
    ensures n < |s| ==> !IsDigit(s[n])
  {
    if s != [] && IsDigit(s[0]) then 1 + DigitRun(s[1..]) else 0
  }

  /** `int(ds)` for a string of decimal digits. */
  function DigitsValue(ds: string): nat
    requires AllDigits(ds)
  {
    if ds == [] then 0
    else 10 * DigitsValue(ds[..|ds| - 1]) + (ds[|ds| - 1] as int - '0' as int)
  }

  /** The decimal text of `n`, without leading zeros. */
  function ShowNat(n: nat): (s: string)
    ensures |s| >= 1 && AllDigits(s)
  {
    var d := ['0' + (n % 10) as char];
    if n < 10 then d else ShowNat(n / 10) + d
  }

  /** One `[0-9]+` group: its value and what follows it, or `None` when `s` does not start
      with a digit. */
  function Component(s: string): Option<(nat, string)>
  {
    var n := DigitRun(s);
    if n == 0 then None else Some((DigitsValue(s[..n]), s[n..]))
  }

  /** A dot followed by one `[0-9]+` group. */
  function DotComponent(s: string): Option<(nat, string)>
  {
    if s == [] || s[0] != '.' then None else Component(s[1..])
  }

  /** `simple_version_parse`; `Err` is the `ValueError` for an unsupported format. */
  function SimpleVersionParse(version: string): (r: Result<Version, string>)
    ensures r.Err? ==> r.error == UnsupportedFormat
  {
    var c1 := Component(version);
    if c1.None? then Err(UnsupportedFormat)
    else
      var c2 := DotComponent(c1.value.1);
      if c2.None? then Err(UnsupportedFormat)
      else
        var c3 := DotComponent(c2.value.1);
        if c3.None? then Err(UnsupportedFormat)
        else Ok(Version(c1.value.0, c2.value.0, c3.value.0))
  }

  /** The regular expression's own reading: some split of a prefix of `s` into digits,
      a dot, digits, a dot and digits. */
  ghost predicate MatchesAt(s: string, i: nat, j: nat, k: nat)
  {
    0 < i && i + 1 < j && j + 1 < k && k <= |s| &&
    AllDigits(s[..i]) && s[i] == '.' &&
    AllDigits(s[i + 1..j]) && s[j] == '.' &&
    AllDigits(s[j + 1..k])
  }

  ghost predicate VersionPatternMatches(s: string)
  {
    exists i: nat, j: nat, k: nat :: MatchesAt(s, i, j, k)
  }

  /** A greedy digit run stops at the dot that follows a run of digits. */
  lemma DigitRunStopsAtDot(s: string, i: nat)
    requires i < |s| && AllDigits(s[..i]) && s[i] == '.'
    ensures DigitRun(s) == i
  {
  }

  /** A dot group read at offset `i` of `s`, in terms of `s` itself; its digits end at
      `j`. */
  lemma DotComponentAt(s: string, i: nat) returns (j: nat)
    requires i <= |s| && DotComponent(s[i..]).Some?
    ensures j == i + 1 + DigitRun(s[i + 1..])
    ensures i < |s| && s[i] == '.' && i + 1 < j <= |s|
    ensures AllDigits(s[i + 1..j])
    ensures DotComponent(s[i..]).value.1 == s[j..]
  {
    var t := s[i + 1..];
    assert s[i..][1..] == t;
    var n := DigitRun(t);
    j := i + 1 + n;
    assert t[..n] == s[i + 1..j];
    assert t[n..] == s[j..];
  }

  /** A successful parse has read a digit run, then two dot groups, each starting where
      the previous one ended. */
  lemma ParsedGroups(s: string) returns (i: nat)
    requires SimpleVersionParse(s).Ok?
    ensures i == DigitRun(s) && 0 < i <= |s| && AllDigits(s[..i])
    ensures DotComponent(s[i..]).Some?
    ensures DotComponent(DotComponent(s[i..]).value.1).Some?
  {
    i := DigitRun(s);
    assert Component(s).value.1 == s[i..];
  }

  /** A successful parse has read a prefix the pattern matches. */
  lemma ParsedMatches(s: string)
    requires SimpleVersionParse(s).Ok?
    ensures VersionPatternMatches(s)
  {
    var i := ParsedGroups(s);
    var j := DotComponentAt(s, i);
    var k := DotComponentAt(s, j);
    assert MatchesAt(s, i, j, k);
  }

  /** Where the pattern matches, the parse succeeds. */
  lemma MatchedParses(s: string, i: nat, j: nat, k: nat)
    requires MatchesAt(s, i, j, k)
    ensures SimpleVersionParse(s).Ok?
  {
    DigitRunStopsAtDot(s, i);
    var t1 := s[i + 1..];
    assert t1[..j - i - 1] == s[i + 1..j];
    DigitRunStopsAtDot(t1, j - i - 1);
    var t2 := t1[j - i..];
    assert t2 == s[j + 1..];
    assert IsDigit(t2[0]) by { assert s[j + 1..k][0] == s[j + 1]; }
  }

  /** `simple_version_parse` succeeds exactly when the pattern matches a prefix of the
      string. */
  lemma SimpleVersionParseMatches(s: string)
    ensures SimpleVersionParse(s).Ok? <==> VersionPatternMatches(s)
  {
    if SimpleVersionParse(s).Ok? {
      ParsedMatches(s);
    }
    if VersionPatternMatches(s) {
      var i: nat, j: nat, k: nat :| MatchesAt(s, i, j, k);
      MatchedParses(s, i, j, k);
    }
  }

  lemma {:induction false} ShowNatValue(n: nat)
    ensures DigitsValue(ShowNat(n)) == n
  {
    var s := ShowNat(n);
    if n >= 10 {
      ShowNatValue(n / 10);
      assert s[..|s| - 1] == ShowNat(n / 10);
    }
  }

  lemma ComponentOfShown(n: nat, rest: string)
    requires rest == [] || !IsDigit(rest[0])
    ensures Component(ShowNat(n) + rest) == Some((n, rest))
  {
    var s := ShowNat(n) + rest;
    var m := |ShowNat(n)|;
    assert DigitRun(s) == m by {
      if rest != [] { assert s[m] == rest[0]; }
    }
    assert s[..m] == ShowNat(n);
    assert s[m..] == rest;
    ShowNatValue(n);
  }

  lemma DotComponentOfShown(n: nat, rest: string)
    requires rest == [] || !IsDigit(rest[0])
    ensures DotComponent("." + (ShowNat(n) + rest)) == Some((n, rest))
  {
    assert ("." + (ShowNat(n) + rest))[1..] == ShowNat(n) + rest;
    ComponentOfShown(n, rest);
  }

  /** The round trip: a version printed as `major.minor.patch` and followed by any text
      that does not continue the patch number parses back to the same three numbers. */
  lemma SimpleVersionParseShown(v: Version, rest: string)
    requires rest == [] || !IsDigit(rest[0])
    ensures SimpleVersionParse(ShowNat(v.major) + "." + ShowNat(v.minor) + "." +
                               ShowNat(v.patch) + rest) == Ok(v)
  {
    var m1, m2, m3 := ShowNat(v.major), ShowNat(v.minor), ShowNat(v.patch);
    var r2 := "." + (m3 + rest);
    var r1 := "." + (m2 + r2);
    assert m1 + "." + m2 + "." + m3 + rest == m1 + r1;
    ComponentOfShown(v.major, r1);
    DotComponentOfShown(v.patch, rest);
    assert !IsDigit(r2[0]);
    DotComponentOfShown(v.minor, r2);
  }

  lemma SimpleVersionParseDevRelease()
    ensures SimpleVersionParse("6.2.5.dev1") == Ok(Version(6, 2, 5))
  {
    assert ShowNat(6) == "6" && ShowNat(2) == "2" && ShowNat(5) == "5";
    assert "6" + "." + "2" + "." + "5" + ".dev1" == "6.2.5.dev1";
    SimpleVersionParseShown(Version(6, 2, 5), ".dev1");
  }

  /** A string that does not start with a digit, or stops after two groups, is refused. */
  lemma SimpleVersionParseRejects()
    ensures SimpleVersionParse("v5.4.0").Err?
    ensures SimpleVersionParse("5.4").Err?
  {
    assert DigitRun("v5.4.0") == 0;
    assert Component("5.4") == Some((5, ".4")) by {
      assert DigitRun("5.4") == 1 by { assert DigitRun(".4") == 0; }
      assert "5.4"[..1] == "5";
      assert DigitsValue("5") == 5 by { assert "5"[..0] == ""; }
    }
    assert DotComponent(".4") == Some((4, "")) by {
      assert ".4"[1..] == "4";
      assert DigitRun("4") == 1 by { assert "4"[1..] == ""; }
      assert DigitsValue("4") == 4 by { assert "4"[..0] == ""; }
    }
  }

  /** Python's `a < b` on tuples of integers: the first differing position decides, and a
      proper prefix is smaller. */
  function TupleLess(a: seq<int>, b: seq<int>): bool
  {
    if b == [] then false
    else if a == [] then true
    else if a[0] != b[0] then a[0] < b[0]
    else TupleLess(a[1..], b[1..])
  }

  lemma TupleLessThree(a: int, b: int, c: int, x: int, y: int, z: int)
    ensures TupleLess([a, b, c], [x, y, z]) <==> a < x || (a == x && (b < y || (b == y && c < z)))
  {
    assert [a, b, c][1..] == [b, c] && [x, y, z][1..] == [y, z];
    assert [b, c][1..] == [c] && [y, z][1..] == [z];
    assert [c][1..] == [] && [z][1..] == [];
    assert TupleLess([c], [z]) <==> c < z;
    assert TupleLess([b, c], [y, z]) <==> b < y || (b == y && c < z);
  }

  function AsTuple(v: Version): seq<int>
  {
    [v.major, v.minor, v.patch]
  }

  /** `_pytest_expected_on_right`, given the text of `pytest.__version__`. */
  function PytestExpectedOnRight(pytestVersion: string): (r: bool)
    ensures SimpleVersionParse(pytestVersion).Err? ==> r
    ensures SimpleVersionParse(pytestVersion).Ok? ==>
      var v := SimpleVersionParse(pytestVersion).value;
      (r <==> v.major > 5 || (v.major == 5 && v.minor >= 4))
  {
    match SimpleVersionParse(pytestVersion)
    case Err(_) => true
    case Ok(v) =>
      TupleLessThree(v.major, v.minor, v.patch, 5, 4, 0);
      !TupleLess(AsTuple(v), [5, 4, 0])
  }
}
