/** The filename helpers of `pytest_snapshot/_utils.py`: the path-traversal guard
    `might_be_valid_filename` and the sanitiser `get_valid_filename`, which turns a test's
    parametrisation id into a clean directory name. */
module Filenames {

  /** `ILLEGAL_FILENAME_CHARS`: backslash, slash, colon, star, question mark, double quote,
      less-than, greater-than and bar. */
  const IllegalChars: string := "\\/:*?\"<>|"

  /** `any(c in s for c in chars)`. */
  function ContainsAnyOf(chars: string, s: string): (r: bool)
    ensures r <==> exists i :: 0 <= i < |s| && s[i] in chars
  {
    if chars == [] then false
    else chars[0] in s || ContainsAnyOf(chars[1..], s)
  }

  /** `might_be_valid_filename`: false for a name that is certainly a traversal or not a
      file name (empty, `.`, `..`, or holding an illegal character), true otherwise. */
  function MightBeValidFilename(s: string): (r: bool)
    ensures r <==> (s != "" && s != "." && s != ".." &&
                    forall i :: 0 <= i < |s| ==> s[i] !in IllegalChars)
  {
    !(|s| == 0 || s == "." || s == ".." || ContainsAnyOf(IllegalChars, s))
  }

  /** A valid name cannot hold a path separator, so it is exactly one path segment. */
  lemma ValidFilenameHasNoSlash(s: string)
    requires MightBeValidFilename(s)
    ensures '/' !in s && s != ""
  {
  }

  /** Python's `str.isspace` for one character: the characters `str.strip()` removes. */
  predicate IsSpace(c: char)
  {
    c == ' ' || ('\t' <= c <= '\r') || ('\U{1c}' <= c <= '\U{1f}') ||
    c == '\U{85}' || c == '\U{a0}' || c == '\U{1680}' ||
    ('\U{2000}' <= c <= '\U{200a}') || c == '\U{2028}' || c == '\U{2029}' ||
    c == '\U{202f}' || c == '\U{205f}' || c == '\U{3000}'
  }

  /** The word characters of the regular expression `\w`, taken here as ASCII letters,
      digits and the underscore. */
  predicate IsWordChar(c: char)
  {
    ('a' <= c <= 'z') || ('A' <= c <= 'Z') || ('0' <= c <= '9') || c == '_'
  }

  /** The characters the pattern `[^-\w.]` does not match, so that `re.sub` keeps them. */
  predicate IsKept(c: char)
  {
    c == '-' || c == '.' || IsWordChar(c)
  }

  /** `s.lstrip()`. */
  function StripLeft(s: string): string
  {
    if s != [] && IsSpace(s[0]) then StripLeft(s[1..]) else s
  }

  /** `s.rstrip()`. */
  function StripRight(s: string): string
  {
    if s != [] && IsSpace(s[|s| - 1]) then StripRight(s[..|s| - 1]) else s
  }

  /** `lstrip` removes the longest run of leading whitespace. */
  lemma {:induction false} StripLeftSpec(s: string)
    ensures var r := StripLeft(s);
      |r| <= |s| && r == s[|s| - |r|..] &&
      (forall i :: 0 <= i < |s| - |r| ==> IsSpace(s[i])) &&
      (r == [] || !IsSpace(r[0]))
  {
    if s != [] && IsSpace(s[0]) {
      var r := StripLeft(s[1..]);
      StripLeftSpec(s[1..]);
      assert s[1..][|s| - 1 - |r|..] == s[|s| - |r|..];
    }
  }

  /** `rstrip` removes the longest run of trailing whitespace. */
  lemma {:induction false} StripRightSpec(s: string)
    ensures var r := StripRight(s);
      |r| <= |s| && r == s[..|r|] &&
      (forall i :: |r| <= i < |s| ==> IsSpace(s[i])) &&
      (r == [] || !IsSpace(r[|r| - 1]))
  {
    if s != [] && IsSpace(s[|s| - 1]) {
      StripRightSpec(s[..|s| - 1]);
      assert s[..|s| - 1][..|StripRight(s)|] == s[..|StripRight(s)|];
    }
  }

  /** `s.strip()`. */
  function Strip(s: string): string
  {
    StripRight(StripLeft(s))
  }

  /** `s.replace(' ', '_')`. */
  function ReplaceSpaces(s: string): string
  {
    seq(|s|, i requires 0 <= i < |s| => if s[i] == ' ' then '_' else s[i])
  }

  /** `re.sub(r'(?u)[^-\w.]', '', s)`: every character outside `-`, `.` and the word
      characters is dropped, the rest keep their order. */
  function RemoveUnsafe(s: string): (r: string)
    ensures |r| <= |s|
    ensures forall i :: 0 <= i < |r| ==> IsKept(r[i])
  {
    if s == [] then ""
    else (if IsKept(s[0]) then [s[0]] else "") + RemoveUnsafe(s[1..])
  }

  /** The first two steps of `get_valid_filename`: strip, turn spaces into underscores and
      drop the unsafe characters. */
  function Cleaned(s: string): string
  {
    RemoveUnsafe(ReplaceSpaces(Strip(s)))
  }

  /** `get_valid_filename`. */
  function GetValidFilename(s: string): (r: string)
    ensures r != "" && r != "." && r != ".."
    ensures forall i :: 0 <= i < |r| ==> IsKept(r[i])
    ensures ' ' !in r
  {
    var t := Cleaned(s);
    var r := ReservedPlaceholder(t);
    assert forall i :: 0 <= i < |r| ==> r[i] != ' ' by {
      forall i | 0 <= i < |r| ensures r[i] != ' ' { assert IsKept(r[i]); }
    }
    r
  }

  /** `{'': 'empty', '.': 'dot', '..': 'dotdot'}.get(t, t)`. */
  function ReservedPlaceholder(t: string): (r: string)
    requires forall i :: 0 <= i < |t| ==> IsKept(t[i])
    ensures r != "" && r != "." && r != ".."
    ensures forall i :: 0 <= i < |r| ==> IsKept(r[i])
    ensures t == "" ==> r == "empty"
    ensures t == "." ==> r == "dot"
    ensures t == ".." ==> r == "dotdot"
    ensures t != "" && t != "." && t != ".." ==> r == t
  {
    if t == "" then "empty"
    else if t == "." then "dot"
    else if t == ".." then "dotdot"
    else t
  }

  /** What `get_valid_filename` produces always passes `might_be_valid_filename`. */
  lemma GetValidFilenameIsValid(s: string)
    ensures MightBeValidFilename(GetValidFilename(s))
  {
    var r := GetValidFilename(s);
    forall i | 0 <= i < |r| ensures r[i] !in IllegalChars {
      assert IsKept(r[i]);
    }
  }

  /** A name made of `-`, `.` and word characters, other than `.` and `..`, passes
      `might_be_valid_filename`. */
  lemma KeptIsValid(s: string)
    requires s != "" && s != "." && s != ".."
    requires forall i :: 0 <= i < |s| ==> IsKept(s[i])
    ensures MightBeValidFilename(s)
  {
    forall i | 0 <= i < |s| ensures s[i] !in IllegalChars {
      assert IsKept(s[i]);
    }
  }

  lemma {:induction false} RemoveUnsafeKeepsSafe(s: string)
    requires forall i :: 0 <= i < |s| ==> IsKept(s[i])
    ensures RemoveUnsafe(s) == s
  {
    if s != [] {
      RemoveUnsafeKeepsSafe(s[1..]);
      assert [s[0]] + s[1..] == s;
    }
  }

  /** The substitution is a filter: it treats the two parts of a string separately, ... */
  lemma {:induction false} RemoveUnsafeAppend(a: string, b: string)
    ensures RemoveUnsafe(a + b) == RemoveUnsafe(a) + RemoveUnsafe(b)
  {
    if a != [] {
      assert (a + b)[0] == a[0];
      assert (a + b)[1..] == a[1..] + b;
      RemoveUnsafeAppend(a[1..], b);
    } else {
      assert a + b == b;
    }
  }

  /** ... and keeps a single character exactly when the pattern does not match it. */
  lemma RemoveUnsafeOne(c: char)
    ensures RemoveUnsafe([c]) == if IsKept(c) then [c] else []
  {
    assert [c][1..] == [];
  }

  /** `get_valid_filename` returns the cleaned name, except that the three names a file
      cannot have get their placeholders: `''` becomes `empty`, `.` becomes `dot` and `..`
      becomes `dotdot`. */
  lemma GetValidFilenameCleaned(s: string)
    ensures var t := Cleaned(s);
      (t == "" ==> GetValidFilename(s) == "empty") &&
      (t == "." ==> GetValidFilename(s) == "dot") &&
      (t == ".." ==> GetValidFilename(s) == "dotdot") &&
      (t != "" && t != "." && t != ".." ==> GetValidFilename(s) == t)
  {
  }

  /** A string made only of `-`, `.` and word characters, other than `''`, `'.'` and `'..'`,
      is already a clean file name: `get_valid_filename` returns it unchanged. */
  lemma GetValidFilenameFixesSafe(s: string)
    requires forall i :: 0 <= i < |s| ==> IsKept(s[i])
    requires s != "" && s != "." && s != ".."
    ensures GetValidFilename(s) == s
  {
    assert StripLeft(s) == s by {
      assert !IsSpace(s[0]);
    }
    assert StripRight(s) == s by {
      assert !IsSpace(s[|s| - 1]);
    }
    assert ReplaceSpaces(s) == s;
    RemoveUnsafeKeepsSafe(s);
  }

  /** Sanitising twice is sanitising once. */
  lemma GetValidFilenameIdempotent(s: string)
    ensures GetValidFilename(GetValidFilename(s)) == GetValidFilename(s)
  {
    GetValidFilenameFixesSafe(GetValidFilename(s));
  }

  /** A name made only of whitespace, the empty name among them, becomes `'empty'`. */
  lemma GetValidFilenameBlank(s: string)
    requires forall i :: 0 <= i < |s| ==> IsSpace(s[i])
    ensures GetValidFilename(s) == "empty"
  {
    StripLeftSpec(s);
  }

  /** The names `'.'` and `'..'` map to their placeholders. */
  lemma GetValidFilenameDots()
    ensures GetValidFilename(".") == "dot"
    ensures GetValidFilename("..") == "dotdot"
  {
    assert Strip(".") == "." && ReplaceSpaces(".") == ".";
    assert RemoveUnsafe(".") == ".";
    assert Strip("..") == ".." && ReplaceSpaces("..") == "..";
    assert RemoveUnsafe("..") == ".." by {
      assert RemoveUnsafe("..") == "." + RemoveUnsafe(".");
    }
  }

  lemma StripExample()
    ensures Strip(" a b?") == "a b?"
  {
    assert StripLeft(" a b?") == "a b?";
    assert StripRight("a b?") == "a b?";
  }

  lemma RemoveUnsafeExample()
    ensures RemoveUnsafe("a_b?") == "a_b"
  {
    assert RemoveUnsafe("?") == "";
    assert RemoveUnsafe("b?") == "b";
    assert RemoveUnsafe("_b?") == "_b";
  }

  /** Two clean words joined by a space become the words joined by an underscore. */
  lemma GetValidFilenameSpace(a: string, b: string)
    requires a != "" && b != ""
    requires forall i :: 0 <= i < |a| ==> IsKept(a[i])
    requires forall i :: 0 <= i < |b| ==> IsKept(b[i])
    ensures GetValidFilename(a + " " + b) == a + "_" + b
  {
    var s := a + " " + b;
    assert StripLeft(s) == s by {
      assert s[0] == a[0] && !IsSpace(a[0]);
    }
    assert StripRight(s) == s by {
      assert s[|s| - 1] == b[|b| - 1] && !IsSpace(b[|b| - 1]);
    }
    var u := a + "_" + b;
    assert ReplaceSpaces(s) == u by {
      forall i | 0 <= i < |s| ensures ReplaceSpaces(s)[i] == u[i] {
        if i < |a| {
          assert s[i] == a[i] && u[i] == a[i] && IsKept(a[i]);
        } else if i > |a| {
          assert s[i] == b[i - |a| - 1] && u[i] == b[i - |a| - 1] && IsKept(b[i - |a| - 1]);
        }
      }
    }
    forall i | 0 <= i < |u| ensures IsKept(u[i]) {
      if i < |a| {
        assert u[i] == a[i];
      } else if i > |a| {
        assert u[i] == b[i - |a| - 1];
      }
    }
    RemoveUnsafeKeepsSafe(u);
    assert u[|a|] == '_';
  }

  /** The dot placeholder is given to any name that cleans to `.`, such as `" . "`. */
  lemma GetValidFilenameSpacedDot()
    ensures GetValidFilename(" . ") == "dot"
  {
    assert StripLeft(" . ") == ". ";
    assert StripRight(". ") == ".";
    assert ReplaceSpaces(".") == ".";
    assert RemoveUnsafe(".") == ".";
  }

  /** Outer whitespace is stripped, inner spaces become underscores, unsafe characters go. */
  lemma GetValidFilenameExample()
    ensures GetValidFilename(" a b?") == "a_b"
  {
    StripExample();
    assert ReplaceSpaces("a b?") == "a_b?";
    RemoveUnsafeExample();
  }
}
