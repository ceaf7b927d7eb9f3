/** The part of `pathlib.Path` that `pytest_snapshot/plugin.py` relies on: building a path
    from a string, `joinpath`, `parent` and `str()`, for POSIX paths. */
module Paths {
  import Strings

  /** A path as pathlib holds it: whether it is absolute, and its segments. */
  datatype Path = Path(absolute: bool, parts: seq<string>)

  /** A segment pathlib keeps: not empty, not `.`, no separator. */
  predicate IsSegment(s: string)
  {
    s != "" && s != "." && '/' !in s
  }

  predicate AllSegments(parts: seq<string>)
  {
    forall i :: 0 <= i < |parts| ==> IsSegment(parts[i])
  }

  /** Drops the empty and `.` pieces of a split path string. */
  function KeepSegments(pieces: seq<string>): (r: seq<string>)
    requires Strings.NoneContains(pieces, '/')
    ensures AllSegments(r)
  {
    if pieces == [] then []
    else (if pieces[0] != "" && pieces[0] != "." then [pieces[0]] else []) + KeepSegments(pieces[1..])
  }

  /** The segments of a path string: `a//b/./c/` has the segments `a`, `b`, `c`. */
  function Segments(s: string): (r: seq<string>)
    ensures AllSegments(r)
  {
    KeepSegments(Strings.Split(s, '/'))
  }

  /** `Path(s)`. */
  function FromString(s: string): Path
  {
    Path(|s| > 0 && s[0] == '/', Segments(s))
  }

  /** `base.joinpath(name)`: an absolute `name` replaces `base`. */
  function JoinPath(base: Path, name: string): (r: Path)
    ensures r.parts == (if |name| > 0 && name[0] == '/' then [] else base.parts) + Segments(name)
    ensures r.absolute == ((|name| > 0 && name[0] == '/') || base.absolute)
  {
    if |name| > 0 && name[0] == '/' then FromString(name)
    else Path(base.absolute, base.parts + Segments(name))
  }

  /** `path.parent`; the root and `.` are their own parents. */
  function Parent(p: Path): Path
  {
    if p.parts == [] then p else Path(p.absolute, p.parts[..|p.parts| - 1])
  }

  /** The path made of the first `n` segments of `p`. */
  function Prefix(p: Path, n: nat): Path
    requires n <= |p.parts|
  {
    Path(p.absolute, p.parts[..n])
  }

  /** `str(path)`. */
  function ToString(p: Path): string
  {
    if p.absolute then "/" + Strings.Join(p.parts, '/')
    else if p.parts == [] then "."
    else Strings.Join(p.parts, '/')
  }

  lemma {:induction false} KeepSegmentsOfSegments(pieces: seq<string>)
    requires Strings.NoneContains(pieces, '/') && AllSegments(pieces)
    ensures KeepSegments(pieces) == pieces
  {
    if pieces != [] {
      KeepSegmentsOfSegments(pieces[1..]);
      assert [pieces[0]] + pieces[1..] == pieces;
    }
  }

  /** Dropping pieces works on each part of a list separately... */
  lemma {:induction false} KeepSegmentsAppend(a: seq<string>, b: seq<string>)
    requires Strings.NoneContains(a, '/') && Strings.NoneContains(b, '/')
    ensures KeepSegments(a + b) == KeepSegments(a) + KeepSegments(b)
  {
    if a != [] {
      assert (a + b)[0] == a[0];
      assert (a + b)[1..] == a[1..] + b;
      KeepSegmentsAppend(a[1..], b);
    } else {
      assert a + b == b;
    }
  }

  /** ... and keeps a single piece exactly when it is neither empty nor `.`. */
  lemma KeepSegmentsOne(x: string)
    requires '/' !in x
    ensures KeepSegments([x]) == if x != "" && x != "." then [x] else []
  {
    assert [x][1..] == [];
  }

  /** The segments of a path string are those before a separator followed by those after
      it. */
  lemma SegmentsSlash(a: string, b: string)
    ensures Segments(a + "/" + b) == Segments(a) + Segments(b)
  {
    Strings.SplitAppend(a, '/', b);
    KeepSegmentsAppend(Strings.Split(a, '/'), Strings.Split(b, '/'));
  }

  /** A piece without a separator is one segment, unless it is empty or `.`. */
  lemma SegmentsPiece(x: string)
    requires '/' !in x
    ensures Segments(x) == if x != "" && x != "." then [x] else []
  {
    Strings.SplitNoSep(x, '/');
    KeepSegmentsOne(x);
  }

  /** One segment, then a path string: the segment comes first. */
  lemma SegmentsCons(x: string, b: string)
    requires IsSegment(x)
    ensures Segments(x + "/" + b) == [x] + Segments(b)
  {
    SegmentsSlash(x, b);
    SegmentsPiece(x);
  }

  /** An empty or `.` piece, then a path string: the piece adds nothing. */
  lemma SegmentsSkip(x: string, b: string)
    requires x == "" || x == "."
    ensures Segments(x + "/" + b) == Segments(b)
  {
    SegmentsSlash(x, b);
    SegmentsPiece(x);
  }

  /** Repeated separators, `.` pieces and a trailing separator add no segment: the string
      `a//b/./c/` has the segments `a`, `b` and `c`. */
  lemma SegmentsNormalised(a: string, b: string, c: string)
    requires IsSegment(a) && IsSegment(b) && IsSegment(c)
    ensures Segments(a + "//" + b + "/./" + c + "/") == [a, b, c]
  {
    var s4 := c + "/" + "";
    var s3 := "." + "/" + s4;
    var s2 := b + "/" + s3;
    var s1 := "" + "/" + s2;
    var s0 := a + "/" + s1;
    assert s0 == a + "//" + b + "/./" + c + "/";
    assert Segments(s3) == [c] by {
      SegmentsPiece("");
      SegmentsCons(c, "");
      SegmentsSkip(".", s4);
    }
    assert Segments(s1) == [b, c] by {
      SegmentsCons(b, s3);
      SegmentsSkip("", s2);
    }
    SegmentsCons(a, s1);
  }

  lemma SegmentsOfJoin(parts: seq<string>)
    requires |parts| >= 1 && AllSegments(parts)
    ensures Segments(Strings.Join(parts, '/')) == parts
  {
    Strings.SplitJoin(parts, '/');
    KeepSegmentsOfSegments(parts);
  }

  lemma JoinFirstChar(parts: seq<string>)
    requires |parts| >= 1 && AllSegments(parts)
    ensures |Strings.Join(parts, '/')| > 0 && Strings.Join(parts, '/')[0] == parts[0][0]
  {
    assert IsSegment(parts[0]);
    if |parts| > 1 {
      assert Strings.Join(parts, '/') == parts[0] + ['/'] + Strings.Join(parts[1..], '/');
    }
  }

  lemma RootRoundTrip()
    ensures FromString(ToString(Path(true, []))) == Path(true, [])
  {
    assert ToString(Path(true, [])) == "/";
    assert Strings.IndexOf("/", '/') == 0;
    assert "/"[1..] == "";
    assert Strings.Split("/", '/') == ["", ""];
  }

  lemma AbsoluteRoundTrip(parts: seq<string>)
    requires |parts| >= 1 && AllSegments(parts)
    ensures FromString(ToString(Path(true, parts))) == Path(true, parts)
  {
    var rest := Strings.Join(parts, '/');
    var s := ToString(Path(true, parts));
    assert s == "/" + rest;
    var pieces := [""] + parts;
    assert pieces[1..] == parts;
    assert Strings.NoneContains(pieces, '/');
    Strings.SplitJoin(pieces, '/');
    assert Strings.Join(pieces, '/') == "" + ['/'] + rest;
    assert "" + ['/'] + rest == s;
    KeepSegmentsOfSegments(parts);
    assert KeepSegments(pieces) == KeepSegments(parts);
  }

  lemma RelativeRoundTrip(parts: seq<string>)
    requires AllSegments(parts)
    ensures FromString(ToString(Path(false, parts))) == Path(false, parts)
  {
    if parts == [] {
      assert Strings.Split(".", '/') == ["."];
    } else {
      SegmentsOfJoin(parts);
      JoinFirstChar(parts);
    }
  }

  /** `Path(str(p)) == p` for a path made of proper segments, so the snapshot directory
      setter, which stores `Path(value)`, keeps a path that was already normal. */
  lemma FromStringToString(p: Path)
    requires AllSegments(p.parts)
    ensures FromString(ToString(p)) == p
  {
    if p.absolute {
      if p.parts == [] { RootRoundTrip(); } else { AbsoluteRoundTrip(p.parts); }
    } else {
      RelativeRoundTrip(p.parts);
    }
  }

  /** Joining a plain file name adds exactly one segment, and the parent of the result is
      the directory it was joined to. */
  lemma JoinSegment(base: Path, name: string)
    requires IsSegment(name)
    ensures JoinPath(base, name) == Path(base.absolute, base.parts + [name])
    ensures Parent(JoinPath(base, name)) == base
  {
    SegmentsOfJoin([name]);
    assert name[0] != '/';
    assert (base.parts + [name])[..|base.parts|] == base.parts;
  }
}
