/**
 The two functions of Node's POSIX `path` module the service relies on:
 `basename` (the public name of the result file, server.js:76) and
 `extname` (the extension kept on a stored upload and tested by the filter,
 server.js:28 and 37). Both ignore trailing '/' characters and look only at
 the last path segment.
 */
module Paths {
  import opened Strings

  /** Strips every trailing '/'. */
  function TrimTrailingSlashes(p: string): (r: string)
    ensures r <= p
    ensures r == [] || r[|r| - 1] != '/'
    ensures forall i :: |r| <= i < |p| ==> p[i] == '/'
  {
    if |p| > 0 && p[|p| - 1] == '/' then TrimTrailingSlashes(p[..|p| - 1]) else p
  }

  /** `seg` ends `t` and is either all of `t` or starts right after a '/'. */
  predicate IsLastSegment(seg: string, t: string)
  {
    |seg| <= |t| && seg == t[|t| - |seg|..] && (|seg| == |t| || t[|t| - |seg| - 1] == '/')
  }

  /** `path.basename(p)`: the last segment, trailing separators ignored. */
  function Basename(p: string): (r: string)
    ensures '/' !in r
    ensures r == [] || r[|r| - 1] != '/'
    ensures IsLastSegment(r, TrimTrailingSlashes(p))
  {
    var t := TrimTrailingSlashes(p);
    t[AfterLast(t, '/')..]
  }

  /**
   The shape of every `path.extname` result: empty, or a '.' followed by
   characters that are neither '.' nor '/'.
   */
  predicate IsExtension(e: string)
  {
    e == [] || (e[0] == '.' && '/' !in e && '.' !in e[1..])
  }

  /** `r` ends `s`. */
  predicate IsSuffix(r: string, s: string)
  {
    |r| <= |s| && r == s[|s| - |r|..]
  }

  /** Some '.' of `seg` comes after its first character. */
  predicate DotAfterFirst(seg: string)
  {
    exists i :: 1 <= i < |seg| && seg[i] == '.'
  }

  /** A '.' after the first character exists exactly when the last '.' is past index 0. */
  lemma DotAfterFirstIffLastDot(seg: string)
    ensures DotAfterFirst(seg) <==> AfterLast(seg, '.') >= 2
  {
    var k := AfterLast(seg, '.');
    if k >= 2 {
      assert seg[k - 1] == '.';
    }
  }

  /**
   The extension of one segment: from its last '.' to its end. A segment
   with no '.', a segment whose last '.' is its first character (".bashrc")
   and the segment ".." have none.
   */
  function SegmentExtension(seg: string): (r: string)
    requires '/' !in seg
    ensures IsExtension(r)
    ensures IsSuffix(r, seg)
    ensures r != [] ==> |r| < |seg|
  {
    var k := AfterLast(seg, '.');
    if seg == ".." || k <= 1 then [] else seg[k - 1..]
  }

  /** A segment has no extension exactly when it is ".." or has no '.' after its first character. */
  lemma SegmentExtensionEmpty(seg: string)
    requires '/' !in seg
    ensures SegmentExtension(seg) == [] <==> seg == ".." || !DotAfterFirst(seg)
  {
    DotAfterFirstIffLastDot(seg);
  }

  /** `path.extname(p)`. */
  function ExtName(p: string): (r: string)
    ensures IsExtension(r)
    ensures IsSuffix(r, Basename(p))
  {
    SegmentExtension(Basename(p))
  }

  /** `path.extname` is empty exactly when the base name is ".." or has no '.' after its first character. */
  lemma ExtNameEmpty(p: string)
    ensures ExtName(p) == [] <==> Basename(p) == ".." || !DotAfterFirst(Basename(p))
  {
    SegmentExtensionEmpty(Basename(p));
  }

  /** A name that ends in a slash-free segment has that segment as its base name. */
  lemma BasenameOfJoin(dir: string, seg: string)
    requires dir == [] || dir[|dir| - 1] == '/'
    requires seg != [] && '/' !in seg
    ensures Basename(dir + seg) == seg
  {
    var p := dir + seg;
    assert p[|p| - 1] == seg[|seg| - 1];
    assert TrimTrailingSlashes(p) == p;
    AfterLastAppend(dir, seg, '/');
    if dir != [] {
      assert AfterLast(dir, '/') == |dir|;
    }
    assert p[|dir|..] == seg;
  }

  /** A non-empty name without '/' is its own base name. */
  lemma BasenameOfSegment(p: string)
    requires p != [] && '/' !in p
    ensures Basename(p) == p
  {
    assert p[|p| - 1] != '/';
    assert TrimTrailingSlashes(p) == p;
  }

  /**
   A slash-free stem that does not start with '.', followed by an extension,
   has exactly that extension: `extname` takes back what was appended. With
   no extension appended, the stem must hold no '.' of its own.
   */
  lemma ExtNameOfSplit(stem: string, ext: string)
    requires stem != [] && '/' !in stem && stem[0] != '.'
    requires IsExtension(ext)
    requires ext == [] ==> '.' !in stem
    ensures ExtName(stem + ext) == ext
  {
    if ext == [] {
      assert stem + ext == stem;
      BasenameOfSegment(stem);
    } else {
      ExtNameOfDotted(stem, ext);
    }
  }

  /** The non-empty case of `ExtNameOfSplit`. */
  lemma ExtNameOfDotted(stem: string, ext: string)
    requires stem != [] && '/' !in stem && stem[0] != '.'
    requires ext != [] && IsExtension(ext)
    ensures ExtName(stem + ext) == ext
  {
    NoSlashInConcat(stem, ext);
    BasenameOfSegment(stem + ext);
    SegmentExtensionOfDotted(stem, ext);
  }

  /** Joining two slash-free strings gives a slash-free string. */
  lemma NoSlashInConcat(a: string, b: string)
    requires '/' !in a && '/' !in b
    ensures '/' !in a + b
  {
    forall i | 0 <= i < |a + b| ensures (a + b)[i] != '/' {
      if i >= |a| { assert (a + b)[i] == b[i - |a|]; }
    }
  }

  /** A segment made of a stem and a non-empty extension has that extension. */
  lemma SegmentExtensionOfDotted(stem: string, ext: string)
    requires stem != [] && stem[0] != '.' && '/' !in stem + ext
    requires ext != [] && IsExtension(ext)
    ensures SegmentExtension(stem + ext) == ext
  {
    var p := stem + ext;
    var rest := ext[1..];
    assert p == (stem + ['.']) + rest;
    AfterLastAppend(stem + ['.'], rest, '.');
    assert AfterLast(p, '.') == |stem| + 1;
    assert p != ".." by {
      assert p[0] == stem[0];
    }
    assert p[|stem|..] == ext;
  }
}
