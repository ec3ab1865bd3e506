/**
 The upload filter of server.js:34-44. An upload passes only when the
 pattern `/jpeg|jpg|png|gif/` finds a match in its declared MIME type AND in
 the lower-cased extension of its original file name. The pattern has no
 anchors, so "finds a match" means "one of the four words is a substring";
 the MIME type is not lower-cased.
 */
module UploadFilter {
  import opened Strings
  import opened Paths

  /** What the multipart parser reports about an uploaded file. */
  datatype Upload = Upload(originalName: string, mimeType: string)

  /** The alternatives of `/jpeg|jpg|png|gif/`, in the order they are tried. */
  const FileTypes: seq<string> := ["jpeg", "jpg", "png", "gif"]

  /** `/jpeg|jpg|png|gif/.test(s)`. */
  predicate MatchesFileTypes(s: string)
  {
    exists k :: 0 <= k < |FileTypes| && Occurs(FileTypes[k], s)
  }

  /** The pattern matches exactly when one of its four words is a substring. */
  lemma MatchesOneOfTheWords(s: string)
    ensures MatchesFileTypes(s) <==> Occurs("jpeg", s) || Occurs("jpg", s) || Occurs("png", s) || Occurs("gif", s)
  {
    assert FileTypes[0] == "jpeg" && FileTypes[1] == "jpg";
    assert FileTypes[2] == "png" && FileTypes[3] == "gif";
  }

  /** The result of running the pattern over a string. */
  datatype Match = NoMatch | MatchAt(index: nat, alternative: nat)

  /**
   Runs the pattern the way a backtracking engine does: every start position
   from the left, and at each one the alternatives in order. The match found
   is the leftmost one, and at that position the first alternative that fits.
   */
  method Exec(s: string) returns (m: Match)
    ensures m.NoMatch? <==> !MatchesFileTypes(s)
    ensures m.MatchAt? ==> m.alternative < |FileTypes| && OccursAt(FileTypes[m.alternative], s, m.index)
    ensures m.MatchAt? ==> forall i: nat, k :: i < m.index && 0 <= k < |FileTypes| ==> !OccursAt(FileTypes[k], s, i)
    ensures m.MatchAt? ==> forall k :: 0 <= k < m.alternative ==> !OccursAt(FileTypes[k], s, m.index)
  {
    var i: nat := 0;
    while i <= |s|
      invariant i <= |s| + 1
      invariant forall j: nat, k :: j < i && 0 <= k < |FileTypes| ==> !OccursAt(FileTypes[k], s, j)
    {
      var k := 0;
      while k < |FileTypes|
        invariant 0 <= k <= |FileTypes|
        invariant forall k' :: 0 <= k' < k ==> !OccursAt(FileTypes[k'], s, i)
      {
        if OccursAt(FileTypes[k], s, i) {
          assert Occurs(FileTypes[k], s);
          return MatchAt(i, k);
        }
        k := k + 1;
      }
      i := i + 1;
    }
    return NoMatch;
  }

  /** The `fileFilter` decision: `true` is `cb(null, true)`, `false` is `cb(new Error(...))`. */
  predicate FileFilter(u: Upload)
    ensures FileFilter(u) ==> MatchesFileTypes(u.mimeType)
    ensures FileFilter(u) ==> var e := ExtName(u.originalName); |e| >= 4 && e[0] == '.'
  {
    var ext := ExtName(u.originalName);
    var accepted := MatchesFileTypes(u.mimeType) && MatchesFileTypes(LowerAscii(ext));
    if accepted then MatchingExtensionShape(ext); accepted else accepted
  }

  /** Each of the four words holds a 'g' or a 'j', so text with neither never matches. */
  lemma NoMatchWithoutGOrJ(s: string)
    requires 'g' !in s && 'j' !in s
    ensures !MatchesFileTypes(s)
  {
    if MatchesFileTypes(s) {
      var k :| 0 <= k < |FileTypes| && Occurs(FileTypes[k], s);
      if k == 0 || k == 1 {
        OccursHasChars(FileTypes[k], s, 'j');
      } else {
        OccursHasChars(FileTypes[k], s, 'g');
      }
    }
  }

  /** Each word has at least three letters. */
  lemma WordLength(k: nat)
    requires k < |FileTypes|
    ensures |FileTypes[k]| >= 3
  {
    if k == 0 {
      assert FileTypes[0] == "jpeg";
    } else if k == 1 {
      assert FileTypes[1] == "jpg";
    } else if k == 2 {
      assert FileTypes[2] == "png";
    } else {
      assert FileTypes[3] == "gif";
    }
  }

  /** None of the four words holds a '.', so a match never starts on one. */
  lemma MatchAvoidsDot(s: string, k: nat, i: nat)
    requires k < |FileTypes| && OccursAt(FileTypes[k], s, i)
    ensures s[i] != '.'
  {
    assert s[i] == s[i..i + |FileTypes[k]|][0] == FileTypes[k][0];
  }

  /**
   An extension whose lower-cased form matches the pattern is a '.'
   followed by at least the three letters of the shortest word.
   */
  lemma MatchingExtensionShape(e: string)
    requires Paths.IsExtension(e)
    requires MatchesFileTypes(LowerAscii(e))
    ensures |e| >= 4 && e[0] == '.'
  {
    var l := LowerAscii(e);
    var k :| 0 <= k < |FileTypes| && Occurs(FileTypes[k], l);
    var w := FileTypes[k];
    WordLength(k);
    var i: nat :| i + |w| <= |l| && OccursAt(w, l, i);
    MatchAvoidsDot(l, k, i);
    assert |e| == |l| >= 3;
    assert e[0] == '.';
    assert l[0] == LowerChar(e[0]) == '.';
    assert i != 0;
  }

  /** A match of one word at one position is a match of the pattern. */
  lemma WordMatches(k: nat, s: string, i: nat)
    requires k < |FileTypes| && OccursAt(FileTypes[k], s, i)
    ensures MatchesFileTypes(s)
  {
    assert Occurs(FileTypes[k], s);
  }

  /** A file renamed to ".png" but declared as text is refused. */
  lemma SpoofedExtensionRejected()
    ensures !FileFilter(Upload("notes.png", "text/plain"))
  {
    NoMatchWithoutGOrJ("text/plain");
  }

  /** A text file declared as a PNG image is refused on its extension. */
  lemma SpoofedMimeTypeRejected()
    ensures !FileFilter(Upload("notes.txt", "image/png"))
  {
    assert !MatchesFileTypes(LowerAscii(".txt")) by {
      NoMatchWithoutGOrJ(LowerAscii(".txt"));
    }
    assert ExtName("notes.txt") == ".txt" by {
      assert "notes.txt" == "notes" + ".txt";
      ExtNameOfSplit("notes", ".txt");
    }
  }

  /** Only the last extension counts. */
  lemma LastExtensionDecides()
    ensures !FileFilter(Upload("cat.png.exe", "image/png"))
  {
    assert !MatchesFileTypes(LowerAscii(".exe")) by {
      NoMatchWithoutGOrJ(LowerAscii(".exe"));
    }
    assert ExtName("cat.png.exe") == ".exe" by {
      assert "cat.png.exe" == "cat.png" + ".exe";
      ExtNameOfSplit("cat.png", ".exe");
    }
  }

  /** The extension is lower-cased before the test. */
  lemma UpperCaseExtensionAccepted()
    ensures FileFilter(Upload("CAT.PNG", "image/png"))
  {
    assert MatchesFileTypes("image/png") by {
      assert "image/png"[6..9] == "png";
      WordMatches(2, "image/png", 6);
    }
    assert MatchesFileTypes(LowerAscii(".PNG")) by {
      var l := LowerAscii(".PNG");
      assert l[1] == 'p' && l[2] == 'n' && l[3] == 'g';
      assert l[1..4] == "png";
      WordMatches(2, l, 1);
    }
    assert ExtName("CAT.PNG") == ".PNG" by {
      assert "CAT.PNG" == "CAT" + ".PNG";
      ExtNameOfSplit("CAT", ".PNG");
    }
    AcceptedByParts("CAT.PNG", "image/png", ".PNG");
  }

  /** The MIME type is not lower-cased, so an upper-case one is refused. */
  lemma MimeTypeIsCaseSensitive()
    ensures !FileFilter(Upload("cat.png", "IMAGE/PNG"))
  {
    NoMatchWithoutGOrJ("IMAGE/PNG");
  }

  /** The filter passes when the MIME type and the lower-cased extension both match. */
  lemma AcceptedByParts(name: string, mime: string, ext: string)
    requires ExtName(name) == ext
    requires MatchesFileTypes(mime) && MatchesFileTypes(LowerAscii(ext))
    ensures FileFilter(Upload(name, mime))
  {
  }

  /** The pattern is unanchored: an extension that merely contains a word passes. */
  lemma PatternIsUnanchored()
    ensures FileFilter(Upload("a.gifs", "image/gif"))
  {
    assert MatchesFileTypes("image/gif") by {
      assert "image/gif" == "image/" + FileTypes[3] + "";
      OccursInfix("image/", FileTypes[3], "");
      WordMatches(3, "image/gif", 6);
    }
    assert MatchesFileTypes(LowerAscii(".gifs")) by {
      var l := LowerAscii(".gifs");
      assert l[1] == 'g' && l[2] == 'i' && l[3] == 'f';
      assert l[1..4] == "gif";
      WordMatches(3, l, 1);
    }
    assert ExtName("a.gifs") == ".gifs" by {
      assert "a.gifs" == "a" + ".gifs";
      ExtNameOfSplit("a", ".gifs");
    }
    AcceptedByParts("a.gifs", "image/gif", ".gifs");
  }
}
