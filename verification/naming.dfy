/**
 The names the service gives to files and URLs. An accepted upload is stored
 as the decimal millisecond timestamp followed by the original name's
 extension (server.js:27-29); a result is written to
 `./uploads/processed_<timestamp>.png` (server.js:59); and the public URL of
 a result is `/uploads/` followed by the result's base name (server.js:76).
 The two timestamps come from two separate readings of the clock and are
 parameters here.
 */
module Naming {
  import opened Strings
  import opened Decimal
  import opened Paths

  /** The directory results are written to, as the write path spells it. */
  const UploadDir: string := "./uploads/"
  /** The URL prefix under which the storage directory is served. */
  const UrlPrefix: string := "/uploads/"
  const ResultPrefix: string := "processed_"
  const ResultSuffix: string := ".png"

  /** Decimal text holds neither '/' nor '.'. */
  lemma DigitsHaveNoSeparators(d: string)
    requires AllDigits(d)
    ensures '/' !in d && '.' !in d
  {
    forall i | 0 <= i < |d| ensures d[i] != '/' && d[i] != '.' {
      assert IsDigit(d[i]);
    }
  }

  /**
   The stored name of an accepted upload. Its leading number reads back as
   the timestamp, and `extname` of it is `extname` of the original name, so
   the stored file keeps the extension the filter approved.
   */
  function InputName(now: nat, originalName: string): (r: string)
    ensures r != [] && IsDigit(r[0])
    ensures LeadingNumber(r) == now
    ensures ExtName(r) == ExtName(originalName)
    ensures '/' !in r
  {
    var digits := NatToDecimal(now);
    var ext := ExtName(originalName);
    DigitsHaveNoSeparators(digits);
    ExtNameOfSplit(digits, ext);
    LeadingNumberOfDecimal(now, ext);
    digits + ext
  }

  /** Two uploads get the same stored name exactly when both timestamp and extension agree. */
  lemma InputNameInjective(a: nat, nameA: string, b: nat, nameB: string)
    ensures InputName(a, nameA) == InputName(b, nameB) <==> a == b && ExtName(nameA) == ExtName(nameB)
  {
  }

  /** The base name of a result: `processed_<now>.png`. */
  function ResultName(now: nat): (r: string)
    ensures r != [] && r[0] == 'p'
    ensures '/' !in r
    ensures |r| > |ResultPrefix| && LeadingNumber(r[|ResultPrefix|..]) == now
  {
    var digits := NatToDecimal(now);
    var r := ResultPrefix + digits + ResultSuffix;
    assert r[|ResultPrefix|..] == digits + ResultSuffix;
    LeadingNumberOfDecimal(now, ResultSuffix);
    DigitsHaveNoSeparators(digits);
    r
  }

  /** Every result is a PNG by name: `extname` of it is ".png". */
  lemma ResultNameExtension(now: nat)
    ensures ExtName(ResultName(now)) == ResultSuffix
  {
    var digits := NatToDecimal(now);
    DigitsHaveNoSeparators(digits);
    ExtNameOfSplit(ResultPrefix + digits, ResultSuffix);
  }

  /** Results written in different milliseconds have different names, and only those. */
  lemma ResultNameInjective(a: nat, b: nat)
    ensures ResultName(a) == ResultName(b) <==> a == b
  {
  }

  /** A stored upload never has a result's name: one starts with a digit, the other with 'p'. */
  lemma InputAndResultNamesDiffer(a: nat, originalName: string, b: nat)
    ensures InputName(a, originalName) != ResultName(b)
  {
  }

  /** `f` has the shape of a stored upload's name: its leading number followed by its own extension. */
  predicate IsInputName(f: string)
  {
    f == InputName(LeadingNumber(f), f)
  }

  /** `f` has the shape of a result's name: `processed_`, a canonical number, `.png`. */
  predicate IsResultName(f: string)
  {
    |f| > |ResultPrefix| && f == ResultName(LeadingNumber(f[|ResultPrefix|..]))
  }

  /** Every stored upload's name is recognised as one. */
  lemma InputNameRecognized(now: nat, originalName: string)
    ensures IsInputName(InputName(now, originalName))
  {
  }

  /** Every result's name is recognised as one. */
  lemma ResultNameRecognized(now: nat)
    ensures IsResultName(ResultName(now))
  {
  }

  /** `'./uploads/processed_' + Date.now() + '.png'`. */
  function ResultPath(now: nat): (path: string)
    ensures |path| > |UploadDir| && path[..|UploadDir|] == UploadDir
    ensures Basename(path) == ResultName(now)
  {
    BasenameOfJoin(UploadDir, ResultName(now));
    UploadDir + ResultName(now)
  }

  /** `'/uploads/' + path.basename(outputPath)`. */
  function ImageUrl(outputPath: string): (url: string)
    ensures |url| >= |UrlPrefix| && url[..|UrlPrefix|] == UrlPrefix
  {
    UrlPrefix + Basename(outputPath)
  }

  /** The URL handed back for a result names exactly the result's stored file. */
  lemma ImageUrlOfResult(now: nat)
    ensures ImageUrl(ResultPath(now)) == UrlPrefix + ResultName(now)
  {
    BasenameOfJoin(UploadDir, ResultName(now));
  }
}
