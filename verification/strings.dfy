/**
 Character and substring helpers shared by the path functions and the
 upload filter: ASCII lower-casing (the part of `String.prototype.toLowerCase`
 that the filter's words can see), substring occurrence, and the position of
 the last occurrence of a character.
 */
module Strings {

  /** Lower-cases one ASCII capital letter; every other character is kept. */
  function LowerChar(c: char): (r: char)
    ensures 'A' <= c <= 'Z' ==> 'a' <= r <= 'z' && r as int - c as int == 32
    ensures !('A' <= c <= 'Z') ==> r == c
  {
    if 'A' <= c <= 'Z' then (c as int + 32) as char else c
  }

  /** `s.toLowerCase()` restricted to ASCII letters. */
  function LowerAscii(s: string): (r: string)
    ensures |r| == |s|
    ensures forall i :: 0 <= i < |s| ==> r[i] == LowerChar(s[i])
    ensures forall i :: 0 <= i < |r| ==> !('A' <= r[i] <= 'Z')
  {
    seq(|s|, i requires 0 <= i < |s| => LowerChar(s[i]))
  }

  /** Lower-casing twice changes nothing more than lower-casing once. */
  lemma LowerAsciiIdempotent(s: string)
    ensures LowerAscii(LowerAscii(s)) == LowerAscii(s)
  {
  }

  /** `w` is found in `s` starting at index `i`. */
  predicate OccursAt(w: string, s: string, i: nat)
  {
    i + |w| <= |s| && s[i..i + |w|] == w
  }

  /** `w` is a substring of `s` (what an unanchored regular expression finds). */
  predicate Occurs(w: string, s: string)
  {
    exists i: nat :: i + |w| <= |s| && OccursAt(w, s, i)
  }

  /** Every character of an occurring word is a character of the text. */
  lemma OccursHasChars(w: string, s: string, c: char)
    requires Occurs(w, s)
    requires c in w
    ensures c in s
  {
    var i: nat :| i + |w| <= |s| && OccursAt(w, s, i);
    var j :| 0 <= j < |w| && w[j] == c;
    assert s[i + j] == s[i..i + |w|][j] == c;
  }

  /** `w` occurs in `a + w + b` right after `a`. */
  lemma OccursInfix(a: string, w: string, b: string)
    ensures OccursAt(w, a + w + b, |a|)
  {
    assert (a + w + b)[|a|..|a| + |w|] == w;
  }

  /**
   The index just past the last occurrence of `c` in `s`, or 0 when `c`
   does not occur; so `s[AfterLast(s, c)..]` is the part after the last `c`.
   */
  function AfterLast(s: string, c: char): (k: nat)
    ensures k <= |s|
    ensures k > 0 ==> s[k - 1] == c
    ensures forall i :: k <= i < |s| ==> s[i] != c
  {
    if |s| == 0 then 0
    else if s[|s| - 1] == c then |s|
    else AfterLast(s[..|s| - 1], c)
  }

  /** Appending text free of `c` does not move the last `c`. */
  lemma {:induction false} AfterLastAppend(s: string, t: string, c: char)
    requires c !in t
    ensures AfterLast(s + t, c) == AfterLast(s, c)
  {
    if |t| > 0 {
      var t' := t[..|t| - 1];
      assert (s + t)[..|s + t| - 1] == s + t';
      AfterLastAppend(s, t', c);
    } else {
      assert s + t == s;
    }
  }
}
