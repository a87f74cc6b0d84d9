/**
 The glob matcher of lib/util/strutil/matcher.go. Strings are sequences of characters; decoding at an
 end of an empty string gives the error character U+FFFD, as decoding UTF-8 does.
 */
module Matcher {
  const RUNE_ERROR: char := '\U{FFFD}'

  /** The pattern matches the string: '*' stands for any sequence, everything else for itself. */
  ghost predicate Glob(pattern: string, s: string)
    decreases |pattern|
  {
    if pattern == "" then s == ""
    else if pattern[0] == '*' then exists k :: 0 <= k <= |s| && Glob(pattern[1..], s[k..])
    else s != "" && s[0] == pattern[0] && Glob(pattern[1..], s[1..])
  }

  predicate Clean(s: string) {
    forall i :: 0 <= i < |s| ==> s[i] != RUNE_ERROR
  }

  /** A pattern that matches the empty string has only stars, and matches everything unless it is empty. */
  lemma {:induction false} EmptyMatch(pattern: string, s: string)
    requires pattern != "" && Glob(pattern, "")
    ensures Glob(pattern, s)
    decreases |pattern|
  {
    var k :| 0 <= k <= |""| && Glob(pattern[1..], ""[k..]);
    assert ""[k..] == "";
    if pattern[1..] == "" {
      assert Glob("", s[|s|..]);
    } else {
      EmptyMatch(pattern[1..], s);
      assert s[0..] == s;
    }
  }

  /** A star followed by something matches with a suffix that is empty only if the string is. */
  lemma StarMatch(pattern: string, s: string)
    requires pattern != ""
    ensures (exists k :: 0 <= k <= |s| && Glob(pattern, s[k..])) <==>
            (exists k :: 0 <= k <= |s| && (k < |s| || s == "") && Glob(pattern, s[k..]))
  {
    if Glob(pattern, s[|s|..]) && s != "" {
      assert s[|s|..] == "";
      EmptyMatch(pattern, s[|s| - 1..]);
      var k := |s| - 1;
      assert 0 <= k <= |s| && (k < |s| || s == "") && Glob(pattern, s[k..]);
    }
  }

  method DecodeRune(s: string) returns (c: char, size: nat)
    ensures if s == "" then c == RUNE_ERROR && size == 0 else c == s[0] && size == 1
  {
    if s == "" {
      return RUNE_ERROR, 0;
    }
    return s[0], 1;
  }

  method DecodeLastRune(s: string) returns (c: char, size: nat)
    ensures if s == "" then c == RUNE_ERROR && size == 0 else c == s[|s| - 1] && size == 1
  {
    if s == "" {
      return RUNE_ERROR, 0;
    }
    return s[|s| - 1], 1;
  }

  /** Matches decides the glob relation, although '*' never tries the empty suffix of a non-empty string. */
  method Matches(pattern: string, s: string) returns (matches: bool)
    requires Clean(pattern) && Clean(s)
    ensures matches <==> Glob(pattern, s)
    decreases |pattern|, 0
  {
    var matcher, haystack := pattern, s;
    while |matcher| != 0 || |haystack| != 0
      invariant Clean(matcher) && Clean(haystack) && |matcher| <= |pattern|
      invariant Glob(matcher, haystack) <==> Glob(pattern, s)
      decreases |matcher| + |haystack|
    {
      var e, size := DecodeRune(matcher);
      if e == RUNE_ERROR {
        return false;
      }
      matcher := matcher[size..];
      if e == '*' {
        if |matcher| == 0 {
          assert Glob(matcher, haystack[|haystack|..]);
          return true;
        }
        StarMatch(matcher, haystack);
        matches := AnySuffix(matcher, haystack);
        return;
      }
      var c;
      c, size := DecodeRune(haystack);
      if c == RUNE_ERROR {
        return false;
      }
      haystack := haystack[size..];
      if c != e {
        return false;
      }
    }
    return true;
  }

  /** The loop behind a star: suffixes from the shortest that the code tries to the whole string. */
  method AnySuffix(matcher: string, haystack: string) returns (matches: bool)
    requires Clean(matcher) && Clean(haystack) && matcher != ""
    ensures matches <==> exists k :: 0 <= k <= |haystack| && (k < |haystack| || haystack == "") && Glob(matcher, haystack[k..])
    decreases |matcher|, 1
  {
    var n := |haystack|;
    var c, i := DecodeLastRune(haystack);
    while true
      invariant (if n == 0 then i == 0 else 1 <= i <= n)
      invariant forall k :: n - i < k <= n && (k < n || haystack == "") ==> !Glob(matcher, haystack[k..])
      decreases n - i
    {
      var h := haystack[n - i..];
      matches := Matches(matcher, h);
      if matches {
        return;
      }
      var size;
      c, size := DecodeLastRune(haystack[..n - i]);
      if c == RUNE_ERROR {
        return false;
      }
      i := i + size;
    }
  }
}
