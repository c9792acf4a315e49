/** app/utils/validate.py: the slug format of names and screen codes. */
module Slug {
  predicate IsAlnum(c: char) {
    'a' <= c <= 'z' || 'A' <= c <= 'Z' || '0' <= c <= '9'
  }

  predicate IsWord(s: string) {
    s != "" && forall i :: 0 <= i < |s| ==> IsAlnum(s[i])
  }

  function JoinHyphen(words: seq<string>): string
    requires words != []
  {
    if |words| == 1 then words[0] else words[0] + "-" + JoinHyphen(words[1..])
  }

  /** The language of the pattern: one or more alphanumeric words joined by single hyphens. */
  ghost predicate MatchesPattern(s: string) {
    exists words: seq<string> :: words != [] && (forall w :: w in words ==> IsWord(w)) && s == JoinHyphen(words)
  }

  /** The same, looking only at neighbouring characters. */
  predicate IsSlug(s: string) {
    && s != "" && s[0] != '-' && s[|s| - 1] != '-'
    && (forall i :: 0 <= i < |s| ==> IsAlnum(s[i]) || s[i] == '-')
    && (forall i :: 0 <= i < |s| - 1 ==> s[i] != '-' || s[i + 1] != '-')
  }

  lemma {:induction false} JoinedWordsAreSlug(words: seq<string>)
    requires words != [] && forall w :: w in words ==> IsWord(w)
    ensures IsSlug(JoinHyphen(words))
  {
    var w := words[0];
    assert w in words;
    if |words| > 1 {
      var rest := JoinHyphen(words[1..]);
      JoinedWordsAreSlug(words[1..]);
      var s := w + "-" + rest;
      assert s[|w| + 1..] == rest;
      assert forall i :: |w| < i < |s| ==> s[i] == rest[i - |w| - 1];
    }
  }

  /** The first word of a slug and what follows its hyphen. */
  lemma {:induction false} SlugSplits(s: string, n: nat) returns (words: seq<string>)
    requires IsSlug(s) && n <= |s| && forall i :: 0 <= i < n ==> IsAlnum(s[i])
    ensures words != [] && (forall w :: w in words ==> IsWord(w)) && s == JoinHyphen(words)
    decreases |s|, |s| - n
  {
    if n == |s| {
      words := [s];
    } else if s[n] != '-' {
      words := SlugSplits(s, n + 1);
    } else {
      var rest := s[n + 1..];
      assert IsSlug(rest) by {
        assert forall i :: 0 <= i < |rest| ==> rest[i] == s[n + 1 + i];
      }
      var tail := SlugSplits(rest, 0);
      words := [s[..n]] + tail;
      assert words[1..] == tail;
      assert s == s[..n] + "-" + rest;
    }
  }

  /** The pattern and the neighbour test accept the same strings. */
  lemma SlugIsThePattern(s: string)
    ensures IsSlug(s) <==> MatchesPattern(s)
  {
    if IsSlug(s) {
      var words := SlugSplits(s, 0);
    }
    if MatchesPattern(s) {
      var words: seq<string> :| words != [] && (forall w :: w in words ==> IsWord(w)) && s == JoinHyphen(words);
      JoinedWordsAreSlug(words);
    }
  }

  /** The allowed characters, one by one and between words. */
  lemma SlugCharacters(c: char)
    ensures IsSlug([c]) <==> 'a' <= c <= 'z' || 'A' <= c <= 'Z' || '0' <= c <= '9'
    ensures IsSlug("a" + [c] + "b") <==> 'a' <= c <= 'z' || 'A' <= c <= 'Z' || '0' <= c <= '9' || c == '-'
  {
    var s := "a" + [c] + "b";
    assert s[0] == 'a' && s[1] == c && s[2] == 'b';
  }
}
