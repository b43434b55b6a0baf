/** Character and string helpers with the semantics of the `java.lang.String`
    methods the plugin calls (`startsWith`, `endsWith`, `indexOf`, `contains`,
    `toUpperCase`, literal `replaceAll`). */
module Strings {

  predicate StartsWith(s: string, prefix: string) {
    |prefix| <= |s| && s[..|prefix|] == prefix
  }

  predicate EndsWith(s: string, suffix: string) {
    |suffix| <= |s| && s[|s| - |suffix|..] == suffix
  }

  /** `s`, with `suffix` appended unless `s` already ends with it (the
      "add a trailing separator if missing" idiom). */
  function WithTrailing(s: string, suffix: string): (r: string)
    ensures EndsWith(r, suffix)
    ensures r == s || r == s + suffix
    ensures EndsWith(s, suffix) <==> r == s
  {
    if EndsWith(s, suffix) then s
    else
      assert (s + suffix)[|s + suffix| - |suffix|..] == suffix;
      s + suffix
  }

  /** Adding the suffix a second time changes nothing. */
  lemma WithTrailingIdempotent(s: string, suffix: string)
    ensures WithTrailing(WithTrailing(s, suffix), suffix) == WithTrailing(s, suffix)
  {
  }

  /** `sub` occurs in `s` starting at index `i`. */
  predicate OccursAt(s: string, sub: string, i: int) {
    0 <= i && i + |sub| <= |s| && s[i..i + |sub|] == sub
  }

  lemma OccursAtTail(s: string, sub: string, i: int)
    requires |s| > 0 && i >= 0
    ensures OccursAt(s[1..], sub, i) <==> OccursAt(s, sub, i + 1)
  {
    if 0 <= i && i + |sub| <= |s[1..]| {
      assert s[1..][i..i + |sub|] == s[i + 1..i + 1 + |sub|];
    }
  }

  /** `String.contains`: some occurrence of `sub` exists. */
  function Contains(s: string, sub: string): (b: bool)
    ensures b <==> exists i :: OccursAt(s, sub, i)
    decreases |s|
  {
    if |s| < |sub| then
      assert forall i :: !OccursAt(s, sub, i);
      false
    else if s[..|sub|] == sub then
      assert OccursAt(s, sub, 0);
      true
    else
      var b := Contains(s[1..], sub);
      assert b ==> exists i :: OccursAt(s, sub, i) by {
        if b {
          var j :| OccursAt(s[1..], sub, j);
          OccursAtTail(s, sub, j);
        }
      }
      assert (exists i :: OccursAt(s, sub, i)) ==> b by {
        if exists i :: OccursAt(s, sub, i) {
          var i :| OccursAt(s, sub, i);
          assert i != 0;
          OccursAtTail(s, sub, i - 1);
        }
      }
      b
  }

  /** `s.indexOf(c, from)`: the first index at or after `from` (a negative
      `from` counts as 0) holding `c`, or -1 when there is none. */
  function IndexOfFrom(s: string, c: char, from: int): (r: int)
    ensures -1 <= r < |s|
    ensures r == -1 <==> forall i :: 0 <= i < |s| && from <= i ==> s[i] != c
    ensures r >= 0 ==> from <= r && s[r] == c
    ensures r >= 0 ==> forall i :: from <= i < r && 0 <= i ==> s[i] != c
    decreases |s| - from
  {
    if from < 0 then IndexOfFrom(s, c, 0)
    else if from >= |s| then -1
    else if s[from] == c then from
    else IndexOfFrom(s, c, from + 1)
  }

  /** `s.indexOf(c)`. */
  function IndexOf(s: string, c: char): (r: int)
    ensures -1 <= r < |s|
    ensures r == -1 <==> c !in s
    ensures r >= 0 ==> s[r] == c && c !in s[..r]
  {
    var r := IndexOfFrom(s, c, 0);
    assert r == -1 <==> c !in s by {
      if r == -1 {
        assert forall i :: 0 <= i < |s| ==> s[i] != c;
      }
    }
    r
  }

  /** `Character.toUpperCase` restricted to ASCII letters. */
  function UpperChar(c: char): char {
    if 'a' <= c <= 'z' then (c as int - 'a' as int + 'A' as int) as char else c
  }

  /** `s.indexOf(sub, from)`: the first occurrence of `sub` at or after
      `from`, or -1 when there is none. */
  function IndexOfSubFrom(s: string, sub: string, from: nat): (r: int)
    ensures r == -1 || (from <= r && OccursAt(s, sub, r))
    ensures r >= 0 ==> forall i :: from <= i < r ==> !OccursAt(s, sub, i)
    ensures r == -1 ==> forall i :: from <= i ==> !OccursAt(s, sub, i)
    decreases |s| - from
  {
    if from + |sub| > |s| then -1
    else if OccursAt(s, sub, from) then from
    else IndexOfSubFrom(s, sub, from + 1)
  }

  /** `String.toUpperCase`, ASCII letters only. */
  function ToUpper(s: string): (r: string)
    ensures |r| == |s|
    ensures forall i :: 0 <= i < |s| ==> r[i] == UpperChar(s[i])
  {
    seq(|s|, i requires 0 <= i < |s| => UpperChar(s[i]))
  }

  lemma UpperCharIdempotent(c: char)
    ensures UpperChar(UpperChar(c)) == UpperChar(c)
  {
  }

  /** Replaces every occurrence of `from` by `to` (`String.replaceAll` on a
      single literal character). */
  function ReplaceChar(s: string, from: char, to: char): (r: string)
    ensures |r| == |s|
    ensures forall i :: 0 <= i < |s| ==> r[i] == (if s[i] == from then to else s[i])
  {
    seq(|s|, i requires 0 <= i < |s| => if s[i] == from then to else s[i])
  }

  lemma ReplaceCharRemoves(s: string, from: char, to: char)
    requires from != to
    ensures from !in ReplaceChar(s, from, to)
  {
  }

  /** Literal, left-to-right, non-overlapping replacement of every occurrence
      of `pat` by `rep` (what `replaceAll` does on a pattern and replacement
      free of regex metacharacters). */
  function ReplaceAll(s: string, pat: string, rep: string): string
    requires |pat| > 0
    decreases |s|
  {
    if |s| < |pat| then s
    else if s[..|pat|] == pat then rep + ReplaceAll(s[|pat|..], pat, rep)
    else [s[0]] + ReplaceAll(s[1..], pat, rep)
  }

  /** Text without any occurrence of the pattern is left unchanged. */
  lemma {:induction false} ReplaceAllNoOccurrence(s: string, pat: string, rep: string)
    requires |pat| > 0
    requires !Contains(s, pat)
    ensures ReplaceAll(s, pat, rep) == s
    decreases |s|
  {
    if |s| < |pat| {
    } else {
      assert !OccursAt(s, pat, 0);
      assert !Contains(s[1..], pat) by {
        forall i | OccursAt(s[1..], pat, i)
          ensures false
        {
          OccursAtTail(s, pat, i);
        }
      }
      ReplaceAllNoOccurrence(s[1..], pat, rep);
      assert s == [s[0]] + s[1..];
    }
  }

  /** No occurrence of `pat` starts before index `k`. */
  predicate NoOccurrenceBefore(s: string, pat: string, k: int) {
    forall i :: 0 <= i < k ==> !OccursAt(s, pat, i)
  }

  lemma NoOccurrenceBeforeTail(s: string, pat: string, k: int)
    requires |s| > 0 && k >= 1
    requires NoOccurrenceBefore(s, pat, k)
    ensures NoOccurrenceBefore(s[1..], pat, k - 1)
  {
    forall i | 0 <= i < k - 1
      ensures !OccursAt(s[1..], pat, i)
    {
      OccursAtTail(s, pat, i);
    }
  }

  /** A pattern cannot start where its first character does not occur. */
  lemma NoFirstCharNoOccurrence(s: string, pat: string, k: nat)
    requires |pat| > 0 && k <= |s|
    requires pat[0] !in s[..k]
    ensures NoOccurrenceBefore(s, pat, k)
  {
    forall i | 0 <= i < k
      ensures !OccursAt(s, pat, i)
    {
      assert s[..k][i] == s[i];
      if i + |pat| <= |s| {
        assert s[i..i + |pat|][0] == s[i];
      }
    }
  }

  /** An occurrence at the start is replaced and scanning resumes after
      it. */
  lemma ReplaceAllAtStart(s: string, pat: string, rep: string)
    requires |pat| > 0 && OccursAt(s, pat, 0)
    ensures ReplaceAll(s, pat, rep) == rep + ReplaceAll(s[|pat|..], pat, rep)
  {
    assert s[0..0 + |pat|] == s[..|pat|];
  }

  /** Without an occurrence at the start the first character is kept. */
  lemma ReplaceAllSkipsFirst(s: string, pat: string, rep: string)
    requires |pat| > 0 && |s| >= |pat| && !OccursAt(s, pat, 0)
    ensures ReplaceAll(s, pat, rep) == [s[0]] + ReplaceAll(s[1..], pat, rep)
  {
    assert s[0..0 + |pat|] == s[..|pat|];
  }

  /** The inductive step of `ReplaceAllKeepsPrefix`. */
  lemma KeepsPrefixStep(s: string, pat: string, rep: string, k: nat)
    requires |pat| > 0 && 0 < k && k + |pat| <= |s| && !OccursAt(s, pat, 0)
    requires ReplaceAll(s[1..], pat, rep) == s[1..][..k - 1] + ReplaceAll(s[1..][k - 1..], pat, rep)
    ensures ReplaceAll(s, pat, rep) == s[..k] + ReplaceAll(s[k..], pat, rep)
  {
    var t := s[1..];
    assert t[k - 1..] == s[k..];
    ReplaceAllSkipsFirst(s, pat, rep);
    assert [s[0]] + t[..k - 1] == s[..k];
  }

  /** Text before the first occurrence is kept as it is. */
  lemma {:induction false} ReplaceAllKeepsPrefix(s: string, pat: string, rep: string, k: nat)
    requires |pat| > 0 && k + |pat| <= |s|
    requires NoOccurrenceBefore(s, pat, k)
    ensures ReplaceAll(s, pat, rep) == s[..k] + ReplaceAll(s[k..], pat, rep)
    decreases k
  {
    if k == 0 {
      assert s[..0] + s[0..] == s;
    } else {
      assert !OccursAt(s, pat, 0);
      NoOccurrenceBeforeTail(s, pat, k);
      ReplaceAllKeepsPrefix(s[1..], pat, rep, k - 1);
      KeepsPrefixStep(s, pat, rep, k);
    }
  }

  /** The leftmost occurrence at `k` is replaced, the text before it is kept,
      and scanning resumes right after the occurrence. */
  lemma ReplaceAllFirstOccurrence(s: string, pat: string, rep: string, k: nat)
    requires |pat| > 0
    requires OccursAt(s, pat, k)
    requires NoOccurrenceBefore(s, pat, k)
    ensures ReplaceAll(s, pat, rep) == s[..k] + rep + ReplaceAll(s[k + |pat|..], pat, rep)
  {
    ReplaceAllKeepsPrefix(s, pat, rep, k);
    ReplaceAllFromOccurrence(s, pat, rep, k);
    ConcatAssoc(s[..k], rep, ReplaceAll(s[k + |pat|..], pat, rep));
  }

  lemma ReplaceAllFromOccurrence(s: string, pat: string, rep: string, k: nat)
    requires |pat| > 0 && OccursAt(s, pat, k)
    ensures ReplaceAll(s[k..], pat, rep) == rep + ReplaceAll(s[k + |pat|..], pat, rep)
  {
    var rest := s[k..];
    assert rest[0..0 + |pat|] == pat;
    assert rest[|pat|..] == s[k + |pat|..];
    ReplaceAllAtStart(rest, pat, rep);
  }

  lemma ConcatAssoc(a: string, b: string, c: string)
    ensures a + (b + c) == a + b + c
  {
  }

  /** Replacing a pattern by itself is the identity. */
  lemma {:induction false} ReplaceAllSelf(s: string, pat: string)
    requires |pat| > 0
    ensures ReplaceAll(s, pat, pat) == s
    decreases |s|
  {
    if |s| < |pat| {
    } else if s[..|pat|] == pat {
      ReplaceAllSelf(s[|pat|..], pat);
      assert s == s[..|pat|] + s[|pat|..];
    } else {
      ReplaceAllSelf(s[1..], pat);
      assert s == [s[0]] + s[1..];
    }
  }
}
