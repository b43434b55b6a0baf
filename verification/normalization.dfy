/** Whitespace-option normalisation shared by `AbstractExecutableMojo` and
    `Executable`: exec-maven-plugin drops everything after the first
    whitespace of an argument, so `--option value` is rewritten to
    `--option=value` before it is handed over. */
module Normalization {

  /** Java's `\w`: ASCII letters, digits and underscore. */
  predicate IsWordChar(c: char) {
    ('a' <= c <= 'z') || ('A' <= c <= 'Z') || ('0' <= c <= '9') || c == '_'
  }

  /** The character class `[\w-]` of an option name. */
  predicate IsOptionChar(c: char) {
    IsWordChar(c) || c == '-'
  }

  /** Java's `\s`: space, tab, newline, vertical tab, form feed, carriage return. */
  predicate IsSpace(c: char) {
    c == ' ' || c == '\t' || c == '\n' || c == '\U{000B}' || c == '\U{000C}' || c == '\r'
  }

  /** The end of the run of option characters that starts at `i`. */
  function OptionNameEnd(s: string, i: nat): (k: nat)
    requires i <= |s|
    ensures i <= k <= |s|
    ensures forall j :: i <= j < k ==> IsOptionChar(s[j])
    ensures k == |s| || !IsOptionChar(s[k])
    decreases |s| - i
  {
    if i == |s| || !IsOptionChar(s[i]) then i else OptionNameEnd(s, i + 1)
  }

  /** The end of the run of whitespace that starts at `i`. */
  function SpaceRunEnd(s: string, i: nat): (k: nat)
    requires i <= |s|
    ensures i <= k <= |s|
    ensures forall j :: i <= j < k ==> IsSpace(s[j])
    ensures k == |s| || !IsSpace(s[k])
    decreases |s| - i
  {
    if i == |s| || !IsSpace(s[i]) then i else SpaceRunEnd(s, i + 1)
  }

  /** The first whitespace character at or after `i`, or `|s|` if none. */
  function FirstSpace(s: string, i: nat): (k: nat)
    requires i <= |s|
    ensures i <= k <= |s|
    ensures forall j :: i <= j < k ==> !IsSpace(s[j])
    ensures k == |s| || IsSpace(s[k])
    decreases |s| - i
  {
    if i == |s| || IsSpace(s[i]) then i else FirstSpace(s, i + 1)
  }

  /** `s.replaceFirst("\\s+", rep)` with a literal `rep`. */
  function ReplaceFirstSpaceRun(s: string, rep: string): string {
    var k := FirstSpace(s, 0);
    if k == |s| then s else s[..k] + rep + s[SpaceRunEnd(s, k)..]
  }

  /** The regex `^-{1,2}?[\w-]*\s+` finds a match: the argument starts with a
      dash and the first character after the option name is whitespace. */
  predicate WhitespacedOption(s: string) {
    |s| > 0 && s[0] == '-' &&
    var k := OptionNameEnd(s, 1);
    k < |s| && IsSpace(s[k])
  }

  /** One way the regex can match a prefix of `s`: `d` dashes, option
      characters up to `m`, whitespace up to `n`. */
  ghost predicate MatchShape(s: string, d: nat, m: nat, n: nat) {
    1 <= d <= 2 && d <= m < n <= |s|
    && (forall j :: 0 <= j < d ==> s[j] == '-')
    && (forall j :: d <= j < m ==> IsOptionChar(s[j]))
    && (forall j :: m <= j < n ==> IsSpace(s[j]))
  }

  /** The regex semantics stated directly: some decomposition of a prefix fits. */
  ghost predicate RegexFinds(s: string) {
    exists d: nat, m: nat, n: nat :: MatchShape(s, d, m, n)
  }

  /** The executable test agrees with the regex semantics, in both directions. */
  lemma WhitespacedOptionIsRegex(s: string)
    ensures WhitespacedOption(s) <==> RegexFinds(s)
  {
    if WhitespacedOption(s) {
      var k := OptionNameEnd(s, 1);
      assert MatchShape(s, 1, k, k + 1);
    }
    if RegexFinds(s) {
      var d: nat, m: nat, n: nat :| MatchShape(s, d, m, n);
      assert s[0] == '-';
      var k := OptionNameEnd(s, 1);
      assert forall j :: 1 <= j < m ==> IsOptionChar(s[j]);
      assert !IsOptionChar(s[m]);
      assert k == m;
    }
  }

  /** `normalizeArgument(argument, whitespaceReplacement)`. The source always
      substitutes "=", whatever replacement the caller passes. */
  function Normalize(argument: string, whitespaceReplacement: string): (r: string)
    ensures !WhitespacedOption(argument) ==> r == argument
    ensures WhitespacedOption(argument) ==>
      var k := OptionNameEnd(argument, 1);
      var e := SpaceRunEnd(argument, k);
      k < e && r == argument[..k] + "=" + argument[e..]
  {
    if WhitespacedOption(argument) then
      var k := OptionNameEnd(argument, 1);
      assert forall j :: 0 <= j < k ==> !IsSpace(argument[j]);
      assert FirstSpace(argument, 0) == k by {
        var f := FirstSpace(argument, 0);
        assert f == k;
      }
      ReplaceFirstSpaceRun(argument, "=")
    else
      argument
  }

  /** The run of option characters ends at the first index that is not
      one. */
  lemma OptionNameEndAt(s: string, i: nat, k: nat)
    requires i <= k < |s|
    requires forall j :: i <= j < k ==> IsOptionChar(s[j])
    requires !IsOptionChar(s[k])
    ensures OptionNameEnd(s, i) == k
  {
  }

  /** A normalised argument no longer matches the pattern. */
  lemma NormalizedIsNotWhitespaced(argument: string, replacement: string)
    ensures !WhitespacedOption(Normalize(argument, replacement))
  {
    if WhitespacedOption(argument) {
      var k := OptionNameEnd(argument, 1);
      RewrittenIsNotWhitespaced(argument, k, SpaceRunEnd(argument, k));
    }
  }

  /** An option name followed by "=" instead of whitespace does not match. */
  lemma RewrittenIsNotWhitespaced(argument: string, k: nat, e: nat)
    requires 1 <= k <= e <= |argument|
    requires forall j :: 1 <= j < k ==> IsOptionChar(argument[j])
    ensures !WhitespacedOption(argument[..k] + "=" + argument[e..])
  {
    var r := argument[..k] + "=" + argument[e..];
    assert r[k] == '=';
    forall j | 1 <= j < k ensures IsOptionChar(r[j]) {
      assert r[j] == argument[j];
    }
    OptionNameEndAt(r, 1, k);
  }

  /** Normalisation is idempotent. */
  lemma NormalizeIdempotent(argument: string, replacement: string, replacement2: string)
    ensures Normalize(Normalize(argument, replacement), replacement2) == Normalize(argument, replacement)
  {
    NormalizedIsNotWhitespaced(argument, replacement);
  }
}
