/** The two `java.lang.String` comparisons the command handlers rely on:
    `equalsIgnoreCase` (subcommand recognition) and `startsWith` (tab completion).

    Case mapping is given for the ASCII letters and for the four non-ASCII
    characters whose Java case mapping lands on an ASCII letter: U+0130 and
    U+0131 (dotted capital and dotless small I), U+017F (long s) and U+212A
    (Kelvin sign). Every other character maps to itself here; that changes no
    comparison against an all-ASCII word such as a subcommand name. */
module JavaStrings {

  const CapitalIWithDot: char := '\U{0130}'
  const DotlessI: char := '\U{0131}'
  const LongS: char := '\U{017F}'
  const KelvinSign: char := '\U{212A}'

  /** `Character.toUpperCase`, restricted as described above. */
  function ToUpperCase(c: char): char {
    if 'a' <= c <= 'z' then (c as int - 32) as char
    else if c == DotlessI then 'I'
    else if c == LongS then 'S'
    else c
  }

  /** `Character.toLowerCase`, restricted as described above. */
  function ToLowerCase(c: char): char {
    if 'A' <= c <= 'Z' then (c as int + 32) as char
    else if c == CapitalIWithDot then 'i'
    else if c == KelvinSign then 'k'
    else c
  }

  /** The per-character test of `String.regionMatches(true, ...)`: equal, or
      equal after upper-casing, or equal after upper- then lower-casing. */
  predicate CharEqualsIgnoreCase(a: char, b: char) {
    a == b ||
    ToUpperCase(a) == ToUpperCase(b) ||
    ToLowerCase(ToUpperCase(a)) == ToLowerCase(ToUpperCase(b))
  }

  /** `s.equalsIgnoreCase(t)`. */
  predicate EqualsIgnoreCase(s: string, t: string) {
    |s| == |t| && forall i :: 0 <= i < |s| ==> CharEqualsIgnoreCase(s[i], t[i])
  }

  /** `s.startsWith(prefix)`: case-sensitive. */
  predicate StartsWith(s: string, prefix: string) {
    |prefix| <= |s| && s[..|prefix|] == prefix
  }

  /** Exactly which characters match a lower-case ASCII letter of a subcommand
      name: the letter itself, its capital, and the non-ASCII look-alikes Java
      folds onto it. */
  lemma LetterMatches(k: char, c: char)
    requires 'a' <= k <= 'z'
    ensures CharEqualsIgnoreCase(k, c) <==>
      c == k || c == (k as int - 32) as char ||
      (k == 'i' && (c == CapitalIWithDot || c == DotlessI)) ||
      (k == 's' && c == LongS) ||
      (k == 'k' && c == KelvinSign)
  {
  }

  /** A lower-case ASCII word is matched by every mixture of its lower- and
      upper-case letters (e.g. "ADD", "Add" for "add"). */
  lemma {:induction false} MixedCaseMatches(word: string, arg: string)
    requires |arg| == |word|
    requires forall i :: 0 <= i < |word| ==> 'a' <= word[i] <= 'z'
    requires forall i :: 0 <= i < |word| ==> arg[i] == word[i] || arg[i] == ToUpperCase(word[i])
    ensures EqualsIgnoreCase(word, arg)
  {
  }
}
