/** The RGB step of `getMessage`: every `&#` followed by six hexadecimal
    digits becomes the server's hex colour code, `§x` and then each digit
    behind its own `§`.

    The source runs a regex matcher over the formatted message and, for each
    match found, calls `replaceAll` with the matched text on the current
    message. `ExpandRgbCodes` follows that loop; `ExpandRgb` is a single
    left-to-right rewrite, and the two are proved equal. */
module RgbColors {

  datatype Option<T> = None | Some(value: T)

  /** `ChatColor.COLOR_CHAR`, the section sign. */
  const ColorChar: char := '\U{00A7}'

  /** `[0-9a-fA-F]`. */
  predicate IsHexDigit(c: char) {
    '0' <= c <= '9' || 'a' <= c <= 'f' || 'A' <= c <= 'F'
  }

  /** `RGB_PATTERN`, `&#[0-9a-fA-F]{6}`, matches `s` at position `i`. */
  predicate IsRgbAt(s: string, i: nat) {
    i + 8 <= |s| && s[i] == '&' && s[i + 1] == '#' &&
    IsHexDigit(s[i + 2]) && IsHexDigit(s[i + 3]) && IsHexDigit(s[i + 4]) &&
    IsHexDigit(s[i + 5]) && IsHexDigit(s[i + 6]) && IsHexDigit(s[i + 7])
  }

  /** A whole match of `RGB_PATTERN`. */
  predicate IsRgbCode(m: string) {
    |m| == 8 && IsRgbAt(m, 0)
  }

  /** The text that replaces a match `m`: `§x§d1§d2§d3§d4§d5§d6`. */
  function RgbColor(m: string): string
    requires |m| == 8
  {
    [ColorChar, 'x',
     ColorChar, m[2], ColorChar, m[3], ColorChar, m[4],
     ColorChar, m[5], ColorChar, m[6], ColorChar, m[7]]
  }

  /** The reference: one left-to-right pass rewriting each match. */
  function ExpandRgb(s: string): string
    decreases |s|
  {
    if s == [] then []
    else if IsRgbAt(s, 0) then RgbColor(s[..8]) + ExpandRgb(s[8..])
    else [s[0]] + ExpandRgb(s[1..])
  }

  /** `rgbMatcher.find()` with the matcher at position `from`: the first
      match starting there or later. */
  function Find(s: string, from: nat): (r: Option<nat>)
    ensures r.Some? ==> from <= r.value && IsRgbAt(s, r.value)
    ensures r.Some? ==> forall k: nat :: from <= k < r.value ==> !IsRgbAt(s, k)
    ensures r.None? ==> forall k: nat :: from <= k ==> !IsRgbAt(s, k)
    decreases |s| - from
  {
    if |s| < from + 8 then None
    else if IsRgbAt(s, from) then Some(from)
    else Find(s, from + 1)
  }

  /** `s.replaceAll(target, replacement)` for a pattern made only of literal
      characters and a replacement holding neither `$` nor a backslash, as an
      RGB match and its colour code are: every occurrence, left to right,
      without overlaps. */
  function ReplaceAll(s: string, target: string, replacement: string): string
    requires target != []
    decreases |s|
  {
    if s == [] then []
    else if |target| <= |s| && s[..|target|] == target then
      replacement + ReplaceAll(s[|target|..], target, replacement)
    else [s[0]] + ReplaceAll(s[1..], target, replacement)
  }

  /** The `while (rgbMatcher.find())` loop of `getMessage`. */
  method ExpandRgbCodes(message: string) returns (formatted: string)
    ensures formatted == ExpandRgb(message)
  {
    formatted := message;
    PartialExpandNothing(message);
    ghost var seen: set<string> := {};
    var from := 0;
    var found := Find(message, from);
    while found.Some?
      invariant from <= |message|
      invariant found == Find(message, from)
      invariant formatted == PartialExpand(message, seen)
      invariant forall k: nat :: k < from && IsRgbAt(message, k) ==> message[k..k + 8] in seen
      decreases |message| - from
    {
      var start := found.value;
      var rgbMatch := message[start..start + 8];
      LoopStep(message, seen, from, start);
      var rgbColor := RgbColor(rgbMatch);
      formatted := ReplaceAll(formatted, rgbMatch, rgbColor);
      seen := seen + {rgbMatch};
      from := start + 8;
      found := Find(message, from);
    }
    PartialExpandComplete(message, seen);
  }

  // ---------------------------------------------------------------------------
  // The loop's invariant: the message with the matches whose text has been
  // seen rewritten, and every other character kept.

  function PartialExpand(s: string, seen: set<string>): string
    decreases |s|
  {
    if s == [] then []
    else if IsRgbAt(s, 0) && s[..8] in seen then RgbColor(s[..8]) + PartialExpand(s[8..], seen)
    else [s[0]] + PartialExpand(s[1..], seen)
  }

  /** Two matches never overlap: `&` and `#` are not hexadecimal digits. */
  lemma NoOverlap(s: string, i: nat)
    requires IsRgbAt(s, i)
    ensures forall k: nat :: i < k < i + 8 ==> !IsRgbAt(s, k)
  {
  }

  /** `s` is its first character, the next seven, and the rest. */
  lemma SplitAt(s: string)
    requires |s| >= 8
    ensures s[1..] == s[1..8] + s[8..]
    ensures s[..8] == [s[0]] + s[1..8]
  {
  }

  /** A first character and seven more that spell a match make a match. */
  lemma MatchFromParts(s: string, t: string)
    requires IsRgbCode(t) && s != [] && s[0] == t[0]
    requires 7 <= |s[1..]| && s[1..][..7] == t[1..]
    ensures IsRgbAt(s, 0) && s[..8] == t
  {
  }

  /** One iteration of the loop keeps its invariant: the match found at
      `start` is rewritten wherever its text occurs, and every match before
      its end has now been seen, since matches never overlap. */
  lemma LoopStep(message: string, seen: set<string>, from: nat, start: nat)
    requires forall k: nat :: k < from && IsRgbAt(message, k) ==> message[k..k + 8] in seen
    requires Find(message, from) == Some(start)
    ensures start + 8 <= |message| && IsRgbCode(message[start..start + 8])
    ensures var m := message[start..start + 8];
      ReplaceAll(PartialExpand(message, seen), m, RgbColor(m)) == PartialExpand(message, seen + {m})
    ensures forall k: nat :: k < start + 8 && IsRgbAt(message, k) ==>
      message[k..k + 8] in seen + {message[start..start + 8]}
  {
    var m := message[start..start + 8];
    assert IsRgbCode(m);
    ReplaceAllExtends(message, seen, m);
    NoOverlap(message, start);
  }

  /** A colour code holds no `&`. */
  lemma NoAmpersandInColor(m: string)
    requires IsRgbCode(m)
    ensures forall i :: 0 <= i < |RgbColor(m)| ==> RgbColor(m)[i] != '&'
  {
  }

  lemma {:induction false} PartialExpandNothing(s: string)
    ensures PartialExpand(s, {}) == s
    decreases |s|
  {
    if s != [] {
      PartialExpandNothing(s[1..]);
    }
  }

  /** Characters other than `&` are copied. */
  lemma {:induction false} PartialCopies(a: string, b: string, seen: set<string>)
    requires forall i :: 0 <= i < |a| ==> a[i] != '&'
    ensures PartialExpand(a + b, seen) == a + PartialExpand(b, seen)
    decreases |a|
  {
    if a == [] {
      assert a + b == b;
    } else {
      assert (a + b)[1..] == a[1..] + b;
      PartialCopies(a[1..], b, seen);
    }
  }

  /** `replaceAll` of a target beginning with `&` passes over text without `&`. */
  lemma {:induction false} ReplaceAllSkips(a: string, b: string, target: string, replacement: string)
    requires target != [] && target[0] == '&'
    requires forall i :: 0 <= i < |a| ==> a[i] != '&'
    ensures ReplaceAll(a + b, target, replacement) == a + ReplaceAll(b, target, replacement)
    decreases |a|
  {
    if a == [] {
      assert a + b == b;
    } else {
      assert (a + b)[1..] == a[1..] + b;
      assert (a + b)[0] != target[0];
      ReplaceAllSkips(a[1..], b, target, replacement);
    }
  }

  /** A rewritten prefix made of characters that are neither `&` nor `§` was
      already there before the rewrite. */
  lemma {:induction false} PartialPrefix(s: string, seen: set<string>, w: string)
    requires forall i :: 0 <= i < |w| ==> w[i] != '&' && w[i] != ColorChar
    requires |w| <= |PartialExpand(s, seen)| && PartialExpand(s, seen)[..|w|] == w
    ensures |w| <= |s| && s[..|w|] == w
    decreases |w|
  {
    if w != [] {
      var x := PartialExpand(s, seen);
      assert x[0] == w[0];
      assert x == [s[0]] + PartialExpand(s[1..], seen);
      assert PartialExpand(s[1..], seen)[..|w| - 1] == w[1..];
      PartialPrefix(s[1..], seen, w[1..]);
      assert s[..|w|] == [s[0]] + s[1..][..|w| - 1];
    }
  }

  /** One pass of the loop: `replaceAll` with a match text `t` on the
      partially rewritten message rewrites the matches with text `t` too. */
  lemma {:induction false} ReplaceAllExtends(s: string, seen: set<string>, t: string)
    requires IsRgbCode(t)
    ensures ReplaceAll(PartialExpand(s, seen), t, RgbColor(t)) == PartialExpand(s, seen + {t})
    decreases |s|
  {
    if s == [] {
    } else if IsRgbAt(s, 0) && s[..8] in seen {
      ReplaceAllExtends(s[8..], seen, t);
      ExtendsAtSeenMatch(s, seen, t);
    } else if IsRgbAt(s, 0) {
      ReplaceAllExtends(s[8..], seen, t);
      ExtendsAtNewMatch(s, seen, t);
    } else {
      ReplaceAllExtends(s[1..], seen, t);
      ExtendsElsewhere(s, seen, t);
    }
  }

  /** `ReplaceAllExtends` at a match already rewritten. */
  lemma ExtendsAtSeenMatch(s: string, seen: set<string>, t: string)
    requires IsRgbCode(t) && IsRgbAt(s, 0) && s[..8] in seen
    requires ReplaceAll(PartialExpand(s[8..], seen), t, RgbColor(t)) == PartialExpand(s[8..], seen + {t})
    ensures ReplaceAll(PartialExpand(s, seen), t, RgbColor(t)) == PartialExpand(s, seen + {t})
  {
    var r := RgbColor(t);
    NoAmpersandInColor(s[..8]);
    ReplaceAllSkips(RgbColor(s[..8]), PartialExpand(s[8..], seen), t, r);
  }

  /** `ReplaceAllExtends` at a match not rewritten yet: it is rewritten now
      exactly when its text is `t`. */
  lemma ExtendsAtNewMatch(s: string, seen: set<string>, t: string)
    requires IsRgbCode(t) && IsRgbAt(s, 0) && s[..8] !in seen
    requires ReplaceAll(PartialExpand(s[8..], seen), t, RgbColor(t)) == PartialExpand(s[8..], seen + {t})
    ensures ReplaceAll(PartialExpand(s, seen), t, RgbColor(t)) == PartialExpand(s, seen + {t})
  {
    var r := RgbColor(t);
    SplitAt(s);
    PartialCopies(s[1..8], s[8..], seen);
    var x := PartialExpand(s, seen);
    assert x == s[..8] + PartialExpand(s[8..], seen);
    assert x[..8] == s[..8] && x[8..] == PartialExpand(s[8..], seen);
    if s[..8] != t {
      assert x[1..] == s[1..8] + PartialExpand(s[8..], seen);
      ReplaceAllSkips(s[1..8], PartialExpand(s[8..], seen), t, r);
      PartialCopies(s[1..8], s[8..], seen + {t});
    }
  }

  /** `ReplaceAllExtends` where no match starts: the rewrite cannot begin
      with a match either. */
  lemma ExtendsElsewhere(s: string, seen: set<string>, t: string)
    requires IsRgbCode(t) && s != [] && !IsRgbAt(s, 0)
    requires ReplaceAll(PartialExpand(s[1..], seen), t, RgbColor(t)) == PartialExpand(s[1..], seen + {t})
    ensures ReplaceAll(PartialExpand(s, seen), t, RgbColor(t)) == PartialExpand(s, seen + {t})
  {
    var x := PartialExpand(s, seen);
    assert x == [s[0]] + PartialExpand(s[1..], seen);
    if 8 <= |x| && x[..8] == t {
      assert PartialExpand(s[1..], seen)[..7] == t[1..];
      PartialPrefix(s[1..], seen, t[1..]);
      MatchFromParts(s, t);
      assert false;
    }
    assert x[1..] == PartialExpand(s[1..], seen);
  }

  /** Once the text of every match has been seen, the partial rewrite is the
      whole rewrite. */
  lemma {:induction false} PartialExpandComplete(s: string, seen: set<string>)
    requires forall k: nat :: IsRgbAt(s, k) ==> s[k..k + 8] in seen
    ensures PartialExpand(s, seen) == ExpandRgb(s)
    decreases |s|
  {
    if s != [] {
      var n := if IsRgbAt(s, 0) then 8 else 1;
      forall k: nat | IsRgbAt(s[n..], k) ensures s[n..][k..k + 8] in seen {
        assert IsRgbAt(s, k + n);
        assert s[n..][k..k + 8] == s[k + n..k + n + 8];
      }
      assert IsRgbAt(s, 0) ==> s[..8] == s[0..0 + 8];
      PartialExpandComplete(s[n..], seen);
    }
  }

  // ---------------------------------------------------------------------------
  // Properties of the rewrite itself.

  /** A message with no match is returned unchanged. */
  lemma {:induction false} ExpandRgbNoMatch(s: string)
    requires forall k: nat :: !IsRgbAt(s, k)
    ensures ExpandRgb(s) == s
    decreases |s|
  {
    if s != [] {
      forall k: nat ensures !IsRgbAt(s[1..], k) {
        assert !IsRgbAt(s, k + 1);
      }
      ExpandRgbNoMatch(s[1..]);
    }
  }

  /** Text before a `&` is rewritten on its own: no match can run from it
      into the `&`. */
  lemma {:induction false} ExpandRgbAppend(a: string, b: string)
    requires b == [] || b[0] == '&'
    ensures ExpandRgb(a + b) == ExpandRgb(a) + ExpandRgb(b)
    decreases |a|
  {
    if a == [] {
      assert a + b == b;
    } else {
      var s := a + b;
      if |a| >= 8 {
        assert s[..8] == a[..8];
        assert IsRgbAt(s, 0) <==> IsRgbAt(a, 0);
      } else {
        assert !IsRgbAt(a, 0);
        assert !IsRgbAt(s, 0) by {
          if b != [] {
            assert s[|a|] == '&';
          }
        }
      }
      if IsRgbAt(a, 0) {
        assert s[8..] == a[8..] + b;
        ExpandRgbAppend(a[8..], b);
      } else {
        assert s[1..] == a[1..] + b;
        ExpandRgbAppend(a[1..], b);
      }
    }
  }

  /** Each match becomes its colour code, with the digits in their own case,
      and the text around it is rewritten independently. */
  lemma ExpandRgbAroundMatch(a: string, m: string, b: string)
    requires IsRgbCode(m)
    ensures ExpandRgb(a + m + b) == ExpandRgb(a) + RgbColor(m) + ExpandRgb(b)
  {
    assert a + m + b == a + (m + b);
    ExpandRgbAppend(a, m + b);
    assert (m + b)[..8] == m && (m + b)[8..] == b;
    assert IsRgbAt(m + b, 0);
    assert ExpandRgb(m + b) == RgbColor(m) + ExpandRgb(b);
  }

  /** The colour code is `§x` and then `§` before each digit of the match, in
      order and in its original case. */
  lemma RgbColorDigits(m: string)
    requires IsRgbCode(m)
    ensures |RgbColor(m)| == 14 && RgbColor(m)[0] == ColorChar && RgbColor(m)[1] == 'x'
    ensures forall d :: 0 <= d < 6 ==> RgbColor(m)[2 * d + 2] == ColorChar && RgbColor(m)[2 * d + 3] == m[d + 2]
  {
  }

  /** A rewritten prefix made of characters that are neither `&` nor `§` was
      already there before the rewrite. */
  lemma {:induction false} ExpandRgbPrefix(s: string, w: string)
    requires forall i :: 0 <= i < |w| ==> w[i] != '&' && w[i] != ColorChar
    requires |w| <= |ExpandRgb(s)| && ExpandRgb(s)[..|w|] == w
    ensures |w| <= |s| && s[..|w|] == w
    decreases |w|
  {
    if w != [] {
      var x := ExpandRgb(s);
      assert x[0] == w[0];
      assert x == [s[0]] + ExpandRgb(s[1..]);
      assert ExpandRgb(s[1..])[..|w| - 1] == w[1..];
      ExpandRgbPrefix(s[1..], w[1..]);
      assert s[..|w|] == [s[0]] + s[1..][..|w| - 1];
    }
  }

  /** No match is left after the rewrite. */
  lemma {:induction false} ExpandRgbLeavesNoMatch(s: string)
    ensures forall k: nat :: !IsRgbAt(ExpandRgb(s), k)
    decreases |s|
  {
    if s != [] {
      var x := ExpandRgb(s);
      if IsRgbAt(s, 0) {
        var c := RgbColor(s[..8]);
        var rest := ExpandRgb(s[8..]);
        ExpandRgbLeavesNoMatch(s[8..]);
        assert x == c + rest;
        forall k: nat ensures !IsRgbAt(x, k) {
          if k < 14 {
            assert x[k] == c[k];
          } else {
            assert !IsRgbAt(rest, k - 14);
          }
        }
      } else {
        var rest := ExpandRgb(s[1..]);
        ExpandRgbLeavesNoMatch(s[1..]);
        assert x == [s[0]] + rest;
        forall k: nat ensures !IsRgbAt(x, k) {
          if k == 0 {
            if IsRgbAt(x, 0) {
              assert rest[..7] == x[1..8];
              ExpandRgbPrefix(s[1..], x[1..8]);
              MatchFromParts(s, x[..8]);
              assert false;
            }
          } else {
            assert !IsRgbAt(rest, k - 1);
          }
        }
      }
    }
  }

  /** Rewriting twice is rewriting once. */
  lemma ExpandRgbIdempotent(s: string)
    ensures ExpandRgb(ExpandRgb(s)) == ExpandRgb(s)
  {
    ExpandRgbLeavesNoMatch(s);
    ExpandRgbNoMatch(ExpandRgb(s));
  }
}
