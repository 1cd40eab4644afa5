/**
 * The parts of Python's `str` API that the advisor's parsers rely on, over
 * `seq<char>`: whitespace, `strip()`, `split()` without a separator,
 * `lower()` and `upper()`, `replace(",", " ")`, the `in` substring test,
 * `startswith`, and runs of decimal digits.
 *
 * Whitespace is exactly the set Python's `str.isspace()` accepts (which is also
 * what `strip()`, `split()` and the regular-expression class `\s` use). Case
 * mapping covers the ASCII letters only and digits are the ASCII digits only.
 */
module Text {

  /**
   * The characters Python's `str.isspace()` accepts: tab to carriage return,
   * the four ASCII separators U+001C..U+001F, space, U+0085, U+00A0, U+1680,
   * U+2000..U+200A, U+2028, U+2029, U+202F, U+205F and U+3000.
   */
  predicate IsSpace(c: char)
  {
    || '\t' <= c <= '\r'
    || '\U{1C}' <= c <= ' '
    || c == '\U{85}' || c == '\U{A0}' || c == '\U{1680}'
    || '\U{2000}' <= c <= '\U{200A}'
    || c == '\U{2028}' || c == '\U{2029}' || c == '\U{202F}' || c == '\U{205F}' || c == '\U{3000}'
  }

  predicate AllSpace(s: string)
  {
    forall i :: 0 <= i < |s| ==> IsSpace(s[i])
  }

  predicate IsDigit(c: char)
  {
    '0' <= c <= '9'
  }

  predicate AllDigits(s: string)
  {
    forall i :: 0 <= i < |s| ==> IsDigit(s[i])
  }

  /** A word as `split()` produces it: non-empty and free of whitespace. */
  predicate IsToken(w: string)
  {
    |w| > 0 && forall i :: 0 <= i < |w| ==> !IsSpace(w[i])
  }

  function LowerChar(c: char): char
  {
    if 'A' <= c <= 'Z' then (c as int + 32) as char else c
  }

  function UpperChar(c: char): char
  {
    if 'a' <= c <= 'z' then (c as int - 32) as char else c
  }

  /**
   * `s.lower()`: the same length, no upper-case ASCII letter left, and every
   * character either kept or an upper-case letter moved to its lower-case one.
   */
  function Lower(s: string): (r: string)
    ensures |r| == |s|
    ensures forall i {:trigger r[i]} :: 0 <= i < |s| ==> !('A' <= r[i] <= 'Z')
    ensures forall i {:trigger r[i]} :: 0 <= i < |s| ==> r[i] == s[i] || ('A' <= s[i] <= 'Z' && r[i] as int == s[i] as int + 32)
  {
    seq(|s|, i requires 0 <= i < |s| => LowerChar(s[i]))
  }

  /** Lower-casing twice is lower-casing once. */
  lemma LowerIdempotent(s: string)
    ensures Lower(Lower(s)) == Lower(s)
  {
  }

  /**
   * `s.upper()`: the same length, no lower-case ASCII letter left, and every
   * character either kept or a lower-case letter moved to its upper-case one.
   */
  function Upper(s: string): (r: string)
    ensures |r| == |s|
    ensures forall i {:trigger r[i]} :: 0 <= i < |s| ==> !('a' <= r[i] <= 'z')
    ensures forall i {:trigger r[i]} :: 0 <= i < |s| ==> r[i] == s[i] || ('a' <= s[i] <= 'z' && r[i] as int == s[i] as int - 32)
  {
    seq(|s|, i requires 0 <= i < |s| => UpperChar(s[i]))
  }

  /** Upper-casing ignores an earlier lower-casing: `s.lower().upper() == s.upper()`. */
  lemma UpperOfLower(s: string)
    ensures Upper(Lower(s)) == Upper(s)
  {
  }

  /**
   * `s.replace(",", " ")`: the same length, no comma left, every comma now a
   * space and every other character kept.
   */
  function ReplaceCommas(s: string): (r: string)
    ensures |r| == |s| && ',' !in r
    ensures forall i {:trigger r[i]} :: 0 <= i < |s| && s[i] == ',' ==> r[i] == ' '
    ensures forall i {:trigger r[i]} :: 0 <= i < |s| && s[i] != ',' ==> r[i] == s[i]
  {
    seq(|s|, i requires 0 <= i < |s| => if s[i] == ',' then ' ' else s[i])
  }

  /** Text without a comma is left alone. */
  lemma ReplaceCommasNoComma(s: string)
    requires ',' !in s
    ensures ReplaceCommas(s) == s
  {
  }

  // ---------------------------------------------------------------------------
  // strip()
  // ---------------------------------------------------------------------------

  /** The index just past the last non-whitespace character before `e` (0 when there is none). */
  function TrailingSpaceStart(s: string, e: nat): (j: nat)
    requires e <= |s|
    ensures j <= e
    ensures forall k :: j <= k < e ==> IsSpace(s[k])
    ensures j == 0 || !IsSpace(s[j - 1])
    decreases e
  {
    if e > 0 && IsSpace(s[e - 1]) then TrailingSpaceStart(s, e - 1) else e
  }

  /**
   * `s.strip()`: the slice of `s` that starts after the leading whitespace,
   * leaves only whitespace behind it, and neither starts nor ends with whitespace.
   */
  function Strip(s: string): (r: string)
    ensures SpaceRunEnd(s, 0) + |r| <= |s|
    ensures r == s[SpaceRunEnd(s, 0)..SpaceRunEnd(s, 0) + |r|]
    ensures forall k :: SpaceRunEnd(s, 0) + |r| <= k < |s| ==> IsSpace(s[k])
    ensures r == [] || (!IsSpace(r[0]) && !IsSpace(r[|r| - 1]))
  {
    var a := SpaceRunEnd(s, 0);
    var e := TrailingSpaceStart(s, |s|);
    if e <= a then [] else s[a..e]
  }

  /**
   * Stripping yields exactly the slice `s[a..e]` when everything outside it is
   * whitespace and the slice neither starts nor ends with whitespace.
   */
  lemma StripBetween(s: string, a: nat, e: nat)
    requires a <= e <= |s|
    requires forall k :: 0 <= k < a ==> IsSpace(s[k])
    requires forall k :: e <= k < |s| ==> IsSpace(s[k])
    requires a == e || (!IsSpace(s[a]) && !IsSpace(s[e - 1]))
    ensures Strip(s) == s[a..e]
  {
    var b := SpaceRunEnd(s, 0);
    var f := TrailingSpaceStart(s, |s|);
    if a < e {
      assert b == a;
      assert f == e;
    } else {
      assert f <= b;
    }
  }

  /** `s` split around its stripped part. */
  lemma StripParts(s: string) returns (pre: string, post: string)
    ensures s == pre + Strip(s) + post
    ensures AllSpace(pre) && AllSpace(post)
  {
    var a := SpaceRunEnd(s, 0);
    var m := Strip(s);
    pre, post := s[..a], s[a + |m|..];
    assert s[a..a + |m|] == m;
    assert s == s[..a] + s[a..a + |m|] + s[a + |m|..];
  }

  /** Extra whitespace around the input does not change what `strip()` returns. */
  lemma StripPadding(w1: string, s: string, w2: string)
    requires AllSpace(w1) && AllSpace(w2)
    ensures Strip(w1 + s + w2) == Strip(s)
  {
    var x := w1 + s + w2;
    var m := Strip(s);
    var a := |w1| + SpaceRunEnd(s, 0);
    var e := a + |m|;
    PaddedParts(w1, s, w2);
    assert x[a..e] == s[a - |w1|..e - |w1|] == m;
    if a < e {
      assert x[a] == m[0] && x[e - 1] == m[|m| - 1];
    }
    StripBetween(x, a, e);
  }

  /** Where the padding and the padded string sit inside `w1 + s + w2`. */
  lemma PaddedParts(w1: string, s: string, w2: string)
    requires AllSpace(w1) && AllSpace(w2)
    ensures var x := w1 + s + w2; var a := |w1| + SpaceRunEnd(s, 0);
      && x[|w1|..|w1| + |s|] == s
      && (forall k :: 0 <= k < a ==> IsSpace(x[k]))
      && (forall k :: a + |Strip(s)| <= k < |x| ==> IsSpace(x[k]))
  {
    var x := w1 + s + w2;
    assert forall k :: 0 <= k < |w1| ==> x[k] == w1[k];
    assert forall k :: 0 <= k < |s| ==> x[|w1| + k] == s[k];
    assert forall k :: 0 <= k < |w2| ==> x[|w1| + |s| + k] == w2[k];
  }

  /** `strip()` yields the empty string exactly on whitespace-only input. */
  lemma StripEmpty(s: string)
    ensures Strip(s) == [] <==> AllSpace(s)
  {
    if AllSpace(s) {
      StripBetween(s, 0, 0);
    }
  }

  /** Case mapping leaves whitespace alone and never produces it. */
  lemma LowerCharSpace(c: char)
    ensures IsSpace(LowerChar(c)) <==> IsSpace(c)
  {
  }

  /**
   * Two strings of the same length with whitespace at the same places strip
   * to the same index range.
   */
  lemma StripSameSpaces(s: string, l: string)
    requires |l| == |s|
    requires forall k :: 0 <= k < |s| ==> (IsSpace(l[k]) <==> IsSpace(s[k]))
    ensures Strip(l) == l[SpaceRunEnd(s, 0)..SpaceRunEnd(s, 0) + |Strip(s)|]
  {
    var m := Strip(s);
    var a := SpaceRunEnd(s, 0);
    var e := a + |m|;
    if a < e {
      assert s[a] == m[0] && s[e - 1] == m[|m| - 1];
    }
    StripBetween(l, a, e);
  }

  /** Lower-casing and stripping commute: case mapping never touches whitespace. */
  lemma LowerStrip(s: string)
    ensures Lower(Strip(s)) == Strip(Lower(s))
  {
    LowerSameSpaces(s);
    StripSameSpaces(s, Lower(s));
  }

  /** Lower-casing keeps every whitespace character and adds none. */
  lemma LowerSameSpaces(s: string)
    ensures forall k :: 0 <= k < |s| ==> (IsSpace(Lower(s)[k]) <==> IsSpace(s[k]))
  {
    forall k | 0 <= k < |s|
      ensures IsSpace(Lower(s)[k]) <==> IsSpace(s[k])
    {
      LowerCharSpace(s[k]);
    }
  }

  // ---------------------------------------------------------------------------
  // split()
  // ---------------------------------------------------------------------------

  /** Length of the run of non-whitespace characters at the start of `s`. */
  function TokenLength(s: string): (n: nat)
    ensures n <= |s|
    ensures forall i :: 0 <= i < n ==> !IsSpace(s[i])
    ensures n == |s| || IsSpace(s[n])
    decreases |s|
  {
    if |s| == 0 || IsSpace(s[0]) then 0 else 1 + TokenLength(s[1..])
  }

  /**
   * `s.split()` with no separator: the maximal runs of non-whitespace
   * characters of `s`, in order; leading and trailing whitespace yield nothing.
   */
  function Split(s: string): (r: seq<string>)
    ensures forall k :: 0 <= k < |r| ==> IsToken(r[k])
    decreases |s|
  {
    if |s| == 0 then []
    else if IsSpace(s[0]) then Split(s[1..])
    else
      var n := TokenLength(s);
      [s[..n]] + Split(s[n..])
  }

  /** A word followed by whitespace (or by nothing) is split off as one token. */
  lemma SplitToken(w: string, rest: string)
    requires IsToken(w)
    requires rest == [] || IsSpace(rest[0])
    ensures Split(w + rest) == [w] + Split(rest)
  {
    var s := w + rest;
    var n := TokenLength(s);
    assert forall k :: 0 <= k < |w| ==> s[k] == w[k];
    assert |rest| > 0 ==> s[|w|] == rest[0];
    assert s[0] == w[0];
    assert s[..n] == w;
    assert s[n..] == rest;
  }

  lemma {:induction false} SplitLeadingSpace(w: string, s: string)
    requires AllSpace(w)
    ensures Split(w + s) == Split(s)
    decreases |w|
  {
    if w == [] {
      assert w + s == s;
    } else {
      assert (w + s)[0] == w[0];
      assert (w + s)[1..] == w[1..] + s;
      SplitLeadingSpace(w[1..], s);
    }
  }

  lemma {:induction false} SplitTrailingSpace(s: string, w: string)
    requires AllSpace(w)
    ensures Split(s + w) == Split(s)
    decreases |s|
  {
    var x := s + w;
    if s == [] {
      assert x == w + [];
      SplitLeadingSpace(w, []);
    } else if IsSpace(s[0]) {
      assert x[0] == s[0];
      assert x[1..] == s[1..] + w;
      SplitTrailingSpace(s[1..], w);
    } else {
      var n := TokenLength(s);
      var m := TokenLength(x);
      assert forall k :: 0 <= k < |s| ==> x[k] == s[k];
      assert |w| > 0 ==> x[|s|] == w[0];
      assert m == n;
      assert x[..n] == s[..n];
      assert x[n..] == s[n..] + w;
      SplitTrailingSpace(s[n..], w);
    }
  }

  /** Splitting the stripped text gives the same words as splitting the text. */
  lemma SplitStrip(s: string)
    ensures Split(Strip(s)) == Split(s)
  {
    var pre, post := StripParts(s);
    var m := Strip(s);
    assert s == pre + (m + post);
    SplitLeadingSpace(pre, m + post);
    SplitTrailingSpace(m, post);
  }

  /** `split()` yields no words exactly on whitespace-only input. */
  lemma {:induction false} SplitEmpty(s: string)
    ensures Split(s) == [] <==> AllSpace(s)
    decreases |s|
  {
    if s == [] {
    } else if IsSpace(s[0]) {
      SplitEmpty(s[1..]);
      assert AllSpace(s[1..]) ==> AllSpace(s) by {
        if AllSpace(s[1..]) {
          forall i | 0 <= i < |s|
            ensures IsSpace(s[i])
          {
            if i > 0 {
              assert s[i] == s[1..][i - 1];
            }
          }
        }
      }
    }
  }

  /** `" ".join(words)` */
  function JoinSpaced(words: seq<string>): string
  {
    if |words| == 0 then []
    else if |words| == 1 then words[0]
    else words[0] + " " + JoinSpaced(words[1..])
  }

  /** Splitting words joined with single spaces gives the words back. */
  lemma {:induction false} SplitJoinSpaced(words: seq<string>)
    requires forall k :: 0 <= k < |words| ==> IsToken(words[k])
    ensures Split(JoinSpaced(words)) == words
    decreases |words|
  {
    if |words| == 0 {
    } else if |words| == 1 {
      assert words[0] + [] == words[0];
      SplitToken(words[0], []);
    } else {
      var rest := JoinSpaced(words[1..]);
      assert words[0] + " " + rest == words[0] + (" " + rest);
      SplitToken(words[0], " " + rest);
      assert (" " + rest)[1..] == rest;
      SplitJoinSpaced(words[1..]);
    }
  }

  /** The joined text starts with the first word's first character and ends with the last word's last one. */
  lemma {:induction false} JoinSpacedEnds(words: seq<string>)
    requires |words| > 0
    requires forall k :: 0 <= k < |words| ==> IsToken(words[k])
    ensures var j, last := JoinSpaced(words), words[|words| - 1];
      IsToken(words[0]) && IsToken(last) && |j| > 0 && j[0] == words[0][0] && j[|j| - 1] == last[|last| - 1]
    decreases |words|
  {
    if |words| > 1 {
      JoinSpacedEnds(words[1..]);
    }
  }

  /** Words joined with single spaces have nothing to strip. */
  lemma StripJoinSpaced(words: seq<string>)
    requires forall k :: 0 <= k < |words| ==> IsToken(words[k])
    ensures Strip(JoinSpaced(words)) == JoinSpaced(words)
  {
    var j := JoinSpaced(words);
    if |words| > 0 {
      JoinSpacedEnds(words);
      assert !IsSpace(words[0][0]);
      assert !IsSpace(words[|words| - 1][|words[|words| - 1]| - 1]);
    }
    StripBetween(j, 0, |j|);
    assert j[0..|j|] == j;
  }

  /** Lower-casing works character by character, so it distributes over concatenation. */
  lemma LowerAppend(a: string, b: string)
    ensures Lower(a + b) == Lower(a) + Lower(b)
  {
  }

  /** Words that are already lower case stay so when joined with single spaces. */
  lemma {:induction false} LowerJoinSpaced(words: seq<string>)
    requires forall k :: 0 <= k < |words| ==> Lower(words[k]) == words[k]
    ensures Lower(JoinSpaced(words)) == JoinSpaced(words)
    decreases |words|
  {
    if |words| > 1 {
      LowerJoinSpaced(words[1..]);
      LowerAppend(words[0], " ");
      LowerAppend(words[0] + " ", JoinSpaced(words[1..]));
    }
  }

  // ---------------------------------------------------------------------------
  // substring tests
  // ---------------------------------------------------------------------------

  /** `p` occurs in `t` starting at index `i`. */
  predicate OccursAt(t: string, p: string, i: nat)
  {
    i + |p| <= |t| && t[i..i + |p|] == p
  }

  /** A string occurs where it is spliced in. */
  lemma OccursBetween(pre: string, p: string, post: string)
    ensures OccursAt(pre + p + post, p, |pre|)
  {
    assert (pre + p + post)[|pre|..|pre| + |p|] == p;
  }

  /** `t.startswith(p)` */
  predicate StartsWith(t: string, p: string)
  {
    OccursAt(t, p, 0)
  }

  /** `p` occurs in `t` at index `i` or later. */
  function ContainsFrom(t: string, p: string, i: nat): bool
    requires i <= |t|
    decreases |t| - i
  {
    OccursAt(t, p, i) || (i < |t| && ContainsFrom(t, p, i + 1))
  }

  /** Python's `p in t` on two strings. */
  predicate Contains(t: string, p: string)
  {
    ContainsFrom(t, p, 0)
  }

  /** The scan finds `p` exactly when `p` occurs at some index at or after the start. */
  lemma {:induction false} ContainsFromIff(t: string, p: string, i: nat)
    requires i <= |t|
    ensures ContainsFrom(t, p, i) <==> exists j: nat :: i <= j && OccursAt(t, p, j)
    decreases |t| - i
  {
    if i < |t| {
      ContainsFromIff(t, p, i + 1);
      if exists j: nat :: i <= j && OccursAt(t, p, j) {
        var j: nat :| i <= j && OccursAt(t, p, j);
        if j > i {
          assert i + 1 <= j;
        }
      }
    } else {
      if exists j: nat :: i <= j && OccursAt(t, p, j) {
        var j: nat :| i <= j && OccursAt(t, p, j);
        assert j == i;
      }
    }
  }

  /** `p in t` exactly when `p` occurs somewhere in `t`. */
  lemma ContainsIff(t: string, p: string)
    ensures Contains(t, p) <==> exists j: nat :: OccursAt(t, p, j)
  {
    ContainsFromIff(t, p, 0);
  }

  /** A text that contains `p` contains every substring of `p`. */
  lemma ContainsTransitive(t: string, p: string, q: string)
    requires Contains(t, p) && Contains(p, q)
    ensures Contains(t, q)
  {
    ContainsIff(t, p);
    ContainsIff(p, q);
    var i: nat :| OccursAt(t, p, i);
    var j: nat :| OccursAt(p, q, j);
    assert forall k :: 0 <= k < |q| ==> t[i + j + k] == t[i..i + |p|][j + k] == q[k];
    assert t[i + j..i + j + |q|] == q;
    assert OccursAt(t, q, i + j);
    ContainsIff(t, q);
  }

  // ---------------------------------------------------------------------------
  // digits and whitespace runs
  // ---------------------------------------------------------------------------

  /** The end of the maximal run of digits that starts at `i` (`i` itself when `t[i]` is no digit). */
  function DigitRunEnd(t: string, i: nat): (j: nat)
    requires i <= |t|
    ensures i <= j <= |t|
    ensures forall k :: i <= k < j ==> IsDigit(t[k])
    ensures j == |t| || !IsDigit(t[j])
    decreases |t| - i
  {
    if i < |t| && IsDigit(t[i]) then DigitRunEnd(t, i + 1) else i
  }

  /** The end of the maximal run of whitespace that starts at `i`. */
  function SpaceRunEnd(t: string, i: nat): (j: nat)
    requires i <= |t|
    ensures i <= j <= |t|
    ensures forall k :: i <= k < j ==> IsSpace(t[k])
    ensures j == |t| || !IsSpace(t[j])
    decreases |t| - i
  {
    if i < |t| && IsSpace(t[i]) then SpaceRunEnd(t, i + 1) else i
  }

  /** `10 ** k` */
  function Pow10(k: nat): (p: nat)
    ensures p >= 1
  {
    if k == 0 then 1 else 10 * Pow10(k - 1)
  }

  /** `int(s)` on a string of ASCII digits (leading zeros allowed): a number below `10 ** len(s)`. */
  function DigitsValue(s: string): (v: nat)
    requires AllDigits(s)
    ensures v < Pow10(|s|)
    decreases |s|
  {
    if |s| == 0 then 0
    else
      var front := DigitsValue(s[..|s| - 1]);
      var last := s[|s| - 1] as int - '0' as int;
      assert 10 * front + last < 10 * Pow10(|s| - 1) by {
        assert front + 1 <= Pow10(|s| - 1);
      }
      10 * front + last
  }

  /** `str(n)`: the decimal digits of `n`, without leading zeros. */
  function DecimalDigits(n: nat): (s: string)
    ensures |s| > 0 && AllDigits(s)
    ensures n > 0 ==> s[0] != '0'
    decreases n
  {
    if n < 10 then [('0' as int + n) as char]
    else DecimalDigits(n / 10) + [('0' as int + n % 10) as char]
  }

  /** `int(str(n)) == n`: reading back the decimal digits of a number gives the number. */
  lemma {:induction false} DigitsValueOfDecimal(n: nat)
    ensures DigitsValue(DecimalDigits(n)) == n
    decreases n
  {
    var s := DecimalDigits(n);
    if n >= 10 {
      assert s[..|s| - 1] == DecimalDigits(n / 10);
      DigitsValueOfDecimal(n / 10);
    }
  }

  /** Leading zeros do not change the value: `int("0" + s) == int(s)`. */
  lemma {:induction false} DigitsValueLeadingZero(s: string)
    requires AllDigits(s)
    ensures AllDigits("0" + s) && DigitsValue("0" + s) == DigitsValue(s)
    decreases |s|
  {
    var z := "0" + s;
    if |s| > 0 {
      assert z[..|z| - 1] == "0" + s[..|s| - 1];
      DigitsValueLeadingZero(s[..|s| - 1]);
    }
  }
}
