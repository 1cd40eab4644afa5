/**
 * The regular expressions the free-text parsers of `app/utils.py` search for
 * with `re.search`, written as scanners over the (already lower-cased) text.
 *
 * A `re.search` reports the leftmost index at which the pattern matches. For
 * these three patterns the greedy reading never has to back off: the digits
 * group always takes the whole run of digits, and `\s*` the whole run of
 * whitespace, which the `...Unique` lemmas below prove against the
 * pattern's plain meaning.
 */
module Patterns {
  import opened Outcome
  import opened Text

  /** The three searched patterns; each has one group of decimal digits. */
  datatype Pattern =
    | PlayerCount  // (\d+)\s*players?         the number of players
    | SlashCount   // /\s*(\d+)                the short "/ 3" form of it
    | Amount       // (\d+(\.\d+)?)\s*(bb|x)?  a bet size

  /** Where the digits group of a match at `i` starts. */
  function GroupStart(p: Pattern, t: string, i: nat): (g: nat)
    requires i < |t|
    ensures i <= g <= |t|
  {
    if p.SlashCount? then SpaceRunEnd(t, i + 1) else i
  }

  /**
   * The pattern matches at index `i`. A trailing `s?`, `\s*` or `(bb|x)?`
   * can always match the empty string, so it never decides whether there is a
   * match.
   */
  predicate MatchesAt(p: Pattern, t: string, i: nat)
    requires i <= |t|
  {
    && i < |t|
    && match p
       case PlayerCount => IsDigit(t[i]) && OccursAt(t, "player", SpaceRunEnd(t, DigitRunEnd(t, i)))
       case SlashCount => t[i] == '/' && GroupStart(p, t, i) < |t| && IsDigit(t[GroupStart(p, t, i)])
       case Amount => IsDigit(t[i])
  }

  /** The pattern matches nowhere before index `i`. */
  predicate NoMatchBefore(p: Pattern, t: string, i: nat)
    requires i <= |t|
  {
    forall k :: 0 <= k < i ==> !MatchesAt(p, t, k)
  }

  /** `re.search` from index `from`: the leftmost index at or after `from` where the pattern matches. */
  function Search(p: Pattern, t: string, from: nat): (r: Option<nat>)
    requires from <= |t|
    ensures r.Some? ==> from <= r.value < |t| && MatchesAt(p, t, r.value)
    ensures r.Some? ==> forall k :: from <= k < r.value ==> !MatchesAt(p, t, k)
    ensures r.None? ==> forall k :: from <= k <= |t| ==> !MatchesAt(p, t, k)
    decreases |t| - from
  {
    if from == |t| then None
    else if MatchesAt(p, t, from) then Some(from)
    else Search(p, t, from + 1)
  }

  /** The leftmost match, read back: any match with none before it is the one `Search` finds. */
  lemma SearchFindsLeftmost(p: Pattern, t: string)
    ensures forall i :: 0 <= i < |t| && MatchesAt(p, t, i) && NoMatchBefore(p, t, i) ==> Search(p, t, 0) == Some(i)
    ensures Search(p, t, 0).None? <==> NoMatchBefore(p, t, |t|)
  {
    forall i | 0 <= i < |t| && MatchesAt(p, t, i) && NoMatchBefore(p, t, i)
      ensures Search(p, t, 0) == Some(i)
    {
      var r := Search(p, t, 0);
      assert r.Some?;
      assert !(r.value < i);
      assert !(i < r.value);
    }
  }

  /** The text of the digits group of a match at `i`: a whole run of digits. */
  function Group(p: Pattern, t: string, i: nat): (g: string)
    requires i <= |t| && MatchesAt(p, t, i)
    ensures |g| > 0 && AllDigits(g)
    ensures OccursAt(t, g, GroupStart(p, t, i))
    ensures GroupStart(p, t, i) + |g| == |t| || !IsDigit(t[GroupStart(p, t, i) + |g|])
  {
    var s := GroupStart(p, t, i);
    t[s..DigitRunEnd(t, s)]
  }

  /** The number the digits group of a match at `i` spells, as `int(m.group(1))` reads it. */
  function GroupValue(p: Pattern, t: string, i: nat): nat
    requires i <= |t| && MatchesAt(p, t, i)
  {
    DigitsValue(Group(p, t, i))
  }

  /**
   * `(\.\d+)?` after the integer digits ending at `j`: a point and at least
   * one digit, taking the whole run of digits after the point.
   */
  function Fraction(t: string, j: nat): (f: Option<string>)
    requires j <= |t|
    ensures f.Some? <==> j + 1 < |t| && t[j] == '.' && IsDigit(t[j + 1])
    ensures f.Some? ==> && |f.value| > 0 && AllDigits(f.value) && OccursAt(t, f.value, j + 1)
                        && (j + 1 + |f.value| == |t| || !IsDigit(t[j + 1 + |f.value|]))
  {
    if j + 1 < |t| && t[j] == '.' && IsDigit(t[j + 1]) then Some(t[j + 1..DigitRunEnd(t, j + 1)]) else None
  }

  /**
   * The regular expression `(\d+)\s*players?` read literally: some non-empty
   * run of digits from `i` to `n`, whitespace from `n` to `m`, then "player".
   * Any such reading is the one the scanner takes, so the number is unique.
   */
  lemma PlayerCountUnique(t: string, i: nat, n: nat, m: nat)
    requires i < n <= m <= |t|
    requires forall k :: i <= k < n ==> IsDigit(t[k])
    requires forall k :: n <= k < m ==> IsSpace(t[k])
    requires OccursAt(t, "player", m)
    ensures MatchesAt(PlayerCount, t, i)
    ensures Group(PlayerCount, t, i) == t[i..n]
  {
    assert t[m] == 'p';
    DigitRunEndAt(t, i, n);
    SpaceRunEndAt(t, n, m);
  }

  /** A pattern match in the scanner's sense is one in the regular expression's sense. */
  lemma PlayerCountWitness(t: string, i: nat)
    requires i <= |t| && MatchesAt(PlayerCount, t, i)
    ensures var n := DigitRunEnd(t, i); var m := SpaceRunEnd(t, n);
      && i < n <= m && OccursAt(t, "player", m)
      && (forall k :: i <= k < n ==> IsDigit(t[k]))
      && (forall k :: n <= k < m ==> IsSpace(t[k]))
  {
  }

  /**
   * `/\s*(\d+)` read literally: a slash at `i`, whitespace up to `m`, then
   * the digits from `m` to `n`; the greedy `\d+` ends where the digits end.
   */
  lemma SlashCountUnique(t: string, i: nat, m: nat, n: nat)
    requires i < m < n <= |t|
    requires t[i] == '/'
    requires forall k :: i + 1 <= k < m ==> IsSpace(t[k])
    requires forall k :: m <= k < n ==> IsDigit(t[k])
    requires n == |t| || !IsDigit(t[n])
    ensures MatchesAt(SlashCount, t, i)
    ensures Group(SlashCount, t, i) == t[m..n]
  {
    assert !IsSpace(t[m]);
    SpaceRunEndAt(t, i + 1, m);
    DigitRunEndAt(t, m, n);
  }

  /**
   * The leftmost player count is a whole number: the digit before it, if
   * any, would have started an earlier match with the same ending. So "12
   * players" counts 12 players, never 2.
   */
  lemma LeftmostCountIsWhole(p: Pattern, t: string)
    requires p.PlayerCount? || p.Amount?
    requires Search(p, t, 0).Some?
    ensures var i := Search(p, t, 0).value; i == 0 || !IsDigit(t[i - 1])
  {
    var i := Search(p, t, 0).value;
    if i > 0 && IsDigit(t[i - 1]) {
      DigitRunEndStep(t, i - 1);
      assert MatchesAt(p, t, i - 1);
    }
  }

  lemma DigitRunEndStep(t: string, i: nat)
    requires i < |t| && IsDigit(t[i])
    ensures DigitRunEnd(t, i) == DigitRunEnd(t, i + 1)
  {
  }

  /** A run of digits that ends at a non-digit is the maximal run. */
  lemma {:induction false} DigitRunEndAt(t: string, i: nat, n: nat)
    requires i <= n <= |t|
    requires forall k :: i <= k < n ==> IsDigit(t[k])
    requires n == |t| || !IsDigit(t[n])
    ensures DigitRunEnd(t, i) == n
    decreases n - i
  {
    if i < n {
      DigitRunEndAt(t, i + 1, n);
    }
  }

  /** A run of whitespace that ends at a non-space is the maximal run. */
  lemma {:induction false} SpaceRunEndAt(t: string, i: nat, n: nat)
    requires i <= n <= |t|
    requires forall k :: i <= k < n ==> IsSpace(t[k])
    requires n == |t| || !IsSpace(t[n])
    ensures SpaceRunEnd(t, i) == n
    decreases n - i
  {
    if i < n {
      SpaceRunEndAt(t, i + 1, n);
    }
  }
}
