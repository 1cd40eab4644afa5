/**
 * `parse_facing_bets` (`app/utils.py`): reads who raised, how much and what
 * kind of action from a phrase such as "UTG raises to 3bb" or "CO 3bet to
 * 12bb". Blank input gives nothing; otherwise the phrase is lower-cased and
 * stripped, and the three parts are read independently of each other.
 */
module FacingBets {
  import opened Outcome
  import opened Text
  import opened Patterns

  // ---------------------------------------------------------------------------
  // the aggressor
  // ---------------------------------------------------------------------------

  /** The seat codes, in the order they are tried. */
  const AggressorCodes: seq<string> := ["utg", "hj", "lj", "mp", "co", "btn", "sb", "bb"]

  /** No seat code is a prefix of another, so the order in which they are tried never matters. */
  lemma AggressorCodesPrefixFree(j: nat, k: nat)
    requires j < |AggressorCodes| && k < |AggressorCodes| && j != k
    ensures !StartsWith(AggressorCodes[k], AggressorCodes[j])
  {
    var a, b := AggressorCodes[j], AggressorCodes[k];
    if |a| <= |b| {
      assert a[0] != b[0] || a[1] != b[1];
    }
  }

  /** A text starts with at most one seat code. */
  lemma AggressorUnique(t: string, j: nat, k: nat)
    requires j < |AggressorCodes| && k < |AggressorCodes|
    requires StartsWith(t, AggressorCodes[j]) && StartsWith(t, AggressorCodes[k])
    ensures j == k
  {
    var a, b := AggressorCodes[j], AggressorCodes[k];
    if j != k {
      if |a| <= |b| {
        assert StartsWith(b, a) by {
          assert b[..|a|] == t[..|a|] == a;
        }
        AggressorCodesPrefixFree(j, k);
      } else {
        assert StartsWith(a, b) by {
          assert a[..|b|] == t[..|b|] == b;
        }
        AggressorCodesPrefixFree(k, j);
      }
    }
  }

  /** The aggressor: the upper-cased seat code the text starts with, if any. */
  function DetectAggressor(t: string): (r: Option<string>)
    ensures r.Some? <==> exists k :: 0 <= k < |AggressorCodes| && StartsWith(t, AggressorCodes[k])
    ensures forall k :: 0 <= k < |AggressorCodes| && StartsWith(t, AggressorCodes[k]) ==>
              r == Some(Upper(AggressorCodes[k]))
  {
    match FirstWhere(c => StartsWith(t, c), AggressorCodes, 0)
    case Some(j) =>
      assert forall k :: 0 <= k < |AggressorCodes| && StartsWith(t, AggressorCodes[k]) ==> k == j by {
        forall k | 0 <= k < |AggressorCodes| && StartsWith(t, AggressorCodes[k])
          ensures k == j
        {
          AggressorUnique(t, j, k);
        }
      }
      Some(Upper(AggressorCodes[j]))
    case None => None
  }

  // ---------------------------------------------------------------------------
  // the size
  // ---------------------------------------------------------------------------

  /** A bet size as written: the integer digits and, after a point, the fraction digits. */
  datatype Decimal = Decimal(whole: string, fraction: Option<string>)

  /** `d` is a whole run of digits starting at `i`: not empty, and not followed by another digit. */
  predicate DigitsAt(t: string, d: string, i: nat)
  {
    && |d| > 0 && AllDigits(d) && OccursAt(t, d, i)
    && (i + |d| == |t| || !IsDigit(t[i + |d|]))
  }

  /**
   * `re.search(r"(\d+(\.\d+)?)\s*(bb|x)?", t).group(1)`: the number found
   * at the leftmost match, with its fraction when a point and a digit follow.
   */
  function ReadSize(t: string): (r: Option<Decimal>)
    ensures r.Some? ==> |r.value.whole| > 0 && AllDigits(r.value.whole)
    ensures r.Some? && r.value.fraction.Some? ==> |r.value.fraction.value| > 0 && AllDigits(r.value.fraction.value)
  {
    match Search(Amount, t, 0)
    case Some(i) =>
      var whole := Group(Amount, t, i);
      Some(Decimal(whole, Fraction(t, i + |whole|)))
    case None => None
  }

  /** There is a size exactly when the text has a digit. */
  lemma ReadSizeNone(t: string)
    ensures ReadSize(t).None? <==> forall i :: 0 <= i < |t| ==> !IsDigit(t[i])
  {
    assert forall k :: 0 <= k < |t| ==> (MatchesAt(Amount, t, k) <==> IsDigit(t[k]));
  }

  /**
   * The size is the number that starts at the first digit of the text: its
   * whole run of digits, then the fraction digits if a point and a digit follow.
   */
  lemma ReadSizeFirstNumber(t: string, i: nat)
    requires i < |t| && IsDigit(t[i])
    requires forall k :: 0 <= k < i ==> !IsDigit(t[k])
    ensures var r := ReadSize(t);
      && r.Some? && DigitsAt(t, r.value.whole, i)
      && r.value.fraction == Fraction(t, i + |r.value.whole|)
  {
    assert MatchesAt(Amount, t, i);
    var j := Search(Amount, t, 0);
    assert j.Some?;
    assert IsDigit(t[j.value]);
  }

  /** The run of digits starting at a given index is unique. */
  lemma DigitsAtUnique(t: string, d: string, e: string, i: nat)
    requires DigitsAt(t, d, i) && DigitsAt(t, e, i)
    ensures d == e
  {
    DigitsAtRunEnd(t, d, i);
    DigitsAtRunEnd(t, e, i);
  }

  /** A whole run of digits ends where the scanner's run of digits ends. */
  lemma DigitsAtRunEnd(t: string, d: string, i: nat)
    requires DigitsAt(t, d, i)
    ensures DigitRunEnd(t, i) == i + |d| && d == t[i..DigitRunEnd(t, i)]
  {
    assert forall k :: i <= k < i + |d| ==> t[k] == d[k - i];
    DigitRunEndAt(t, i, i + |d|);
  }

  // ---------------------------------------------------------------------------
  // the action
  // ---------------------------------------------------------------------------

  /** The only action the parser reports: a 3-bet, a bet and an open all count as a raise. */
  datatype Action = Raise

  /** Each word the cascade tests for contains one of "raise", "bet" and "open". */
  lemma CascadeWords(t: string)
    ensures Contains(t, "3bet") ==> Contains(t, "bet")
    ensures Contains(t, "3-bet") ==> Contains(t, "bet")
    ensures Contains(t, "raises") ==> Contains(t, "raise")
    ensures Contains(t, "bets") ==> Contains(t, "bet")
  {
    assert OccursAt("3bet", "bet", 1);
    ContainsIff("3bet", "bet");
    assert OccursAt("3-bet", "bet", 2);
    ContainsIff("3-bet", "bet");
    assert OccursAt("raises", "raise", 0);
    assert OccursAt("bets", "bet", 0);
    if Contains(t, "3bet") {
      ContainsTransitive(t, "3bet", "bet");
    }
    if Contains(t, "3-bet") {
      ContainsTransitive(t, "3-bet", "bet");
    }
    if Contains(t, "raises") {
      ContainsTransitive(t, "raises", "raise");
    }
    if Contains(t, "bets") {
      ContainsTransitive(t, "bets", "bet");
    }
  }

  /**
   * The action cascade: "3bet"/"3-bet", then "raises"/"raise", then
   * "bets"/"bet", then "open" are each reported as a raise. Since every
   * tested word contains "raise", "bet" or "open", an action is reported
   * exactly when one of those three occurs.
   */
  function ClassifyAction(t: string): (r: Option<Action>)
    ensures r.Some? <==> Contains(t, "raise") || Contains(t, "bet") || Contains(t, "open")
  {
    CascadeWords(t);
    if Contains(t, "3bet") || Contains(t, "3-bet") then Some(Raise)
    else if Contains(t, "raises") || Contains(t, "raise") then Some(Raise)
    else if Contains(t, "bets") || Contains(t, "bet") then Some(Raise)
    else if Contains(t, "open") then Some(Raise)
    else None
  }

  // ---------------------------------------------------------------------------
  // the whole phrase
  // ---------------------------------------------------------------------------

  /** What `parse_facing_bets` returns; `None` where the source returns `None`. */
  datatype FacingBets = FacingBets(action: Option<Action>, aggressor: Option<string>, size: Option<Decimal>)

  /**
   * The text the three readers work on: `text.lower().strip()`, which is also
   * `text.strip().lower()`; it is empty exactly for blank text.
   */
  function FacingText(text: string): (r: string)
    ensures r == Lower(Strip(text))
    ensures r == [] <==> AllSpace(text)
  {
    LowerStrip(text);
    StripEmpty(text);
    Strip(Lower(text))
  }

  /** The three readers applied to the same text. */
  function ReadAll(t: string): FacingBets
  {
    FacingBets(ClassifyAction(t), DetectAggressor(t), ReadSize(t))
  }

  /** `parse_facing_bets`: blank input (`not text.strip()`) gives nothing at all. */
  function ParseFacingBets(text: string): (r: FacingBets)
    ensures AllSpace(text) ==> r == FacingBets(None, None, None)
    ensures r == ReadAll(FacingText(text))
  {
    BlankReadsNothing(text);
    if Strip(text) == [] then FacingBets(None, None, None)
    else ReadAll(FacingText(text))
  }

  /**
   * The early return for blank input changes nothing: read normally, blank
   * text also yields no action, no aggressor and no size.
   */
  lemma BlankReadsNothing(text: string)
    ensures Strip(text) == [] <==> AllSpace(text)
    ensures AllSpace(text) ==> ReadAll(FacingText(text)) == FacingBets(None, None, None)
  {
    StripEmpty(text);
    if AllSpace(text) {
      LowerStrip(text);
      assert FacingText(text) == [];
      ContainsIff([], "raise");
      ContainsIff([], "bet");
      ContainsIff([], "open");
    }
  }

  // ---------------------------------------------------------------------------
  // reading one phrase
  // ---------------------------------------------------------------------------

  /** A phrase that neither starts nor ends with whitespace is only lower-cased. */
  lemma FacingTextUnpadded(text: string)
    requires |text| > 0 && !IsSpace(text[0]) && !IsSpace(text[|text| - 1])
    ensures FacingText(text) == Lower(text)
  {
    var l := Lower(text);
    LowerCharSpace(text[0]);
    LowerCharSpace(text[|text| - 1]);
    StripBetween(l, 0, |l|);
    assert l[0..|l|] == l;
  }

  /** One occurrence of "raise", "bet" or "open" makes the action a raise. */
  lemma ActionFromWord(t: string, w: string, i: nat)
    requires w == "raise" || w == "bet" || w == "open"
    requires OccursAt(t, w, i)
    ensures ClassifyAction(t) == Some(Raise)
  {
    ContainsIff(t, w);
  }

  /** The first digit of the phrase starts the size; `d` is its run of digits. */
  lemma SizeFromFirstDigit(t: string, i: nat, d: string)
    requires i < |t| && DigitsAt(t, d, i)
    requires forall k :: 0 <= k < i ==> !IsDigit(t[k])
    ensures ReadSize(t) == Some(Decimal(d, Fraction(t, i + |d|)))
  {
    ReadSizeFirstNumber(t, i);
    DigitsAtUnique(t, d, ReadSize(t).value.whole, i);
  }
}
