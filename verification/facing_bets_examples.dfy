/**
 * The phrases of the docstring of `parse_facing_bets` and of its unit tests
 * (`tests/test_parsing.py`), read by the model. Every phrase that names a bet,
 * an open or a 3-bet comes out as a raise, as the code is written.
 */
module FacingBetsExamples {
  import opened Outcome
  import opened Text
  import opened Patterns
  import opened FacingBets

  /** "CO bets 10": aggressor CO, size 10, and a raise. */
  lemma CoBets10()
    ensures ParseFacingBets("CO bets 10") == FacingBets(Some(Raise), Some("CO"), Some(Decimal("10", None)))
  {
    LowerCased("CO bets 10", "co bets 10");
    ReadCoBets10();
  }

  lemma ReadCoBets10()
    ensures ReadAll("co bets 10") == FacingBets(Some(Raise), Some("CO"), Some(Decimal("10", None)))
  {
    var t := "co bets 10";
    assert t == "co " + "bet" + "s 10";
    OccursBetween("co ", "bet", "s 10");
    ActionFromWord(t, "bet", 3);
    assert StartsWith(t, AggressorCodes[4]);
    assert Upper(AggressorCodes[4]) == "CO";
    CoBets10Size();
  }

  lemma CoBets10Size()
    ensures ReadSize("co bets 10") == Some(Decimal("10", None))
  {
    var t := "co bets 10";
    SizeFromFirstDigit(t, 8, "10");
  }

  /** "UTG raises to 3bb": aggressor UTG, size 3, and a raise. */
  lemma UtgRaisesTo3bb()
    ensures ParseFacingBets("UTG raises to 3bb") == FacingBets(Some(Raise), Some("UTG"), Some(Decimal("3", None)))
  {
    LowerCased("UTG raises to 3bb", "utg raises to 3bb");
    ReadUtgRaisesTo3bb();
  }

  lemma ReadUtgRaisesTo3bb()
    ensures ReadAll("utg raises to 3bb") == FacingBets(Some(Raise), Some("UTG"), Some(Decimal("3", None)))
  {
    var t := "utg raises to 3bb";
    assert t == "utg " + "raise" + "s to 3bb";
    OccursBetween("utg ", "raise", "s to 3bb");
    ActionFromWord(t, "raise", 4);
    assert StartsWith(t, AggressorCodes[0]);
    assert Upper(AggressorCodes[0]) == "UTG";
    UtgRaisesTo3bbSize();
  }

  lemma UtgRaisesTo3bbSize()
    ensures ReadSize("utg raises to 3bb") == Some(Decimal("3", None))
  {
    var t := "utg raises to 3bb";
    SizeFromFirstDigit(t, 14, "3");
  }

  /** "BTN bets 2.5": aggressor BTN, size 2.5, and a raise. */
  lemma BtnBets2Point5()
    ensures ParseFacingBets("BTN bets 2.5") == FacingBets(Some(Raise), Some("BTN"), Some(Decimal("2", Some("5"))))
  {
    LowerCased("BTN bets 2.5", "btn bets 2.5");
    ReadBtnBets2Point5();
  }

  lemma ReadBtnBets2Point5()
    ensures ReadAll("btn bets 2.5") == FacingBets(Some(Raise), Some("BTN"), Some(Decimal("2", Some("5"))))
  {
    var t := "btn bets 2.5";
    assert t == "btn " + "bet" + "s 2.5";
    OccursBetween("btn ", "bet", "s 2.5");
    ActionFromWord(t, "bet", 4);
    assert StartsWith(t, AggressorCodes[5]);
    assert Upper(AggressorCodes[5]) == "BTN";
    BtnBets2Point5Size();
  }

  lemma BtnBets2Point5Size()
    ensures ReadSize("btn bets 2.5") == Some(Decimal("2", Some("5")))
  {
    SizeFromFirstDigit("btn bets 2.5", 9, "2");
    BtnFraction();
  }

  lemma BtnFraction()
    ensures Fraction("btn bets 2.5", 10) == Some("5")
  {
    var t := "btn bets 2.5";
    DigitRunEndAt(t, 11, 12);
    assert t[11..12] == "5";
  }

  /** "SB opens 3x": aggressor SB, size 3, and a raise. */
  lemma SbOpens3x()
    ensures ParseFacingBets("SB opens 3x") == FacingBets(Some(Raise), Some("SB"), Some(Decimal("3", None)))
  {
    LowerCased("SB opens 3x", "sb opens 3x");
    ReadSbOpens3x();
  }

  lemma ReadSbOpens3x()
    ensures ReadAll("sb opens 3x") == FacingBets(Some(Raise), Some("SB"), Some(Decimal("3", None)))
  {
    var t := "sb opens 3x";
    assert t == "sb " + "open" + "s 3x";
    OccursBetween("sb ", "open", "s 3x");
    ActionFromWord(t, "open", 3);
    assert StartsWith(t, AggressorCodes[6]);
    assert Upper(AggressorCodes[6]) == "SB";
    SbOpens3xSize();
  }

  lemma SbOpens3xSize()
    ensures ReadSize("sb opens 3x") == Some(Decimal("3", None))
  {
    var t := "sb opens 3x";
    SizeFromFirstDigit(t, 9, "3");
  }

  /** "CO 3bet to 12bb": the size is the 3 of "3bet", the first number in the phrase, not the 12. */
  lemma Co3betTo12bb()
    ensures ParseFacingBets("CO 3bet to 12bb") == FacingBets(Some(Raise), Some("CO"), Some(Decimal("3", None)))
  {
    LowerCased("CO 3bet to 12bb", "co 3bet to 12bb");
    ReadCo3betTo12bb();
  }

  lemma ReadCo3betTo12bb()
    ensures ReadAll("co 3bet to 12bb") == FacingBets(Some(Raise), Some("CO"), Some(Decimal("3", None)))
  {
    var t := "co 3bet to 12bb";
    assert t == "co 3" + "bet" + " to 12bb";
    OccursBetween("co 3", "bet", " to 12bb");
    ActionFromWord(t, "bet", 4);
    assert StartsWith(t, AggressorCodes[4]);
    assert Upper(AggressorCodes[4]) == "CO";
    Co3betTo12bbSize();
  }

  lemma Co3betTo12bbSize()
    ensures ReadSize("co 3bet to 12bb") == Some(Decimal("3", None))
  {
    var t := "co 3bet to 12bb";
    SizeFromFirstDigit(t, 3, "3");
  }

  /** The phrase as the readers see it. */
  lemma LowerCased(text: string, t: string)
    requires |text| > 0 && !IsSpace(text[0]) && !IsSpace(text[|text| - 1])
    requires Lower(text) == t
    ensures FacingText(text) == t
  {
    FacingTextUnpadded(text);
  }
}
