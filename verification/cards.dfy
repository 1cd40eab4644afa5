/**
 * The server-side card parsing of the advisor's web service (`app/main.py`):
 * one card token (`normalize_card`), the hero's two-card hand
 * (`parse_two_card_hand`) and a board of community cards (`parse_board`).
 */
module Cards {
  import opened Outcome
  import opened Text

  /** `VALID_RANKS`: the rank characters of a normalised card. */
  const Ranks: set<char> := {'2', '3', '4', '5', '6', '7', '8', '9', 'T', 'J', 'Q', 'K', 'A'}

  /** `VALID_SUITS`: the suit characters of a normalised card. */
  const Suits: set<char> := {'c', 'd', 'h', 's'}

  /** A card as `normalize_card` writes it: an upper-case rank and a lower-case suit, e.g. `As`. */
  predicate IsCard(c: string)
  {
    |c| == 2 && c[0] in Ranks && c[1] in Suits
  }

  /** A normalised card is a single `split()` word without a comma. */
  lemma CardIsToken(c: string)
    requires IsCard(c)
    ensures IsToken(c) && ',' !in c
  {
    assert !IsSpace(c[0]) && !IsSpace(c[1]);
    assert c == [c[0], c[1]];
  }

  /** A character that names a rank in either case (`t` and `T` both name ten). */
  predicate IsRankLetter(c: char)
  {
    UpperChar(c) in Ranks
  }

  /** A character that names a suit in either case. */
  predicate IsSuitLetter(c: char)
  {
    LowerChar(c) in Suits
  }

  /** The same letter up to case. */
  predicate SameIgnoringCase(a: char, b: char)
  {
    LowerChar(a) == LowerChar(b)
  }

  /** The `ValueError` of `normalize_card`; each carries the stripped card text its message quotes. */
  datatype CardError =
    | TooShort(card: string)
    | BadRank(card: string)
    | BadSuit(card: string)

  /** The HTTP 400 errors the request handlers raise. */
  datatype RequestError =
    | UnparseableHand                                       // "Could not parse hand. Example: As Kd"
    | InvalidHeroHand(cause: CardError)                     // "Invalid hero hand: ..."
    | BoardRequired                                         // "Board cards are required for postflop advice."
    | InvalidBoard(cause: CardError)                        // "Invalid board cards: ..."
    | BadBoardCount(minCards: int, maxCards: int, got: nat) // "Board must contain between ... cards; got ..."
    | BadBoardSize(size: nat)                               // "Board must contain 0, 3, 4, or 5 cards."

  /** Two normalised cards are equal as soon as they agree ignoring case. */
  lemma CardCaseUnique(a: string, b: string)
    requires IsCard(a) && IsCard(b)
    requires SameIgnoringCase(a[0], b[0]) && SameIgnoringCase(a[1], b[1])
    ensures a == b
  {
  }

  /**
   * `normalize_card`: strips the token, then reads its first character as the
   * rank and its second as the suit, whatever their case; anything after the
   * second character is ignored. The rank is checked before the suit.
   */
  function NormalizeCard(card: string): (r: Result<string, CardError>)
    ensures r.Ok? ==> IsCard(r.value)
  {
    var c := Strip(card);
    if |c| < 2 then Err(TooShort(c))
    else
      var rank := UpperChar(c[0]);
      var suit := LowerChar(c[1]);
      if rank !in Ranks then Err(BadRank(c))
      else if suit !in Suits then Err(BadSuit(c))
      else Ok([rank, suit])
  }

  /** What `normalize_card` accepts, what it returns, and which error it raises. */
  lemma NormalizeCardSpec(card: string)
    ensures var r := NormalizeCard(card);
      r.Ok? <==> |Strip(card)| >= 2 && IsRankLetter(Strip(card)[0]) && IsSuitLetter(Strip(card)[1])
    ensures var r := NormalizeCard(card);
      r.Ok? ==> SameIgnoringCase(r.value[0], Strip(card)[0]) && SameIgnoringCase(r.value[1], Strip(card)[1])
    ensures var r := NormalizeCard(card);
      r.Err? ==> r.error.card == Strip(card)
    ensures var r := NormalizeCard(card);
      r.Err? ==> (r.error.TooShort? <==> |Strip(card)| < 2)
    ensures var r := NormalizeCard(card);
      r.Err? ==> (r.error.BadRank? <==> |Strip(card)| >= 2 && !IsRankLetter(Strip(card)[0]))
  {
  }

  /** A card already in normal form is returned unchanged. */
  lemma NormalizeCardFixesCards(c: string)
    requires IsCard(c)
    ensures NormalizeCard(c) == Ok(c)
  {
    StripBetween(c, 0, 2);
    assert c[..2] == c;
    CardCaseUnique(NormalizeCard(c).value, c);
  }

  /** Normalising is idempotent: a normalised card normalises to itself. */
  lemma NormalizeCardIdempotent(card: string)
    requires NormalizeCard(card).Ok?
    ensures NormalizeCard(NormalizeCard(card).value) == NormalizeCard(card)
  {
    NormalizeCardFixesCards(NormalizeCard(card).value);
  }

  /** Whitespace around the token changes nothing, not even the text an error quotes. */
  lemma NormalizeCardIgnoresPadding(w1: string, card: string, w2: string)
    requires AllSpace(w1) && AllSpace(w2)
    ensures NormalizeCard(w1 + card + w2) == NormalizeCard(card)
  {
    StripPadding(w1, card, w2);
  }

  /**
   * Case does not matter: two tokens that agree ignoring case both succeed with
   * the same card, or both fail with the same kind of error.
   */
  lemma NormalizeCardIgnoresCase(a: string, b: string)
    requires Lower(a) == Lower(b)
    ensures NormalizeCard(a).Ok? == NormalizeCard(b).Ok?
    ensures NormalizeCard(a).Ok? ==> NormalizeCard(a).value == NormalizeCard(b).value
    ensures NormalizeCard(a).Err? ==> NormalizeCard(a).error.TooShort? == NormalizeCard(b).error.TooShort?
    ensures NormalizeCard(a).Err? ==> NormalizeCard(a).error.BadRank? == NormalizeCard(b).error.BadRank?
  {
    LowerStrip(a);
    LowerStrip(b);
    var sa, sb := Strip(a), Strip(b);
    if |sa| >= 2 {
      FirstTwoAgree(sa, sb);
      UpperCharFold(sa[0], sb[0]);
    }
  }

  /** Strings equal up to case have the same length and agree up to case on their first two characters. */
  lemma FirstTwoAgree(sa: string, sb: string)
    requires Lower(sa) == Lower(sb) && |sa| >= 2
    ensures |sb| == |sa| && LowerChar(sa[0]) == LowerChar(sb[0]) && LowerChar(sa[1]) == LowerChar(sb[1])
  {
    assert |sa| == |Lower(sa)| == |Lower(sb)| == |sb|;
    assert Lower(sa)[0] == Lower(sb)[0] && Lower(sa)[1] == Lower(sb)[1];
  }

  /** Letters that agree ignoring case also agree once upper-cased. */
  lemma UpperCharFold(x: char, y: char)
    requires LowerChar(x) == LowerChar(y)
    ensures UpperChar(x) == UpperChar(y)
  {
  }

  /** Characters after a well-formed card are ignored: `Asx` gives `As`. */
  lemma NormalizeCardIgnoresTail(c: string, rest: string)
    requires IsCard(c)
    ensures NormalizeCard(c + rest) == Ok(c)
  {
    var x := c + rest;
    assert x[0] == c[0] && x[1] == c[1];
    var s := Strip(x);
    assert SpaceRunEnd(x, 0) == 0;
    assert |s| >= 2;
    assert s[..2] == c;
    CardCaseUnique(NormalizeCard(x).value, c);
  }

  /**
   * `[normalize_card(t) for t in tokens]`: one card per token, in order, or the
   * error of the first token that is no card.
   */
  function NormalizeAll(tokens: seq<string>): (r: Result<seq<string>, CardError>)
    ensures r.Ok? ==> |r.value| == |tokens| && forall i :: 0 <= i < |tokens| ==> NormalizeCard(tokens[i]) == Ok(r.value[i])
    ensures r.Err? ==> exists k :: && 0 <= k < |tokens| && NormalizeCard(tokens[k]) == Err(r.error)
                                   && forall i :: 0 <= i < k ==> NormalizeCard(tokens[i]).Ok?
  {
    MapAll(NormalizeCard, tokens)
  }

  /** Every token that normalises is a card in normal form. */
  lemma NormalizeAllCards(tokens: seq<string>)
    ensures NormalizeAll(tokens).Ok? ==> forall i :: 0 <= i < |NormalizeAll(tokens).value| ==> IsCard(NormalizeAll(tokens).value[i])
  {
  }

  /** Cards already in normal form come back unchanged, all of them. */
  lemma NormalizeAllFixesCards(cards: seq<string>)
    requires forall k :: 0 <= k < |cards| ==> IsCard(cards[k])
    ensures NormalizeAll(cards) == Ok(cards)
  {
    forall k | 0 <= k < |cards|
      ensures NormalizeCard(cards[k]) == Ok(cards[k])
    {
      NormalizeCardFixesCards(cards[k]);
    }
    MapAllOk(NormalizeCard, cards);
    assert NormalizeAll(cards).value == cards;
  }

  /** The words of hand or board text: commas count as whitespace. */
  function Words(text: string): seq<string>
  {
    Split(ReplaceCommas(text))
  }

  /** Shapes of hand text `parse_two_card_hand` cannot read: no word, or one word that is not four characters long. */
  predicate ShapelessHand(words: seq<string>)
  {
    |words| == 0 || (|words| == 1 && |words[0]| != 4)
  }

  /** Normalises the two raw card tokens picked from the hand text. */
  function HeroCards(raw: seq<string>): Result<seq<string>, RequestError>
  {
    match NormalizeAll(raw)
    case Ok(cards) => Ok(cards)
    case Err(e) => Err(InvalidHeroHand(e))
  }

  /**
   * `parse_two_card_hand`: commas count as spaces; a single four-character word
   * is read as two cards of two characters each, otherwise the first two words
   * are the cards and any further words are ignored.
   */
  function ParseTwoCardHand(hand: string): (r: Result<seq<string>, RequestError>)
    ensures r.Ok? ==> |r.value| == 2 && IsCard(r.value[0]) && IsCard(r.value[1])
    ensures r.Err? ==> r.error.UnparseableHand? || r.error.InvalidHeroHand?
  {
    var parts := Split(Strip(ReplaceCommas(hand)));
    if |parts| == 1 && |parts[0]| == 4 then HeroCards([parts[0][..2], parts[0][2..]])
    else if |parts| >= 2 then HeroCards([parts[0], parts[1]])
    else Err(UnparseableHand)
  }

  /**
   * Which words of the hand text become the two cards: the first two words,
   * or the two halves of a lone four-character word; any other shape is
   * "could not parse", and a bad card is reported as an invalid hero hand.
   */
  lemma ParseTwoCardHandSpec(hand: string)
    ensures var r, words := ParseTwoCardHand(hand), Words(hand);
      r == Err(UnparseableHand) <==> ShapelessHand(words)
    ensures var r, words := ParseTwoCardHand(hand), Words(hand);
      |words| >= 2 ==> r == HeroCards([words[0], words[1]])
    ensures var r, words := ParseTwoCardHand(hand), Words(hand);
      |words| == 1 && |words[0]| == 4 ==> r == HeroCards([words[0][..2], words[0][2..]])
  {
    SplitStrip(ReplaceCommas(hand));
  }

  /**
   * Writing two cards back to back, separated by a space or separated by a
   * comma all parse to those two cards, in order; a repeated card is not
   * rejected.
   */
  lemma ParseTwoCardHandRoundTrip(c1: string, c2: string)
    requires IsCard(c1) && IsCard(c2)
    ensures ParseTwoCardHand(c1 + c2) == Ok([c1, c2])
    ensures ParseTwoCardHand(c1 + " " + c2) == Ok([c1, c2])
    ensures ParseTwoCardHand(c1 + "," + c2) == Ok([c1, c2])
  {
    NormalizeAllFixesCards([c1, c2]);
    PairWords(c1, c2);
    var joined := c1 + c2;
    assert joined[..2] == c1 && joined[2..] == c2;
    ParseTwoCardHandSpec(joined);
    ParseTwoCardHandSpec(c1 + " " + c2);
    ParseTwoCardHandSpec(c1 + "," + c2);
  }

  /** The words of two cards written together, apart, or with a comma between them. */
  lemma PairWords(c1: string, c2: string)
    requires IsCard(c1) && IsCard(c2)
    ensures Words(c1 + c2) == [c1 + c2]
    ensures Words(c1 + " " + c2) == [c1, c2]
    ensures Words(c1 + "," + c2) == [c1, c2]
  {
    CardIsToken(c1);
    CardIsToken(c2);
    var joined := c1 + c2;
    ReplaceCommasNoComma(joined);
    SplitToken(joined, []);
    assert joined + [] == joined;
    var spaced := c1 + " " + c2;
    ReplaceCommasNoComma(spaced);
    SplitJoinSpaced([c1, c2]);
    assert JoinSpaced([c1, c2]) == spaced;
    assert ReplaceCommas(c1 + "," + c2) == spaced;
  }

  /** With two or more words, only the first two matter. */
  lemma ParseTwoCardHandIgnoresExtraWords(words: seq<string>)
    requires |words| >= 2
    requires forall k :: 0 <= k < |words| ==> IsToken(words[k]) && ',' !in words[k]
    ensures ParseTwoCardHand(JoinSpaced(words)) == ParseTwoCardHand(words[0] + " " + words[1])
  {
    WordsJoinSpaced(words);
    var pair := [words[0], words[1]];
    assert JoinSpaced(pair) == words[0] + " " + words[1];
    WordsJoinSpaced(pair);
    ParseTwoCardHandSpec(JoinSpaced(words));
    ParseTwoCardHandSpec(words[0] + " " + words[1]);
  }

  /** Words joined with single spaces are read back as the same words. */
  lemma WordsJoinSpaced(words: seq<string>)
    requires forall k :: 0 <= k < |words| ==> IsToken(words[k]) && ',' !in words[k]
    ensures Words(JoinSpaced(words)) == words
  {
    NoCommaJoin(words);
    SplitJoinSpaced(words);
  }

  lemma {:induction false} NoCommaJoin(words: seq<string>)
    requires forall k :: 0 <= k < |words| ==> ',' !in words[k]
    ensures ReplaceCommas(JoinSpaced(words)) == JoinSpaced(words)
    decreases |words|
  {
    if |words| > 1 {
      NoCommaJoin(words[1..]);
      var rest := JoinSpaced(words[1..]);
      ReplaceCommasNoComma(words[0] + " " + rest);
    }
  }

  /**
   * `parse_board`: commas count as spaces; blank text is rejected, then every
   * word must be a valid card, and only then is the number of cards checked
   * against `minCards..maxCards` (3..5 by default).
   */
  function ParseBoard(board: string, minCards: int, maxCards: int): (r: Result<seq<string>, RequestError>)
    ensures r.Ok? ==> minCards <= |r.value| <= maxCards && forall i :: 0 <= i < |r.value| ==> IsCard(r.value[i])
    ensures r.Err? ==> r.error.BoardRequired? || r.error.InvalidBoard? || r.error.BadBoardCount?
  {
    var text := Strip(ReplaceCommas(board));
    if text == [] then Err(BoardRequired)
    else
      match NormalizeAll(Split(text))
      case Err(e) => Err(InvalidBoard(e))
      case Ok(cards) =>
        if minCards <= |cards| <= maxCards then Ok(cards)
        else Err(BadBoardCount(minCards, maxCards, |cards|))
  }

  /**
   * The checks of `parse_board` in their order: no words is "required", then
   * the first word that is no card is reported, then a count outside the window
   * is reported with the count; otherwise the cards are the words, normalised
   * one by one.
   */
  lemma ParseBoardSpec(board: string, minCards: int, maxCards: int)
    ensures var r, words := ParseBoard(board, minCards, maxCards), Words(board);
      r == Err(BoardRequired) <==> words == []
    ensures var r, words := ParseBoard(board, minCards, maxCards), Words(board);
      words != [] ==> match NormalizeAll(words)
        case Err(e) => r == Err(InvalidBoard(e))
        case Ok(cards) => r == if minCards <= |words| <= maxCards then Ok(cards)
                               else Err(BadBoardCount(minCards, maxCards, |words|))
  {
    var raw := ReplaceCommas(board);
    StripEmpty(raw);
    SplitEmpty(raw);
    SplitStrip(raw);
  }

  /** A board is accepted exactly when it has words, they are all cards, and their number is inside the window. */
  lemma ParseBoardOk(board: string, minCards: int, maxCards: int)
    ensures var r, words := ParseBoard(board, minCards, maxCards), Words(board);
      r.Ok? <==> && words != []
                 && (forall i :: 0 <= i < |words| ==> NormalizeCard(words[i]).Ok?)
                 && minCards <= |words| <= maxCards
    ensures var r, words := ParseBoard(board, minCards, maxCards), Words(board);
      r.Ok? ==> |r.value| == |words| && forall i :: 0 <= i < |words| ==> NormalizeCard(words[i]) == Ok(r.value[i])
  {
    ParseBoardSpec(board, minCards, maxCards);
    MapAllOk(NormalizeCard, Words(board));
  }

  /** Cards written with single spaces between them are read back as exactly those words. */
  lemma WordsJoined(cards: seq<string>)
    requires forall k :: 0 <= k < |cards| ==> IsCard(cards[k])
    ensures Words(JoinSpaced(cards)) == cards
  {
    forall k | 0 <= k < |cards|
      ensures IsToken(cards[k]) && ',' !in cards[k]
    {
      CardIsToken(cards[k]);
    }
    WordsJoinSpaced(cards);
  }

  /** Cards written with single spaces between them parse back to the same cards, subject to the count window. */
  lemma ParseBoardRoundTrip(cards: seq<string>, minCards: int, maxCards: int)
    requires forall k :: 0 <= k < |cards| ==> IsCard(cards[k])
    ensures ParseBoard(JoinSpaced(cards), minCards, maxCards) ==
      if cards == [] then Err(BoardRequired)
      else if minCards <= |cards| <= maxCards then Ok(cards)
      else Err(BadBoardCount(minCards, maxCards, |cards|))
  {
    WordsJoined(cards);
    NormalizeAllFixesCards(cards);
    ParseBoardSpec(JoinSpaced(cards), minCards, maxCards);
  }
}
