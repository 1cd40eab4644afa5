/**
 * How the advisor names the betting round from the number of board cards.
 * There are three places that do it, and they do not all agree:
 *   - the free-text parser `parse_simple_input` (`app/utils.py`);
 *   - the `/street-advise` form handler, which also normalises the hero and
 *     board tokens (`app/main.py`);
 *   - the `/advisor` JSON endpoint, which only chooses between pre-flop and
 *     post-flop advice (`app/main.py`).
 */
module Streets {
  import opened Outcome
  import opened Text
  import opened Cards

  /** The betting round; `Unknown` is what `parse_simple_input` reports for an impossible board. */
  datatype Street = Preflop | Flop | Turn | River | Unknown

  /** The number of community cards on the table during a street (none for `Unknown`). */
  function CardsOnBoard(s: Street): Option<nat>
  {
    match s
    case Preflop => Some(0)
    case Flop => Some(3)
    case Turn => Some(4)
    case River => Some(5)
    case Unknown => None
  }

  /** A board size that occurs in a hand of hold'em: none, the flop, the turn or the river. */
  predicate IsStreetSize(n: nat)
  {
    n == 0 || 3 <= n <= 5
  }

  /**
   * The street of `parse_simple_input`, read off the board length: each real
   * street for its own size, `Unknown` for every other size.
   */
  function BoardStreet(n: nat): (s: Street)
    ensures s != Unknown ==> CardsOnBoard(s) == Some(n)
    ensures s == Unknown <==> !IsStreetSize(n)
  {
    if n == 0 then Preflop
    else if n == 3 then Flop
    else if n == 4 then Turn
    else if n == 5 then River
    else Unknown
  }

  /** Every real street is named back from its own board size. */
  lemma BoardStreetInverse(s: Street)
    requires s != Unknown
    ensures BoardStreet(CardsOnBoard(s).value) == s
  {
  }

  /**
   * The street of the `/street-advise` handler: 3 cards are the flop, 4 the
   * turn, anything else the river. The label matches the board size exactly
   * for 3, 4 and 5 cards; a board of 0, 1, 2 or 6+ cards is still called the
   * river.
   */
  function StreetAdviseStreet(n: nat): (s: Street)
    ensures s == Flop || s == Turn || s == River
    ensures s == River <==> n != 3 && n != 4
    ensures CardsOnBoard(s) == Some(n) <==> 3 <= n <= 5
  {
    if n == 3 then Flop else if n == 4 then Turn else River
  }

  /**
   * The two namings agree on every post-flop board and disagree on every other
   * size; in particular an empty board is pre-flop to one and the river to the other.
   */
  lemma StreetNamingsAgree(n: nat)
    ensures StreetAdviseStreet(n) == BoardStreet(n) <==> 3 <= n <= 5
    ensures n == 0 ==> BoardStreet(n) == Preflop && StreetAdviseStreet(n) == River
  {
  }

  /** The advice the `/advisor` endpoint asks for. */
  datatype Route =
    | PreflopAdvice(position: string)  // decide_preflop, with the hero's position
    | PostflopAdvice                   // decide_postflop

  /** `req.position or "middle"`: a missing or empty position means "middle". */
  function PositionOrDefault(position: Option<string>): (p: string)
    ensures p != []
    ensures position.Some? && position.value != [] ==> p == position.value
    ensures !(position.Some? && position.value != []) ==> p == "middle"
  {
    if position.Some? && position.value != [] then position.value else "middle"
  }

  /**
   * The board-size dispatch of `/advisor`: no board cards is pre-flop advice,
   * 3, 4 or 5 is post-flop advice, and any other size is a 400 error naming it.
   */
  function AdvisorRoute(boardSize: nat, position: Option<string>): (r: Result<Route, RequestError>)
    ensures r.Ok? <==> IsStreetSize(boardSize)
    ensures r.Ok? ==> (r.value.PreflopAdvice? <==> boardSize == 0)
    ensures r.Ok? && r.value.PreflopAdvice? ==> r.value.position == PositionOrDefault(position)
    ensures r.Err? ==> r.error == BadBoardSize(boardSize)
  {
    if boardSize == 0 then Ok(PreflopAdvice(PositionOrDefault(position)))
    else if boardSize == 3 || boardSize == 4 || boardSize == 5 then Ok(PostflopAdvice)
    else Err(BadBoardSize(boardSize))
  }

  /**
   * `/advisor` accepts exactly the boards `parse_simple_input` can name, and
   * gives pre-flop advice exactly on its pre-flop street.
   */
  lemma AdvisorAgreesWithBoardStreet(boardSize: nat, position: Option<string>)
    ensures AdvisorRoute(boardSize, position).Ok? <==> BoardStreet(boardSize) != Unknown
    ensures AdvisorRoute(boardSize, position) == Ok(PostflopAdvice) <==>
            BoardStreet(boardSize) in {Flop, Turn, River}
  {
  }

  /** The inputs `/street-advise` builds its street state from. */
  datatype StreetInputs = StreetInputs(hero: seq<string>, board: seq<string>, street: Street)

  /**
   * Lines 187-207 of the `/street-advise` handler: the hero and board fields
   * are split on whitespace (no comma handling) and every token normalised,
   * the hero's first; a bad token raises the card error. The number of hero
   * or board cards is not checked; the street is named from the board size.
   */
  function StreetAdviseInputs(heroText: string, boardText: string): (r: Result<StreetInputs, CardError>)
    ensures r.Ok? ==> && (forall i :: 0 <= i < |r.value.hero| ==> IsCard(r.value.hero[i]))
                      && (forall i :: 0 <= i < |r.value.board| ==> IsCard(r.value.board[i]))
                      && (CardsOnBoard(r.value.street) == Some(|r.value.board|) <==> 3 <= |r.value.board| <= 5)
    ensures r.Ok? ==> r.value.street == StreetAdviseStreet(|r.value.board|)
  {
    var hero := NormalizeAll(Split(Strip(heroText)));
    var board := NormalizeAll(Split(Strip(boardText)));
    NormalizeAllCards(Split(Strip(heroText)));
    NormalizeAllCards(Split(Strip(boardText)));
    if hero.Err? then Err(hero.error)
    else if board.Err? then Err(board.error)
    else Ok(StreetInputs(hero.value, board.value, StreetAdviseStreet(|board.value|)))
  }

  /**
   * The fields are read word by word: the handler succeeds exactly when every
   * hero word and every board word is a card, the cards are those words
   * normalised in order, and a bad hero word is reported even when the board
   * is bad too.
   */
  lemma StreetAdviseInputsSpec(heroText: string, boardText: string)
    ensures var r, hw, bw := StreetAdviseInputs(heroText, boardText), Split(heroText), Split(boardText);
      r.Ok? <==> (forall i :: 0 <= i < |hw| ==> NormalizeCard(hw[i]).Ok?)
                 && (forall i :: 0 <= i < |bw| ==> NormalizeCard(bw[i]).Ok?)
    ensures var r, hw, bw := StreetAdviseInputs(heroText, boardText), Split(heroText), Split(boardText);
      r.Ok? ==> && |r.value.hero| == |hw| && |r.value.board| == |bw|
                && (forall i :: 0 <= i < |hw| ==> NormalizeCard(hw[i]) == Ok(r.value.hero[i]))
                && (forall i :: 0 <= i < |bw| ==> NormalizeCard(bw[i]) == Ok(r.value.board[i]))
    ensures var r, hw := StreetAdviseInputs(heroText, boardText), Split(heroText);
      NormalizeAll(hw).Err? ==> r == Err(NormalizeAll(hw).error)
  {
    SplitStrip(heroText);
    SplitStrip(boardText);
    MapAllOk(NormalizeCard, Split(heroText));
    MapAllOk(NormalizeCard, Split(boardText));
  }

  /** Hero and board cards written with single spaces are read back as they are, whatever their number. */
  lemma StreetAdviseInputsRoundTrip(hero: seq<string>, board: seq<string>)
    requires forall k :: 0 <= k < |hero| ==> IsCard(hero[k])
    requires forall k :: 0 <= k < |board| ==> IsCard(board[k])
    ensures StreetAdviseInputs(JoinSpaced(hero), JoinSpaced(board)) ==
            Ok(StreetInputs(hero, board, StreetAdviseStreet(|board|)))
  {
    SpacedCardsSplit(hero);
    SpacedCardsSplit(board);
    NormalizeAllFixesCards(hero);
    NormalizeAllFixesCards(board);
  }

  /** Cards joined with single spaces split, even after stripping, into the same cards. */
  lemma SpacedCardsSplit(cards: seq<string>)
    requires forall k :: 0 <= k < |cards| ==> IsCard(cards[k])
    ensures Split(Strip(JoinSpaced(cards))) == cards
  {
    forall k | 0 <= k < |cards|
      ensures IsToken(cards[k])
    {
      CardIsToken(cards[k]);
    }
    SplitJoinSpaced(cards);
    SplitStrip(JoinSpaced(cards));
  }
}
