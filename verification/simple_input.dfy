/**
 * `parse_simple_input` (`app/utils.py`): reads hero cards, board cards, the
 * number of players, a position keyword and the street out of free text such
 * as "I have As Kd on Ts 9s 2d vs 3 players". The text is stripped and
 * lower-cased first; every search below runs on that lower-cased text.
 */
module SimpleInput {
  import opened Outcome
  import opened Text
  import opened Cards
  import opened Streets
  import opened Patterns

  // ---------------------------------------------------------------------------
  // the card scan: re.findall(r"[akqjt2-9][shdc]", t)
  // ---------------------------------------------------------------------------

  /** `[akqjt2-9]` */
  const RankLetters: set<char> := {'a', 'k', 'q', 'j', 't', '2', '3', '4', '5', '6', '7', '8', '9'}

  /** `[shdc]` */
  const SuitLetters: set<char> := {'s', 'h', 'd', 'c'}

  /** A card pattern match at `i`: a rank letter followed by a suit letter. */
  predicate CardAt(t: string, i: nat)
    requires i + 2 <= |t|
  {
    t[i] in RankLetters && t[i + 1] in SuitLetters
  }

  /** A card as `parse_simple_input` reports it: rank and suit both upper-case, e.g. `AS`. */
  predicate IsUpperCard(c: string)
  {
    |c| == 2 && c[0] in Ranks && c[1] in {'S', 'H', 'D', 'C'}
  }

  /** The upper-cased text of a card match is a card in that form. */
  lemma UpperCardAt(t: string, i: nat)
    requires i + 2 <= |t| && CardAt(t, i)
    ensures IsUpperCard(Upper(t[i..i + 2]))
  {
    var u := Upper(t[i..i + 2]);
    assert u[0] == UpperChar(t[i]) && u[1] == UpperChar(t[i + 1]);
  }

  /**
   * `[c.upper() for c in re.findall(r"[akqjt2-9][shdc]", t)]`: the matches
   * from left to right, each search resuming after the previous match.
   */
  function FindCards(t: string): (r: seq<string>)
    ensures forall k :: 0 <= k < |r| ==> IsUpperCard(r[k])
    ensures 2 * |r| <= |t|
    decreases |t|
  {
    if |t| < 2 then []
    else if CardAt(t, 0) then
      UpperCardAt(t, 0);
      [Upper(t[..2])] + FindCards(t[2..])
    else FindCards(t[1..])
  }

  /** No card is found exactly when the pattern matches nowhere in the text. */
  lemma {:induction false} FindCardsNone(t: string)
    ensures FindCards(t) == [] <==> forall i :: 0 <= i && i + 2 <= |t| ==> !CardAt(t, i)
    decreases |t|
  {
    if |t| >= 2 && !CardAt(t, 0) {
      FindCardsNone(t[1..]);
      assert forall i :: 0 <= i && i + 2 <= |t[1..]| ==> (CardAt(t[1..], i) <==> CardAt(t, i + 1));
      if forall i :: 0 <= i && i + 2 <= |t[1..]| ==> !CardAt(t[1..], i) {
        forall i | 0 <= i && i + 2 <= |t|
          ensures !CardAt(t, i)
        {
          if i > 0 {
            assert CardAt(t, i) == CardAt(t[1..], i - 1);
          }
        }
      }
    }
  }

  /**
   * The first card found is the leftmost match, and the rest are what the
   * scan finds after the end of that match, so matches never overlap.
   */
  lemma {:induction false} FindCardsFirst(t: string) returns (i: nat)
    requires FindCards(t) != []
    ensures i + 2 <= |t| && CardAt(t, i)
    ensures forall j :: 0 <= j < i ==> !CardAt(t, j)
    ensures FindCards(t) == [Upper(t[i..i + 2])] + FindCards(t[i + 2..])
    decreases |t|
  {
    if CardAt(t, 0) {
      i := 0;
    } else {
      var i' := FindCardsFirst(t[1..]);
      i := i' + 1;
      assert t[1..][i'..i' + 2] == t[i..i + 2];
      assert t[1..][i' + 2..] == t[i + 2..];
      forall j | 0 <= j < i
        ensures !CardAt(t, j)
      {
        if j > 0 {
          assert CardAt(t, j) == CardAt(t[1..], j - 1);
        }
      }
    }
  }

  /** A card word: two characters that the card pattern matches. */
  predicate IsCardWord(w: string)
  {
    |w| == 2 && CardAt(w, 0)
  }

  /** Each word upper-cased. */
  function UpperAll(words: seq<string>): (r: seq<string>)
    ensures |r| == |words|
    ensures forall k :: 0 <= k < |words| ==> r[k] == Upper(words[k])
  {
    seq(|words|, k requires 0 <= k < |words| => Upper(words[k]))
  }

  /** A card word followed by a space: the card is found, then the scan resumes after the space. */
  lemma FindCardsCardThenSpace(w: string, rest: string)
    requires IsCardWord(w)
    ensures FindCards(w + " " + rest) == [Upper(w)] + FindCards(rest)
  {
    var x := w + " " + rest;
    assert x[..2] == w;
    assert x[2..] == " " + rest;
    FindCardsSkipsSpace(rest);
  }

  /** A space starts no card, so the scan moves past it. */
  lemma FindCardsSkipsSpace(rest: string)
    ensures FindCards(" " + rest) == FindCards(rest)
  {
    assert (" " + rest)[1..] == rest;
    if |rest| > 0 {
      assert !CardAt(" " + rest, 0);
    }
  }

  /** Card words written with single spaces between them are all found, in order. */
  lemma {:induction false} FindCardsJoinSpaced(words: seq<string>)
    requires forall k :: 0 <= k < |words| ==> IsCardWord(words[k])
    ensures FindCards(JoinSpaced(words)) == UpperAll(words)
    decreases |words|
  {
    if |words| == 1 {
      assert words[0][..2] == words[0];
      assert words[0][2..] == [];
    } else if |words| > 1 {
      FindCardsCardThenSpace(words[0], JoinSpaced(words[1..]));
      FindCardsJoinSpaced(words[1..]);
      assert UpperAll(words) == [Upper(words[0])] + UpperAll(words[1..]);
    }
  }

  // ---------------------------------------------------------------------------
  // players, position, street
  // ---------------------------------------------------------------------------

  /**
   * The number of players: the number of the first `N players` (or
   * `N player`); failing that, the number after the first `/`; failing that, 1.
   */
  function Opponents(t: string): (n: nat)
    ensures forall i :: 0 <= i < |t| && MatchesAt(PlayerCount, t, i) && NoMatchBefore(PlayerCount, t, i) ==>
              n == GroupValue(PlayerCount, t, i)
    ensures NoMatchBefore(PlayerCount, t, |t|) ==>
              forall i :: 0 <= i < |t| && MatchesAt(SlashCount, t, i) && NoMatchBefore(SlashCount, t, i) ==>
                n == GroupValue(SlashCount, t, i)
    ensures NoMatchBefore(PlayerCount, t, |t|) && NoMatchBefore(SlashCount, t, |t|) ==> n == 1
  {
    SearchFindsLeftmost(PlayerCount, t);
    SearchFindsLeftmost(SlashCount, t);
    match Search(PlayerCount, t, 0)
    case Some(i) => GroupValue(PlayerCount, t, i)
    case None =>
      match Search(SlashCount, t, 0)
      case Some(i) => GroupValue(SlashCount, t, i)
      case None => 1
  }

  /** The position keywords, in the order they are tried. */
  const Positions: seq<string> := ["early", "middle", "late", "button", "cutoff", "utg", "hijack"]

  /**
   * The position: the first keyword of the list that occurs anywhere in the
   * text, whatever its place in the text; "middle" when none does.
   */
  function DetectPosition(t: string): (p: string)
    ensures p in Positions
    ensures forall j :: 0 <= j < |Positions| && Contains(t, Positions[j]) && (forall i :: 0 <= i < j ==> !Contains(t, Positions[i])) ==>
              p == Positions[j]
    ensures (forall j :: 0 <= j < |Positions| ==> !Contains(t, Positions[j])) ==> p == "middle"
  {
    match FirstWhere(w => Contains(t, w), Positions, 0)
    case Some(j) => Positions[j]
    case None => "middle"
  }

  /**
   * Keyword order decides, not text order: whenever a keyword occurs in the
   * text, the chosen position is that keyword or one listed before it.
   */
  lemma PositionPriority(t: string, j: nat)
    requires j < |Positions| && Contains(t, Positions[j])
    ensures exists k :: 0 <= k <= j && DetectPosition(t) == Positions[k] && Contains(t, Positions[k])
  {
    var f := FirstWhere(w => Contains(t, w), Positions, 0);
    assert f.Some?;
    assert DetectPosition(t) == Positions[f.value];
  }

  /** What `parse_simple_input` returns. */
  datatype SimpleInput = SimpleInput(street: Street, heroCards: seq<string>, board: seq<string>, position: string, opponents: nat)

  /**
   * Everything after the card scan: the first two cards found are the hero's
   * (fewer when fewer are found), the rest are the board, and the street
   * follows the board size.
   */
  function Assemble(t: string, cards: seq<string>): (r: SimpleInput)
    ensures r.heroCards + r.board == cards
    ensures |r.heroCards| == if |cards| < 2 then |cards| else 2
    ensures r.street == BoardStreet(|r.board|)
    ensures r.position == DetectPosition(t) && r.opponents == Opponents(t)
  {
    var hero := if |cards| <= 2 then cards else cards[..2];
    var board := if |cards| <= 2 then [] else cards[2..];
    SimpleInput(BoardStreet(|board|), hero, board, DetectPosition(t), Opponents(t))
  }

  /** The text every search of `parse_simple_input` runs on: `text.strip().lower()`. */
  function SimpleText(text: string): (r: string)
    ensures r == Strip(Lower(text))
    ensures r == [] <==> AllSpace(text)
  {
    LowerStrip(text);
    StripEmpty(text);
    Lower(Strip(text))
  }

  /** `parse_simple_input` */
  function ParseSimpleInput(text: string): (r: SimpleInput)
    ensures r.heroCards + r.board == FindCards(SimpleText(text))
    ensures |r.heroCards| <= 2 && (r.board != [] ==> |r.heroCards| == 2)
    ensures forall k :: 0 <= k < |r.heroCards| ==> IsUpperCard(r.heroCards[k])
    ensures forall k :: 0 <= k < |r.board| ==> IsUpperCard(r.board[k])
  {
    var t := SimpleText(text);
    AssembleUpperCards(t, FindCards(t));
    Assemble(t, FindCards(t))
  }

  /** Splitting upper-case cards into hero and board keeps them upper-case cards. */
  lemma AssembleUpperCards(t: string, cards: seq<string>)
    requires forall k :: 0 <= k < |cards| ==> IsUpperCard(cards[k])
    ensures var r := Assemble(t, cards);
      && (forall k :: 0 <= k < |r.heroCards| ==> IsUpperCard(r.heroCards[k]))
      && (forall k :: 0 <= k < |r.board| ==> IsUpperCard(r.board[k]))
  {
    var r := Assemble(t, cards);
    assert forall k :: 0 <= k < |r.heroCards| ==> r.heroCards[k] == cards[k];
    assert forall k :: 0 <= k < |r.board| ==> r.board[k] == cards[|r.heroCards| + k];
  }

  /**
   * The street in terms of the number of cards in the text: up to two cards
   * is pre-flop, five the flop, six the turn, seven the river; three, four
   * or more than seven cards give an unknown street.
   */
  lemma SimpleInputStreet(text: string)
    ensures var r, n := ParseSimpleInput(text), |FindCards(SimpleText(text))|;
      && (r.street == Preflop <==> n <= 2)
      && (r.street == Flop <==> n == 5)
      && (r.street == Turn <==> n == 6)
      && (r.street == River <==> n == 7)
      && (r.street == Unknown <==> n == 3 || n == 4 || n > 7)
  {
    var t := SimpleText(text);
    var r := ParseSimpleInput(text);
    assert r == Assemble(t, FindCards(t));
    assert |r.board| == if |FindCards(t)| <= 2 then 0 else |FindCards(t)| - 2;
  }

  /** Case does not matter anywhere in the input. */
  lemma ParseSimpleInputIgnoresCase(a: string, b: string)
    requires Lower(a) == Lower(b)
    ensures ParseSimpleInput(a) == ParseSimpleInput(b)
  {
    LowerStrip(a);
    LowerStrip(b);
  }

  /**
   * Cards found by `parse_simple_input` are accepted by the server's
   * `normalize_card`, which keeps the rank and lower-cases the suit.
   */
  lemma UpperCardNormalizes(c: string)
    requires IsUpperCard(c)
    ensures NormalizeCard(c) == Ok([c[0], LowerChar(c[1])])
  {
    assert !IsSpace(c[0]) && !IsSpace(c[1]);
    StripBetween(c, 0, 2);
    assert c[0..2] == c;
  }

  /**
   * Card words written in lower case with single spaces between them are
   * read back in order, upper-cased: the first two as the hero's cards and
   * the rest as the board.
   */
  lemma ParseSimpleInputRoundTrip(words: seq<string>)
    requires forall k :: 0 <= k < |words| ==> IsCardWord(words[k])
    ensures var r := ParseSimpleInput(JoinSpaced(words)); r.heroCards + r.board == UpperAll(words)
  {
    SimpleTextOfCardWords(words);
    FindCardsJoinSpaced(words);
  }

  /** Lower-case card words joined with single spaces are already simple text. */
  lemma SimpleTextOfCardWords(words: seq<string>)
    requires forall k :: 0 <= k < |words| ==> IsCardWord(words[k])
    ensures SimpleText(JoinSpaced(words)) == JoinSpaced(words)
  {
    forall k | 0 <= k < |words|
      ensures IsToken(words[k]) && Lower(words[k]) == words[k]
    {
      CardWordIsLowerToken(words[k]);
    }
    StripJoinSpaced(words);
    LowerJoinSpaced(words);
  }

  lemma CardWordIsLowerToken(w: string)
    requires IsCardWord(w)
    ensures IsToken(w) && Lower(w) == w
  {
    assert !IsSpace(w[0]) && !IsSpace(w[1]);
    assert Lower(w)[0] == w[0] && Lower(w)[1] == w[1];
  }

  // ---------------------------------------------------------------------------
  // cards inside words
  // ---------------------------------------------------------------------------

  /** The card scan also matches inside longer words: the "ac" of "hijack" is read as a card. */
  lemma HijackHoldsACard()
    ensures FindCards("hijack") == ["AC"]
  {
    assert "hijack"[1..] == "ijack";
    assert "ijack"[1..] == "jack";
    assert "jack"[1..] == "ack";
    assert "ack"[..2] == "ac" && "ack"[2..] == "k";
    assert Upper("ac") == "AC";
  }

  /**
   * The hero's hand followed by the position keyword "hijack" gets a one-card
   * board, so the street is unknown instead of pre-flop.
   */
  lemma HijackAddsBoardCard()
    ensures ParseSimpleInput("As Kd hijack").board == ["AC"]
    ensures ParseSimpleInput("As Kd hijack").street == Unknown
  {
    HijackText();
    HijackCards();
    var t := "as kd hijack";
    assert ParseSimpleInput("As Kd hijack") == Assemble(t, FindCards(t));
  }

  lemma HijackText()
    ensures SimpleText("As Kd hijack") == "as kd hijack"
  {
    LowerText("As Kd hijack", "as kd hijack");
  }

  lemma HijackCards()
    ensures FindCards("as kd hijack") == ["AS", "KD", "AC"]
  {
    assert "as kd hijack" == "as" + " " + "kd hijack";
    FindCardsCardThenSpace("as", "kd hijack");
    KdHijackCards();
    assert Upper("as") == "AS";
  }

  lemma KdHijackCards()
    ensures FindCards("kd hijack") == ["KD", "AC"]
  {
    assert "kd hijack" == "kd" + " " + "hijack";
    FindCardsCardThenSpace("kd", "hijack");
    HijackHoldsACard();
    assert Upper("kd") == "KD";
  }

  /** Text without surrounding whitespace is only lower-cased. */
  lemma LowerText(text: string, t: string)
    requires |text| > 0 && !IsSpace(text[0]) && !IsSpace(text[|text| - 1])
    requires Lower(text) == t
    ensures SimpleText(text) == t
  {
    StripBetween(text, 0, |text|);
    assert text[0..|text|] == text;
  }

  /** `\w` on ASCII: a letter, a digit or the underscore. */
  predicate IsWordChar(c: char)
  {
    'a' <= c <= 'z' || 'A' <= c <= 'Z' || '0' <= c <= '9' || c == '_'
  }

  /** A card match at `i` that is a whole word: `\b[akqjt2-9][shdc]\b`. */
  predicate WholeCardAt(t: string, i: nat)
    requires i + 2 <= |t|
  {
    && CardAt(t, i)
    && (i == 0 || !IsWordChar(t[i - 1]))
    && (i + 2 == |t| || !IsWordChar(t[i + 2]))
  }

  /** The scan for whole-word cards from index `i` on, each search resuming after the previous match. */
  function FindWholeCardsFrom(t: string, i: nat): (r: seq<string>)
    requires i <= |t|
    ensures forall k :: 0 <= k < |r| ==> IsUpperCard(r[k])
    decreases |t| - i
  {
    if i + 2 > |t| then []
    else if WholeCardAt(t, i) then
      UpperCardAt(t, i);
      [Upper(t[i..i + 2])] + FindWholeCardsFrom(t, i + 2)
    else FindWholeCardsFrom(t, i + 1)
  }

  /** `re.findall(r"\b[akqjt2-9][shdc]\b", t)`, upper-cased: the card scan restricted to whole words. */
  function FindWholeCards(t: string): seq<string>
  {
    FindWholeCardsFrom(t, 0)
  }

  /** After a non-word character the scan starts afresh: what comes before it does not matter. */
  lemma {:induction false} WholeCardsShift(p: string, rest: string, i: nat)
    requires |p| > 0 && !IsWordChar(p[|p| - 1])
    requires i <= |rest|
    ensures FindWholeCardsFrom(p + rest, |p| + i) == FindWholeCardsFrom(rest, i)
    decreases |rest| - i
  {
    var x := p + rest;
    assert forall k :: 0 <= k < |rest| ==> x[|p| + k] == rest[k];
    if i + 2 <= |rest| {
      assert i == 0 ==> x[|p| + i - 1] == p[|p| - 1];
      assert WholeCardAt(x, |p| + i) == WholeCardAt(rest, i);
      assert x[|p| + i..|p| + i + 2] == rest[i..i + 2];
      WholeCardsShift(p, rest, i + 1);
      if i + 2 <= |rest| {
        WholeCardsShift(p, rest, i + 2);
      }
    }
  }

  /** A word of two or more than two word characters that is not two long holds no whole-word card. */
  lemma {:induction false} NoWholeCardInLongWord(w: string, i: nat)
    requires |w| != 2 && i <= |w|
    requires forall k :: 0 <= k < |w| ==> IsWordChar(w[k])
    ensures FindWholeCardsFrom(w, i) == []
    decreases |w| - i
  {
    if i + 2 <= |w| {
      assert !WholeCardAt(w, i) by {
        if i == 0 {
          assert IsWordChar(w[2]);
        } else {
          assert IsWordChar(w[i - 1]);
        }
      }
      NoWholeCardInLongWord(w, i + 1);
    }
  }

  /** Text followed by a space and more text: up to the space the scan sees the same cards as in the text alone. */
  lemma {:induction false} WholeCardsPrefix(t: string, rest: string, i: nat)
    requires i <= |t|
    ensures FindWholeCardsFrom(t + " " + rest, i) ==
            FindWholeCardsFrom(t, i) + FindWholeCardsFrom(t + " " + rest, |t| + 1)
    decreases |t| - i
  {
    var x := t + " " + rest;
    assert x[|t|] == ' ';
    if i + 2 <= |t| {
      WholeCardAtPrefix(t, rest, i);
      WholeCardsPrefix(t, rest, i + 1);
      WholeCardsPrefix(t, rest, i + 2);
    } else if i + 1 == |t| {
      assert !CardAt(x, i);
      WholeCardsPrefix(t, rest, i + 1);
    } else if i + 2 <= |x| {
      assert !CardAt(x, i);
    }
  }

  /** Inside the text, a space after it looks to the scan just like the end of the text. */
  lemma WholeCardAtPrefix(t: string, rest: string, i: nat)
    requires i + 2 <= |t|
    ensures var x := t + " " + rest;
      WholeCardAt(x, i) == WholeCardAt(t, i) && x[i..i + 2] == t[i..i + 2]
  {
    var x := t + " " + rest;
    assert forall k :: 0 <= k < |t| ==> x[k] == t[k];
    assert x[|t|] == ' ';
  }

  /**
   * With whole-word matching, appending a word that is not two characters
   * long, such as a position keyword, adds no card.
   */
  lemma WholeCardsIgnoreLongWord(t: string, w: string)
    requires |w| != 2
    requires forall k :: 0 <= k < |w| ==> IsWordChar(w[k])
    ensures FindWholeCards(t + " " + w) == FindWholeCards(t)
  {
    WholeCardsPrefix(t, w, 0);
    assert t + " " + w == (t + " ") + w;
    WholeCardsShift(t + " ", w, 0);
    NoWholeCardInLongWord(w, 0);
  }

  /** `parse_simple_input` with the card scan restricted to whole words. */
  function ParseSimpleInputWholeWords(text: string): (r: SimpleInput)
    ensures r.heroCards + r.board == FindWholeCards(SimpleText(text))
    ensures |r.heroCards| <= 2 && (r.board != [] ==> |r.heroCards| == 2)
  {
    var t := SimpleText(text);
    Assemble(t, FindWholeCards(t))
  }

  /** With whole-word matching, "As Kd hijack" is the hero's hand and no board: pre-flop. */
  lemma HijackWholeWords()
    ensures ParseSimpleInputWholeWords("As Kd hijack").heroCards == ["AS", "KD"]
    ensures ParseSimpleInputWholeWords("As Kd hijack").board == []
    ensures ParseSimpleInputWholeWords("As Kd hijack").street == Preflop
  {
    HijackText();
    assert "as kd hijack" == "as kd" + " " + "hijack";
    WholeCardsIgnoreLongWord("as kd", "hijack");
    WholeCardsOfHand();
  }

  lemma WholeCardsOfHand()
    ensures FindWholeCards("as kd") == ["AS", "KD"]
  {
    var h := "as kd";
    assert WholeCardAt(h, 0);
    assert h[0..2] == "as";
    assert !WholeCardAt(h, 2);
    assert WholeCardAt(h, 3);
    assert h[3..5] == "kd";
    assert Upper("as") == "AS" && Upper("kd") == "KD";
  }
}
