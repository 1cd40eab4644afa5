# Poker advisor: text-level input handling

A Dafny model of how the poker advisor's web service turns the text a player
types into cards, a street, a position, a player count and a facing bet. The
model covers two files. Both are modelled as pure functions over `seq<char>`.

`app/main.py`:

- `normalize_card` checks one card token and writes it as an upper-case rank
  and a lower-case suit.
- `parse_two_card_hand` reads the hero's two cards from hand text.
- `parse_board` reads a board of community cards and checks how many there are.
- The `/street-advise` handler normalises the hero and board fields and names
  the street from the board size.
- The `/advisor` endpoint dispatches on the board size.

`app/utils.py`:

- `parse_simple_input` reads hero cards, board, player count, position and
  street out of free text.
- `parse_facing_bets` reads the aggressor, the bet size and the action out of
  a phrase such as "UTG raises to 3bb".

Modules:

- `Outcome` holds the `Option` and `Result` types and two list combinators:
  - `MapAll` is a list comprehension that stops at the first error.
  - `FirstWhere` is a `for ... break` search.
- `Text` models the parts of Python's `str` the parsers rely on:
  - `strip()`, `split()`, `lower()`, `upper()`;
  - the `replace(",", " ")` comma replacement;
  - the `in` substring test, `startswith`, and runs of digits.
- `Cards` models the card, hand and board parsing of `app/main.py`.
- `Streets` models the three ways the service names a street, and the
  `/advisor` dispatch.
- `Patterns` models the three regular expressions that `app/utils.py` searches
  for, written as scanners. Lemmas relate each scanner to the pattern's
  literal meaning.
- `SimpleInput` models `parse_simple_input`.
- `FacingBets` models `parse_facing_bets`.
- `FacingBetsExamples` states what the model gives for the docstring phrase
  and the unit-test phrases.

Errors the source raises become `Err` values:

- `ValueError` from `normalize_card` becomes a `CardError`: `TooShort`,
  `BadRank` or `BadSuit`.
- The HTTP 400 errors become a `RequestError`.

## Model

| member | source | states |
|---|---|---|
| Cards.NormalizeCard | app/main.py:34-50 | A token that normalises gives a card: an upper-case rank from `23456789TJQKA` followed by a lower-case suit from `cdhs`. |
| Cards.NormalizeCardSpec | app/main.py:38-48 | The token is accepted exactly when its stripped text has at least two characters, the first a rank letter and the second a suit letter, in either case. The card agrees with those two characters up to case. Every error quotes the stripped token. It is "too short" exactly under two characters, and a bad rank is reported before a bad suit. |
| Cards.NormalizeCardFixesCards | app/main.py:34-50 | A card already in normal form is returned unchanged. |
| Cards.NormalizeCardIdempotent | app/main.py:34-50 | Normalising a normalised card gives it back. |
| Cards.NormalizeCardIgnoresPadding | app/main.py:38 | Whitespace around the token changes neither the card nor the error. |
| Cards.NormalizeCardIgnoresCase | app/main.py:42-43 | Two tokens that agree up to case both succeed with the same card, or both fail with the same kind of error. |
| Cards.NormalizeCardIgnoresTail | app/main.py:42-50 | Characters after a well-formed card are ignored: `Asx` gives `As`. |
| Cards.NormalizeAll | app/main.py:74 | The comprehension (also at line 89) gives one card per token, in order, each the token normalised. Otherwise it gives the error of the first token that is no card, with every earlier token a card. |
| Cards.NormalizeAllCards | app/main.py:74 | Normalising a list of tokens yields only cards in normal form. |
| Cards.NormalizeAllFixesCards | app/main.py:74 | A list of normal-form cards normalises to itself. |
| Cards.ParseTwoCardHand | app/main.py:53-76 | A parsed hand is exactly two valid cards. Otherwise the error is "could not parse" or an invalid hero hand. |
| Cards.ParseTwoCardHandSpec | app/main.py:62-76 | Commas count as spaces. "Could not parse" happens exactly when there is no word, or one word that is not four characters long. With two or more words the first two are the cards. A lone four-character word is split into two halves. |
| Cards.ParseTwoCardHandRoundTrip | app/main.py:62-74 | Two cards written back to back, space-separated or comma-separated all parse to those two cards, in order. |
| Cards.ParseTwoCardHandIgnoresExtraWords | app/main.py:68-69 | With two or more words, the words after the second do not change the result. |
| Cards.ParseBoard | app/main.py:79-99 | An accepted board has between `min_cards` and `max_cards` cards, all valid. A rejection is one of "required", "invalid board cards" or "wrong count". |
| Cards.ParseBoardSpec | app/main.py:83-97 | The checks run in source order. Blank text (after comma replacement) is "required". Then a bad word is reported with its card error. Only then is a count outside the window reported, with the count. Otherwise the cards are the words normalised in order. |
| Cards.ParseBoardOk | app/main.py:83-99 | A board is accepted exactly when it has words, all words are cards and their number is in the window. The i-th card is the i-th word normalised. |
| Cards.ParseBoardRoundTrip | app/main.py:83-99 | Space-separated cards parse back to the same cards. An empty list gives "required" and a count outside the window gives the count error. |
| Streets.BoardStreet | app/utils.py:52-61 | 0, 3, 4 and 5 board cards name pre-flop, flop, turn and river, each carrying its own card count. Every other size is "unknown". |
| Streets.BoardStreetInverse | app/utils.py:52-61 | Every real street is named back from its own board size. |
| Streets.StreetAdviseStreet | app/main.py:207 | `/street-advise` always names flop, turn or river. It names the river exactly when the board does not have 3 or 4 cards. The name matches the board size exactly for 3, 4 and 5 cards. |
| Streets.StreetNamingsAgree | app/main.py:207 | The `/street-advise` naming agrees with the `parse_simple_input` naming exactly on 3 to 5 cards. An empty board is pre-flop to one and the river to the other. |
| Streets.PositionOrDefault | app/main.py:230 | A missing or empty position becomes "middle". Any other position is kept. The result is never empty. |
| Streets.AdvisorRoute | app/main.py:227-243 | `/advisor` accepts exactly 0, 3, 4 or 5 board cards. It asks for pre-flop advice exactly when the board is empty, with the position defaulted. Any other size is the 400 error. |
| Streets.AdvisorAgreesWithBoardStreet | app/main.py:227-243 | `/advisor` accepts exactly the boards `parse_simple_input` can name. It gives post-flop advice exactly on flop, turn and river. |
| Streets.StreetAdviseInputs | app/main.py:187-207 | `/street-advise` yields only valid cards for hero and board, whatever their number. The street is the `/street-advise` naming of the board size, so it fits the size exactly for 3 to 5 cards. |
| Streets.StreetAdviseInputsSpec | app/main.py:187-193 | The handler succeeds exactly when every hero word and every board word is a card. The cards are the words normalised in order. A bad hero card is reported before a bad board card. |
| Streets.StreetAdviseInputsRoundTrip | app/main.py:187-207 | Space-separated hero and board cards are read back as they are, and the street is named from the board size. |
| Patterns.MatchesAt | app/utils.py:30-35 | Where each regular expression matches (the size pattern is the one at line 95): `(\d+)\s*players?` at a digit whose run of digits and whitespace is followed by "player"; `/\s*(\d+)` at a slash followed by optional whitespace and a digit; `(\d+(\.\d+)?)\s*(bb\|x)?` at any digit. The optional tails never decide a match. |
| Patterns.Group | app/utils.py:30-37 | `group(1)` of a match (also read at line 96) is a non-empty run of digits that starts where the digits group starts and is not followed by another digit. |
| Patterns.Fraction | app/utils.py:95-96 | The optional `(\.\d+)` after the integer digits is present exactly when a point and a digit follow them. It is then the whole run of digits after the point. |
| Patterns.PlayerCountWitness | app/utils.py:30-32 | The converse of `PlayerCountUnique`: a scanner match is a literal reading of `(\d+)\s*players?`, with digits, then whitespace, then "player". |
| Patterns.Search | app/utils.py:30 | `re.search` returns the leftmost index where the pattern matches, or nothing when there is no match. |
| Patterns.SearchFindsLeftmost | app/utils.py:30-37 | A match with none before it is the one the search finds. There is no match exactly when the search finds none. |
| Patterns.PlayerCountUnique | app/utils.py:30-32 | Any literal reading of `(\d+)\s*players?` at an index is the scanner's reading, so the count it gives is unique. |
| Patterns.SlashCountUnique | app/utils.py:35-37 | Any literal reading of `/\s*(\d+)` at an index is the scanner's reading. |
| Patterns.LeftmostCountIsWhole | app/utils.py:30-32 | The leftmost count or size starts a whole number: "12 players" gives 12, never 2. |
| SimpleInput.FindCards | app/utils.py:20-21 | Every card found is an upper-case rank and suit, and the scan finds at most one card per two characters. |
| SimpleInput.FindCardsNone | app/utils.py:20 | No card is found exactly when `[akqjt2-9][shdc]` matches nowhere. |
| SimpleInput.FindCardsFirst | app/utils.py:20-21 | The first card found is the leftmost match. The remaining cards come from the text after that match, so matches do not overlap. |
| SimpleInput.FindCardsJoinSpaced | app/utils.py:20-21 | Space-separated card words are all found, in order, upper-cased. |
| SimpleInput.Opponents | app/utils.py:29-37 | The player count is the number of the leftmost `N player(s)`. Failing that, it is the number after the leftmost `/`. Failing both, it is 1. |
| SimpleInput.DetectPosition | app/utils.py:42-47 | The position is the first keyword of the list that occurs in the text, or "middle" when none occurs. |
| SimpleInput.PositionPriority | app/utils.py:43-47 | List order decides, not text order. When a keyword occurs, the position is that keyword or one listed before it. |
| SimpleInput.Assemble | app/utils.py:23-24 | Hero followed by board is exactly the cards found. The hero holds the first two, or fewer when fewer are found. The street follows the board size. |
| SimpleInput.SimpleText | app/utils.py:15 | `text.strip().lower()` equals `text.lower().strip()`. It is empty exactly for whitespace-only text. |
| SimpleInput.ParseSimpleInput | app/utils.py:15-69 | Hero followed by board is the cards found in the stripped, lower-cased text. The hero has at most two cards. A non-empty board means the hero has two. All are upper-case cards. |
| SimpleInput.SimpleInputStreet | app/utils.py:23-61 | In terms of cards found: at most two is pre-flop, five the flop, six the turn and seven the river. Three, four or more than seven cards give "unknown". |
| SimpleInput.ParseSimpleInputIgnoresCase | app/utils.py:15 | Inputs that agree up to case parse identically. |
| SimpleInput.UpperCardNormalizes | app/utils.py:21 | A card found by `parse_simple_input` is accepted by `normalize_card` in app/main.py, which keeps its rank and lower-cases its suit. |
| SimpleInput.ParseSimpleInputRoundTrip | app/utils.py:15-24 | Space-separated lower-case card words are read back in order, upper-cased, as hero followed by board. |
| SimpleInput.HijackAddsBoardCard | app/utils.py:20-24 | As written, "As Kd hijack" gets the board `["AC"]` (the "ac" inside "hijack") and street "unknown". |
| SimpleInput.WholeCardsIgnoreLongWord | app/utils.py:20 | With whole-word matching, appending a word that is not two characters long adds no card. |
| SimpleInput.ParseSimpleInputWholeWords | app/utils.py:15-69 | The parser with whole-word card matching: hero followed by board is the whole-word cards found, with the same hero and board size rules. |
| SimpleInput.HijackWholeWords | app/utils.py:20-24 | With whole-word matching, "As Kd hijack" is the hand `AS KD`, no board, pre-flop. |
| FacingBets.AggressorUnique | app/utils.py:86-91 | A phrase starts with at most one seat code, so the order of the seat list never matters. |
| FacingBets.DetectAggressor | app/utils.py:86-91 | There is an aggressor exactly when the phrase starts with a seat code. The aggressor is that code upper-cased. |
| FacingBets.ReadSize | app/utils.py:95-96 | A size has a non-empty run of digits. A fraction, when present, is a non-empty run of digits too. |
| FacingBets.ReadSizeNone | app/utils.py:95-96 | There is a size exactly when the phrase contains a digit. |
| FacingBets.ReadSizeFirstNumber | app/utils.py:95-96 | The size is the whole number that starts at the first digit, with its fraction when a point and a digit follow. |
| FacingBets.DigitsAtUnique | app/utils.py:95 | The greedy `\d+` reading at an index is unique. |
| FacingBets.ClassifyAction | app/utils.py:99-108 | An action (always a raise) is reported exactly when "raise", "bet" or "open" occurs in the phrase. |
| FacingBets.FacingText | app/utils.py:83 | `text.lower().strip()` equals `text.strip().lower()`. It is empty exactly for whitespace-only text. |
| FacingBets.ParseFacingBets | app/utils.py:80-83 | Blank input gives no action, no aggressor and no size. Any other input is read from its lower-cased, stripped text. |
| FacingBets.BlankReadsNothing | app/utils.py:80-83 | The early return for blank input agrees with reading the blank text normally. |
| FacingBetsExamples.CoBets10 | tests/test_parsing.py:4-9 | "CO bets 10" gives aggressor CO, size 10 and a raise. |
| FacingBetsExamples.UtgRaisesTo3bb | tests/test_parsing.py:11-16 | "UTG raises to 3bb" gives aggressor UTG, size 3 and a raise. |
| FacingBetsExamples.BtnBets2Point5 | tests/test_parsing.py:18-23 | "BTN bets 2.5" gives aggressor BTN, size 2.5 and a raise. |
| FacingBetsExamples.SbOpens3x | tests/test_parsing.py:25-29 | "SB opens 3x" gives aggressor SB, size 3 and a raise. |
| FacingBetsExamples.Co3betTo12bb | app/utils.py:76 | "CO 3bet to 12bb" gives size 3, from "3bet", not 12. |
| Text.Strip | app/main.py:38 | `strip()` (also at main.py lines 62 and 83) gives the slice of the text after its leading whitespace, with only whitespace after the slice. The slice neither starts nor ends with whitespace. |
| Text.Split | app/main.py:63 | `split()` (also at main.py lines 87 and 192-193) gives words that are non-empty and free of whitespace. |
| Text.Lower | app/utils.py:15 | `lower()` keeps the length and leaves no upper-case ASCII letter. Every character is kept or is an upper-case letter moved to its lower-case one. |
| Text.LowerIdempotent | app/utils.py:15 | Lower-casing twice is lower-casing once. |
| Text.Upper | app/utils.py:21 | `upper()` keeps the length and leaves no lower-case ASCII letter. Every character is kept or is a lower-case letter moved to its upper-case one. |
| Text.UpperOfLower | app/utils.py:15-21 | Upper-casing after lower-casing is upper-casing the original. |
| Text.ReplaceCommas | app/main.py:62 | `replace(",", " ")` keeps the length and leaves no comma. Every comma becomes a space and every other character is kept. |
| Text.ReplaceCommasNoComma | app/main.py:62 | Text without a comma is left alone. |
| Text.DigitsValue | app/utils.py:32 | `int()` of a run of `k` digits is a number below `10 ** k`. |
| Text.DigitsValueOfDecimal | app/utils.py:32 | `int(str(n)) == n`: reading the decimal digits of a number gives the number back. |
| Text.DigitsValueLeadingZero | app/utils.py:32 | A leading zero does not change the value `int()` reads. |
| Text.StripPadding | app/main.py:38 | Extra whitespace around a string does not change what `strip()` returns. |
| Text.StripEmpty | app/utils.py:80 | `strip()` gives the empty string exactly on whitespace-only text. |
| Text.LowerStrip | app/utils.py:83 | Lower-casing and stripping commute. |
| Text.SplitStrip | app/main.py:62-63 | Splitting stripped text gives the same words as splitting the text. |
| Text.SplitEmpty | app/main.py:84 | `split()` gives no words exactly on whitespace-only text. |
| Text.SplitJoinSpaced | app/main.py:63 | Splitting words joined with single spaces gives the words back. |
| Text.ContainsIff | app/utils.py:45 | The substring test `p in t` holds exactly when `p` occurs at some index of `t`. |
| Outcome.MapAll | app/main.py:74 | A list comprehension over a raising function either gives one result per element, in order, or the error of the first element that raises. |
| Outcome.FirstWhere | app/utils.py:44-47 | A `for ... break` search gives the first index that satisfies the test, or nothing when no index does. |

## Left out

- The hand evaluation and equity simulation (`eval7`), the decision rules (`decide_preflop`, `decide_postflop`, `parse_villain_action`) and the request models are not part of this model. The dispatch ends in a `Route` value naming which decision the handler calls.
- HTTP, form decoding, HTML templates, the Azure deployment glue and the debug `print` calls are left out. Handlers are modelled from the moment they hold the field texts.
- A missing form field or request field (`None`, or `or ""` / `or []` in the source) is modelled as the empty string or the empty list.
- `float(size)` in `parse_facing_bets` and `float(pot)` in `/street-advise` are left out. Floating point is outside the model, so the size is the `Decimal` digit strings the float is read from.
- `int(opponents)` in `/street-advise` (app/main.py:195) and its `ValueError` are left out, as are the position and action fields of that handler. Only the hero, board and street are modelled.
- Unicode case mapping, Unicode digits and Unicode `\w` are left out. Case mapping, `\d` and `\w` are ASCII only. Whitespace is the full set Python's `str.isspace()` accepts.
- `FacingBets.ClassifyAction`: every branch of the cascade reports `raise`, so the model has a single action. The tests at tests/test_parsing.py:8, 22 and 28 expect "bet" and "open". The code as written reports "raise" for those phrases, and the model follows the code, so those three assertions would fail.
- `SimpleInput.Opponents`: `int()` on the matched digits is modelled as their decimal value, for any number of digits. Python 3.11 and later refuse to convert a decimal string of more than 4300 digits by default (`ValueError`), so a 4301-digit "N players" or "/ N" makes `parse_simple_input` raise where the model returns the number. Python's `int()` also accepts Unicode digits, which are outside the model.

## Findings

| source | as written | input that shows it | evidently intended | confidence | as-written member | corrected member |
|---|---|---|---|---|---|---|
| app/utils.py:20 | `re.findall(r"[akqjt2-9][shdc]", t)` matches a rank and a suit anywhere, also inside words. The position keyword "hijack", which the same function looks for, contains "ac". | "As Kd hijack" gives hero `AS KD`, board `AC`, street "unknown". | Cards are matched as whole words (`\b[akqjt2-9][shdc]\b`), so "As Kd hijack" is the hand alone, pre-flop, in the hijack. This correction has a cost: `\b` finds no boundary inside compact text such as "AsKd", so the whole-word scan reads no card there, while the scan as written reads two. | medium, not executed | SimpleInput.HijackAddsBoardCard | SimpleInput.ParseSimpleInputWholeWords |
