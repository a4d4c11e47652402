# Advent of Code 2023 solutions, days 1, 2, 4, 5 and 8, in Dafny

This project models the Rust solutions of five puzzles of Advent of Code
2023 and proves what each of them computes.

- **Day 1, calibration digits** (`calibration.dfy`). Each line yields its
  first and last digit. A digit is written either as a digit or spelled out,
  "one" to "nine". Two scans run side by side, one from the front of the line
  and one from the back, and their digits are joined into a two-digit number.
- **Day 2, cube games.** Game lines are lexed into tokens and parsed into
  games (`cube_parser.dfy`). A game is possible when every set it shows fits
  a bag of 12 red, 13 green and 14 blue cubes. The minimum set of a game is
  the colour-by-colour maximum of its sets, and its power is the product of
  its three counts (`cube_game.dfy`). `cube_format.dfy` gives the line format
  and proves that formatted games lex and parse back to themselves.
- **Day 4, scratchcards.** A card scores by its matches, the played numbers
  that are also winning numbers. In the copy cascade each card wins copies of
  the cards after it (`scratchcards.dfy`). The card lexer and parser are in
  `card_parser.dfy`, and the round trip of the card format is in
  `card_format.dfy`.
- **Day 5, the almanac.** Numbers are translated from seed to location
  through a chain of category tables. Each table is a list of range rules
  held in an augmented interval tree:
  - range arithmetic, `intervals.dfy`;
  - the tree, `range_tree.dfy`, a class updated in place beside a datatype of
    its shape;
  - the table, `range_map.dfy`, with a scalar lookup and a range splitter;
  - the chain walker, `number_mapper.dfy`;
  - the almanac lexer, `almanac_lexer.dfy`;
  - the almanac parser, `almanac_parser.dfy`.
- **Day 8, the desert network.** A walk through a node map follows a cycling
  list of left/right steps (`network.dfy`). Several walks are combined by the
  least common multiple of their step counts, computed by Euclid's `gcd`
  (`gcd_lcm.dfy`). The input parser is in `network_parser.dfy`.

`chars.dfy` holds the character and sequence helpers the lexers share:
- digits and their values;
- the `get_number` digit loop;
- substring search (`str::contains`) and `str::split` on one character.

`wrappers.dfy` holds `Option`.

Code that updates state step by step is written as methods, and each method
is proved against a specification function. Examples:
- `get_digits`, `navigate_imp` and the lexers' `while let` loops;
- the `parse_*` loops over peekable token iterators;
- the copy loop of `get_card_copies_total`;
- the in-place tree insertion.

Expression code is written as functions and lemmas. A Rust panic or a loop
that never ends becomes a precondition, except in the findings below, which
are modelled as written.

## Model

Each member whose own contract states something about the source has a row.
This includes the reference functions that define what a source function
computes; their rows name the lemmas that state the rest. A reference
function without a contract of its own has no row: the rows of the lemmas
about it name it. Proof steps and the text builders used by the round trips
have no row.

| member | source | states |
|---|---|---|
| Chars.ReadNumber | 2023/day-4/src/main.rs:77-84 | `get_number` (also day 2, lines 63-70, and day 5's `lex_number`): None at the end of input, or after consuming one non-digit; otherwise it consumes the maximal digit run and returns its base-10 value |
| Chars.ValueOfRender | 2023/day-4/src/main.rs:77-84 | a number written in decimal is read back as the same number |
| Chars.RunEndRender | 2023/day-4/src/main.rs:79 | the digit run of a rendered number ends exactly where the number does, when a non-digit follows |
| Chars.SplitOn | 2023/day-8/src/main.rs:42 | `str::split` on one character: the first piece is the longest prefix without the separator, and there are two or more pieces iff the separator occurs |
| Chars.SplitOnJoin | 2023/day-8/src/main.rs:42 | the text before the first separator is the first piece, and the rest splits on its own |
| Chars.ContainsWitness | 2023/day-1/src/main.rs:19 | `str::contains` succeeds only where the word really occurs |
| Chars.DigitValue | 2023/day-4/src/main.rs:78-80 | a digit character has a value below 10 |
| Chars.DigitChar | 2023/day-1/src/main.rs:54 | each value below 10 has a digit character that reads back as it |
| Chars.Render | 2023/day-1/src/main.rs:54 | decimal writing of a number: digits only, never empty, and no leading zero |
| Chars.RunEnd | 2023/day-4/src/main.rs:79-82 | the peek-ahead digit loop stops at the end of the maximal digit run |
| Chars.RunEndSuffix | 2023/day-4/src/main.rs:79-82 | the end of a digit run does not depend on the text before it |
| Chars.ValueOfSnoc | 2023/day-4/src/main.rs:80 | each further digit makes the value ten times larger plus that digit |
| Chars.ContainsAt | 2023/day-1/src/main.rs:19 | `str::contains` finds every occurrence at or after where it starts looking |
| Chars.NotContainsJoin | 2023/day-5/src/main.rs:352-355 | a separator a word never uses cannot create an occurrence of that word |
| Chars.SplitOnNone | 2023/day-8/src/main.rs:42 | text without the separator splits into itself alone |
| Calibration.FirstNamed | 2023/day-1/src/main.rs:5-24 | the word search of `get_digit_by_name` returns a digit between 1 and 9 |
| Calibration.FirstNamedOccurs | 2023/day-1/src/main.rs:18-23 | the word returned occurs in the slice and no earlier word does; None iff no word occurs |
| Calibration.DigitByName | 2023/day-1/src/main.rs:5-24 | the loop with its early return computes the first word, in "one".."nine" order, that occurs anywhere in the slice |
| Calibration.FrontFrom | 2023/day-1/src/main.rs:33-41 | the front scan reads a digit at most 9: the digit character itself, or the first word in the prefix reaching one character past it |
| Calibration.BackFrom | 2023/day-1/src/main.rs:42-51 | the back scan reads a digit at most 9: the digit character, or the first word in the suffix from it |
| Calibration.JoinDigits | 2023/day-1/src/main.rs:54-56 | `format!` then `parse` of the two digits is 10·first + second, with 0 for a missing side |
| Calibration.FrontRound | 2023/day-1/src/main.rs:33-41 | one front step either finds the digit the front scan reads or leaves it to the next position |
| Calibration.BackRound | 2023/day-1/src/main.rs:42-51 | one back step either finds the digit the back scan reads or leaves it to the next position |
| Calibration.EmptyLineDigits | 2023/day-1/src/main.rs:32-56 | an empty line stays in bounds and yields 0 |
| Calibration.DigitLineDigits | 2023/day-1/src/main.rs:32-56 | a line of digits yields 10·(first digit) + (last digit) |
| Calibration.FrontAdvance | 2023/day-1/src/main.rs:32-41 | a front step that finds nothing keeps the scan invariant |
| Calibration.BackAdvance | 2023/day-1/src/main.rs:42-51 | a back step that finds nothing keeps the scan invariant |
| Calibration.GetDigits | 2023/day-1/src/main.rs:26-57 | `get_digits`, where its front slice stays in bounds, returns 10·(front digit) + (back digit), which is at most 99 |
| Calibration.Leftmost | 2023/day-1/src/main.rs:26-57 | the first digit in reading order is a digit at most 9 |
| Calibration.ShortHasNoName | 2023/day-1/src/main.rs:6-16 | text shorter than three characters names no digit |
| Calibration.NewNameEndsInLetter | 2023/day-1/src/main.rs:38 | a word that appears only when a character is added ends in that character, which is no digit |
| Calibration.FrontIsLeftmost | 2023/day-1/src/main.rs:33-41 | the front scan finds the first digit in reading order, and runs out of bounds exactly when none is left |
| Calibration.FrontReading | 2023/day-1/src/main.rs:33-41 | what the front scan of a whole line reads: the first digit, or out of bounds on a non-empty line without one |
| Calibration.NamedAt | 2023/day-1/src/main.rs:18-23 | the word found starts at the given position, and the digit it names is at most 9 |
| Calibration.Rightmost | 2023/day-1/src/main.rs:26-57 | the last digit in reading order, the rightmost digit character or start of a spelled-out digit, is at most 9 |
| Calibration.NamedAtSuffix | 2023/day-1/src/main.rs:48 | a word starts at a position of the line iff it starts the suffix `line[idx..]` from there |
| Calibration.SuffixNamedAtStart | 2023/day-1/src/main.rs:48 | when no word occurs after its first character, the word `get_digit_by_name` finds in a suffix is the one starting it |
| Calibration.BackIsRightmost | 2023/day-1/src/main.rs:42-51 | the back scan from any step finds the last digit in reading order before its position |
| Calibration.BackReading | 2023/day-1/src/main.rs:42-51 | what the back scan of a whole line reads is the last digit in reading order |
| Calibration.CalibrationValue | 2023/day-1/src/main.rs:26-57 | the intended value of a line, ten times its first plus its last digit in reading order, is at most 99 |
| Calibration.GetDigitsValue | 2023/day-1/src/main.rs:26-57 | `get_digits` leaves bounds iff the line is non-empty and has no digit; otherwise it computes the calibration value |
| Calibration.NoDigitOverruns | 2023/day-1/src/main.rs:33-38 | the line "x" sends the front slice past the end, where the intended value is 0 |
| Calibration.NameShape | 2023/day-1/src/main.rs:6-16 | every digit name has at least three characters and ends in a non-digit |
| CubeGame.WithCount | 2023/day-2/src/main.rs:156-161 | setting one colour's count leaves the other two unchanged |
| CubeGame.AnyExceeds | 2023/day-2/src/main.rs:187-189 | an `any` over no sets is false; AnyExceedsIff states what it computes |
| CubeGame.AnyExceedsIff | 2023/day-2/src/main.rs:187-189 | the `any` over the sets holds iff some set exceeds the bag |
| CubeGame.Possible | 2023/day-2/src/main.rs:186-191 | a game without sets passes the filter; PossibleIff states the filter in full |
| CubeGame.PossibleIff | 2023/day-2/src/main.rs:175-191 | a game is possible iff every set has at most 12 red, 13 green and 14 blue |
| CubeGame.PossibleIds | 2023/day-2/src/main.rs:184-193 | the filtered ids are no more than the games |
| CubeGame.PossibleIdsMembers | 2023/day-2/src/main.rs:184-193 | an id is listed iff some possible game carries it |
| CubeGame.PossibleGamesSum | 2023/day-2/src/main.rs:196 | the first answer is at least the id of every possible game; PossibleIdsMembers states which ids it sums |
| CubeGame.PossibleGamesSumAppend | 2023/day-2/src/main.rs:184-196 | the first answer over two runs of games is the sum of their answers |
| CubeGame.MinimumIsMax | 2023/day-2/src/main.rs:198-209 | each colour of the minimum set is at least every set's count and equals one of them, or is 0 |
| CubeGame.MinimumSet | 2023/day-2/src/main.rs:200-208 | the `for` loop updating `minimum` with `max` computes the fold over the sets |
| CubeGame.PossibleIffMinimumFits | 2023/day-2/src/main.rs:175-209 | a game is possible iff its minimum set fits in the bag |
| CubeGame.Power | 2023/day-2/src/main.rs:211 | the power of a set is 0 iff one of its colours has no cubes |
| CubeGame.PowerZero | 2023/day-2/src/main.rs:210-212 | the power of a minimum set is 0 iff some colour is never shown |
| CubeGame.SumOfPowers | 2023/day-2/src/main.rs:198-212 | the second answer is at least the power of every game's minimum set; MinimumIsMax and PowerZero state what each term is |
| CubeGame.SumOfPowersAppend | 2023/day-2/src/main.rs:198-212 | the second answer over two runs of games is the sum of their answers |
| CubeParser.LowerWord | 2023/day-2/src/main.rs:24 | ASCII lower-casing keeps the length and lowers each character |
| CubeParser.ColorNamed | 2023/day-2/src/main.rs:23-29 | a colour found is the one the word spells in lower case; ColorNamedIff states both directions |
| CubeParser.ColorNamedIff | 2023/day-2/src/main.rs:23-29 | a word names a colour iff it spells that colour's name in any ASCII case |
| CubeParser.LetterEnd | 2023/day-2/src/main.rs:74-80 | the word run is maximal: letters up to it, a non-letter or the end after it |
| CubeParser.GetColor | 2023/day-2/src/main.rs:72-82 | `get_color` takes the first character and every following letter, and returns that word's colour |
| CubeParser.Step | 2023/day-2/src/main.rs:87-112 | one round of `lex` takes at least one character and emits at most one token |
| CubeParser.LexToken | 2023/day-2/src/main.rs:87-112 | one round of the `lex` loop emits what the step function says and advances past what it takes |
| CubeParser.LexAdvance | 2023/day-2/src/main.rs:84-115 | a round keeps the loop invariant: tokens so far plus the tokens of the rest are the tokens of the text |
| CubeParser.Lex | 2023/day-2/src/main.rs:84-115 | `lex` returns the tokens of the whole input, in order |
| CubeParser.Tokens | 2023/day-2/src/main.rs:84-115 | `lex` emits at most one token per character; Lex and LexAdvance state that it is what the loop returns |
| CubeParser.SetLength | 2023/day-2/src/main.rs:150-169 | `parse_set` stops at the first token that is neither a number nor a colour |
| CubeParser.MentionsLast | 2023/day-2/src/main.rs:154-162 | a colour's count is the number right before its last mention, and 0 without one |
| CubeParser.ParseSet | 2023/day-2/src/main.rs:150-169 | `parse_set` consumes the set's tokens and returns the counts they mention |
| CubeParser.GameRound | 2023/day-2/src/main.rs:130-145 | a round that goes on takes at least one token |
| CubeParser.GameFromRound | 2023/day-2/src/main.rs:130-146 | a round that goes on is followed by the rest of the game |
| CubeParser.ParseRound | 2023/day-2/src/main.rs:130-145 | one round of the `parse_game` loop computes the round function |
| CubeParser.ResumeNext | 2023/day-2/src/main.rs:128-148 | after a round the loop resumes, or returns what the round left |
| CubeParser.ParseGame | 2023/day-2/src/main.rs:128-148 | `parse_game` returns the game read from token i on and the index where it stopped: its id is the last game-level number and it holds one set per colon or semicolon (see the `GameFrom*` rows) |
| CubeParser.ParseAdvance | 2023/day-2/src/main.rs:122-124 | a game read keeps the `parse` loop invariant and makes progress |
| CubeParser.GamesFrom | 2023/day-2/src/main.rs:117-126 | where `parse` returns (`Some`), it reads no more games than there are tokens; `None` stands for the `parse` that never returns. Parse, GamesFixedAgrees and StrayColorStalls state what it reads and where it stalls |
| CubeParser.Parse | 2023/day-2/src/main.rs:117-126 | where `parse` ends, it returns one game per `parse_game` call, in token order; the games keep the ids and sets described by the `GameFrom*` rows |
| CubeParser.ParseInput | 2023/day-2/src/main.rs:117-126 | `parse` lexes its input, then reads the games of its tokens |
| CubeParser.SetHasNoSeparator | 2023/day-2/src/main.rs:150-169 | a set's tokens hold no colon or semicolon |
| CubeParser.RoundSets | 2023/day-2/src/main.rs:136-139 | a round adds a set exactly when it takes a colon or semicolon |
| CubeParser.GameFromKeepsSets | 2023/day-2/src/main.rs:128-148 | `parse_game` keeps the sets it started with |
| CubeParser.GameFromSets | 2023/day-2/src/main.rs:136-139 | `parse_game` adds one set per colon or semicolon it takes |
| CubeParser.GameFromId | 2023/day-2/src/main.rs:132-135 | the game id is the last game-level number |
| CubeParser.GameFromEnds | 2023/day-2/src/main.rs:140-144 | `parse_game` ends after a newline, at a colour, or at the end of the tokens |
| CubeParser.StrayColorStalls | 2023/day-2/src/main.rs:122-144 | the text "red" lexes to one colour token on which `parse` never returns |
| CubeParser.GameRoundFixed | 2023/day-2/src/main.rs:130-145 | the corrected round takes a game-level colour and goes on |
| CubeParser.GameFromFixed | 2023/day-2/src/main.rs:128-148 | the corrected `parse_game` takes at least one token from non-empty input |
| CubeParser.GameFromFixedAgrees | 2023/day-2/src/main.rs:128-148 | where `parse_game` does not stop at a colour, the corrected version reads the same game |
| CubeParser.GamesFixedAgrees | 2023/day-2/src/main.rs:117-126 | whenever `parse` returns, the corrected version reads the same games |
| CubeParser.StrayColorSkipped | 2023/day-2/src/main.rs:117-148 | the corrected `parse` reads "red" as one empty game |
| CubeParser.LetterEndSuffix | 2023/day-2/src/main.rs:74-80 | the end of a letter run does not depend on the text before it |
| CubeParser.GameFrom | 2023/day-2/src/main.rs:128-148 | the game `parse_game` reads never uses more tokens than there are |
| CubeParser.SeparatorsAppend | 2023/day-2/src/main.rs:136-139 | colons and semicolons of two token runs add up |
| CubeParser.LeadingNumbers | 2023/day-2/src/main.rs:132-135 | the count of leading number tokens, ending on a number |
| CubeFormat.TokensText | 2023/day-2/src/main.rs:84-115 | the text of a list of games lexes to their tokens, line by line |
| CubeFormat.ReadSet | 2023/day-2/src/main.rs:150-169 | a set's tokens, followed by a separator or newline, parse back as that set |
| CubeFormat.ReadGame | 2023/day-2/src/main.rs:128-148 | a game's tokens parse back as that game and are all consumed |
| CubeFormat.ReadGames | 2023/day-2/src/main.rs:117-126 | the tokens of a list of games parse back as those games |
| CubeFormat.RoundTrip | 2023/day-2/src/main.rs:84-169 | the text of any list of games lexes and parses back to exactly those games |
| CubeFormat.TokensNumber | 2023/day-2/src/main.rs:63-70 | a written number followed by a non-digit lexes to one number token |
| CubeFormat.TokensWord | 2023/day-2/src/main.rs:72-82 | a lower-case word followed by a non-letter lexes to its colour, or to nothing |
| CubeFormat.ColorNamedName | 2023/day-2/src/main.rs:23-29 | each colour's name reads back as that colour |
| CubeFormat.TokensPiece | 2023/day-2/src/main.rs:84-115 | a piece of a game line lexes to its tokens, whatever follows it |
| CubeFormat.GamePiecesTokens | 2023/day-2/src/main.rs:84-115 | a game line starts with `G`, ends with a newline, and lexes to the game's tokens |
| CubeFormat.ReadPair | 2023/day-2/src/main.rs:150-169 | a number and a colour after it set that colour's count and take two tokens |
| CubeFormat.ReadSeparatedSet | 2023/day-2/src/main.rs:136-139 | a separator and a set's tokens make one round that appends that set |
| CubeFormat.ReadSetThen | 2023/day-2/src/main.rs:128-148 | after a separated set, `parse_game` goes on with the tokens that follow |
| CubeFormat.ReadSets | 2023/day-2/src/main.rs:128-148 | separated sets and a newline read as a game with those sets appended |
| Scratchcards.CountWinning | 2023/day-4/src/main.rs:33-37 | the count is at most the played numbers, and 0 iff none of them wins; CountWinningElements and MatchesAnyOrder relate it to the set intersection |
| Scratchcards.CountWinningElements | 2023/day-4/src/main.rs:33-37 | counting the winning entries of a repetition-free list counts the winners among its elements |
| Scratchcards.MatchesAnyOrder | 2023/day-4/src/main.rs:33-37 | `matches` is \|numbers ∩ winning_numbers\| in whatever order the set is iterated |
| Scratchcards.Points | 2023/day-4/src/main.rs:38-49 | the doubling loop gives 0 without a match and 2^(matches−1) otherwise |
| Scratchcards.PointTotal | 2023/day-4/src/main.rs:154-159 | the total is at least every card's points; PointTotalZeroIff and PointTotalAppend state the rest |
| Scratchcards.PointTotalZeroIff | 2023/day-4/src/main.rs:154-159 | the point total is 0 iff no card has a match |
| Scratchcards.PointTotalAppend | 2023/day-4/src/main.rs:154-159 | the point total of two runs of cards is the sum of their totals |
| Scratchcards.TurnDone | 2023/day-4/src/main.rs:171-178 | the inner loop adds card i's count to the next `matches` cards that exist and to no other card |
| Scratchcards.CopiesTotal | 2023/day-4/src/main.rs:161-185 | the copy loop over an array of counts ends with each card's count as the cascade defines it, and returns their sum; CopiesRecurrence states the cascade |
| Scratchcards.CopiesRecurrence | 2023/day-4/src/main.rs:168-180 | each card ends with one instance, plus one per instance of every earlier card whose matches reach it |
| Scratchcards.PropagatedPositive | 2023/day-4/src/main.rs:162-180 | every card always has at least one instance |
| Scratchcards.PropagatedGrows | 2023/day-4/src/main.rs:168-180 | counts only grow from one turn of the loop to the next |
| Scratchcards.PropagatedFrozen | 2023/day-4/src/main.rs:168-180 | once the loop is past card k, card k's count never changes again |
| Scratchcards.TotalOfPositives | 2023/day-4/src/main.rs:181-184 | a sum of counts that are all at least 1 is at least their number, with equality iff all are 1 |
| Scratchcards.NoMatchNoCopies | 2023/day-4/src/main.rs:168-180 | with no match before the last card, every card keeps one instance |
| Scratchcards.CopiedNext | 2023/day-4/src/main.rs:171-177 | a match on card t gives card t+1 a second instance, which it keeps |
| Scratchcards.CopiesAtLeastCards | 2023/day-4/src/main.rs:161-185 | the total is at least the number of cards, with equality iff no card before the last has a match |
| Scratchcards.WinnersWithOne | 2023/day-4/src/main.rs:33-37 | a new played number adds one match iff it wins |
| Scratchcards.Propagated | 2023/day-4/src/main.rs:162-180 | the copy loop keeps one count per card |
| CardParser.Matched | 2023/day-4/src/main.rs:90-98 | the prefix check agrees with `Card ` up to the first mismatch |
| CardParser.SpaceEnd | 2023/day-4/src/main.rs:100-101 | the space skip is maximal |
| CardParser.GetNumber | 2023/day-4/src/main.rs:77-84 | `get_number` on text consumes at least nothing, and yields a number iff the next character is a digit |
| CardParser.GetNumberSuffix | 2023/day-4/src/main.rs:77-84 | what `get_number` reads does not depend on the text before it |
| CardParser.CardNumber | 2023/day-4/src/main.rs:86-109 | `get_card_number` returns a number only after the literal `Card `, and consumes at least the 'C' |
| CardParser.CardNumberRender | 2023/day-4/src/main.rs:86-109 | `Card `, any number of spaces and a decimal number read back as that number |
| CardParser.ReadingMismatch | 2023/day-4/src/main.rs:92-94 | a character that breaks the prefix ends the reading with None, without being consumed |
| CardParser.ReadingEnd | 2023/day-4/src/main.rs:90-108 | running out of input yields None |
| CardParser.ReadingNumber | 2023/day-4/src/main.rs:100-104 | after the prefix and its spaces, the result is what `get_number` reads |
| CardParser.GetCardNumber | 2023/day-4/src/main.rs:86-109 | the prefix loop returns the label's number and stops where the label reading stops: a number only after the literal `Card `, None at the first character that disagrees |
| CardParser.Step | 2023/day-4/src/main.rs:55-72 | one round of `lex_contents` takes at least one character and emits at most one token |
| CardParser.LexToken | 2023/day-4/src/main.rs:55-72 | one round of the loop emits what the step function says and advances past what it takes |
| CardParser.LexAdvance | 2023/day-4/src/main.rs:52-75 | a round keeps the lexer's loop invariant |
| CardParser.LexContents | 2023/day-4/src/main.rs:52-75 | `lex_contents` returns the tokens of the whole input, in order |
| CardParser.Tokens | 2023/day-4/src/main.rs:52-75 | `lex_contents` emits at most one token per character; LexContents and LexAdvance state that it is what the loop returns |
| CardParser.CardEnd | 2023/day-4/src/main.rs:132-136 | `parse_card` stops at the first card token, or at the end |
| CardParser.PipeIndex | 2023/day-4/src/main.rs:145-148 | the first bar splits the winning numbers from the played ones |
| CardParser.BodySnocWinning | 2023/day-4/src/main.rs:137-139 | before the bar, a number joins the winning numbers |
| CardParser.BodySnocBar | 2023/day-4/src/main.rs:145-147 | the first bar ends the winning numbers |
| CardParser.BodySnocPlayed | 2023/day-4/src/main.rs:140-142 | after the bar, a number joins the played numbers, and a later bar changes nothing |
| CardParser.WinningStep | 2023/day-4/src/main.rs:137-143 | the loop step for a number while parsing winning numbers keeps the loop invariant |
| CardParser.PlayedStep | 2023/day-4/src/main.rs:137-143 | the loop step for a number after the bar keeps the loop invariant |
| CardParser.BarStep | 2023/day-4/src/main.rs:145-148 | the loop step for a bar keeps the loop invariant |
| CardParser.CardReadAt | 2023/day-4/src/main.rs:132-151 | where the loop stops, it has read the card's whole body |
| CardParser.CardOf | 2023/day-4/src/main.rs:128-152 | the card read for a label carries that label's number, and its winning and played numbers together are exactly the numbers of its body; ParseCard and CardReadAt state how the bar splits them |
| CardParser.ParseCard | 2023/day-4/src/main.rs:128-152 | `parse_card` consumes the body up to the next card token; numbers before the first bar are winning and those after it are played |
| CardParser.ParseAdvance | 2023/day-4/src/main.rs:117-120 | a card read keeps the `parse_contents` loop invariant |
| CardParser.ParseSkip | 2023/day-4/src/main.rs:121 | a skipped token keeps the loop invariant |
| CardParser.CardsFrom | 2023/day-4/src/main.rs:113-125 | the token loop never yields more cards than tokens; OneCardPerLabel and CardNumbersLabelled state that it yields one card per label |
| CardParser.ParseTokens | 2023/day-4/src/main.rs:113-125 | the token loop of `parse_contents` returns one card per card token; each body runs to the next card token, and tokens before the first label are skipped |
| CardParser.ParseContents | 2023/day-4/src/main.rs:111-126 | `parse_contents` lexes its input, then reads the cards of its tokens |
| CardParser.LabelsBody | 2023/day-4/src/main.rs:132-136 | a card's body holds no card token |
| CardParser.OneCardPerLabel | 2023/day-4/src/main.rs:111-126 | `parse_contents` returns exactly one card per card token |
| CardParser.CardNumbersLabelled | 2023/day-4/src/main.rs:117-119 | every card returned carries the number of a card token |
| CardParser.MatchedWord | 2023/day-4/src/main.rs:90-98 | text starting with `Card ` is matched through all five characters |
| CardParser.Spaces | 2023/day-4/src/main.rs:100-101 | a run of n spaces |
| CardParser.ReadingLetter | 2023/day-4/src/main.rs:95-97 | a character of the prefix that matches is consumed and the count advances |
| CardParser.PipeIndexSnoc | 2023/day-4/src/main.rs:145-148 | a token added after the body moves the first bar only if there was none and it is no bar |
| CardParser.NumbersInSnoc | 2023/day-4/src/main.rs:137-143 | one more token adds its number, if it is one, to the numbers read |
| CardParser.CardEndAt | 2023/day-4/src/main.rs:132-136 | the body ends at the first card token |
| CardParser.LabelsAppend | 2023/day-4/src/main.rs:117-119 | card tokens of two token runs add up |
| CardFormat.TokensNumbers | 2023/day-4/src/main.rs:62-66 | numbers written after spaces lex to their number tokens |
| CardFormat.TokensLine | 2023/day-4/src/main.rs:52-75 | a card line lexes to its label, its numbers and its bar, whatever follows it |
| CardFormat.TokensText | 2023/day-4/src/main.rs:52-75 | the text of a list of card lines lexes to their tokens |
| CardFormat.ReadBody | 2023/day-4/src/main.rs:128-152 | a line's body reads as its winning and played numbers, as sets |
| CardFormat.ReadLine | 2023/day-4/src/main.rs:111-152 | a line's tokens, followed by a label or nothing, read as its card |
| CardFormat.ReadLines | 2023/day-4/src/main.rs:111-126 | the tokens of a list of lines read as their cards |
| CardFormat.RoundTrip | 2023/day-4/src/main.rs:52-152 | the text of any list of card lines lexes and parses back to exactly those cards |
| CardFormat.TokensNumber | 2023/day-4/src/main.rs:77-84 | a written number followed by a non-digit lexes to one number token |
| CardFormat.TokensLabel | 2023/day-4/src/main.rs:86-109 | a padded `Card` label followed by a non-digit lexes to one card token |
| CardFormat.TokensSkip | 2023/day-4/src/main.rs:72 | a character that starts no token is dropped |
| CardFormat.NumbersInTokens | 2023/day-4/src/main.rs:137-143 | numbers read from number tokens are the set of those numbers |
| CardFormat.NumbersInAfterBar | 2023/day-4/src/main.rs:145-148 | a leading bar adds no number |
| CardFormat.PipeIndexAt | 2023/day-4/src/main.rs:145-148 | the first bar is where the first bar is |
| Intervals.Intersection | 2023/day-5/src/main.rs:58-70 | `range_intersection` returns a range iff the ranges overlap or touch; then it is well formed and holds exactly the values in both |
| Intervals.Subrange | 2023/day-5/src/main.rs:36-47 | `subrange` returns a pair iff the request lies in the source; its source is the request, and its target is shifted by the same offset and is as long |
| Intervals.TotalLengthAppend | 2023/day-5/src/main.rs:206-236 | lengths add up over concatenation |
| RangeTree.PieceIsIntersection | 2023/day-5/src/main.rs:124-128 | a rule yields one piece iff its source overlaps the query, and that piece is the subrange at the intersection |
| RangeTree.PiecesAppend | 2023/day-5/src/main.rs:121-147 | search results split over the pre-order |
| RangeTree.PiecesFacts | 2023/day-5/src/main.rs:121-147 | every piece is well formed, lies in the query and inside its rule's source |
| RangeTree.PiecesEmptyIff | 2023/day-5/src/main.rs:121-147 | a search finds nothing iff no rule's source overlaps the query |
| RangeTree.SubtreeMaxBounds | 2023/day-5/src/main.rs:83-86 | a subtree's `max` bounds every source end below it and is one of them |
| RangeTree.PruneSound | 2023/day-5/src/main.rs:130-143 | skipping a subtree whose `max` is below the query start loses no piece |
| RangeTree.TreeInsertMax | 2023/day-5/src/main.rs:84-86 | insertion raises `max` to the new rule's source end |
| RangeTree.TreeInsertPosition | 2023/day-5/src/main.rs:83-101 | insertion slots the rule into the pre-order and moves no other rule |
| RangeTree.TreeInsertMultiset | 2023/day-5/src/main.rs:83-101 | insertion keeps every old rule and adds the new one |
| RangeTree.TreeInsertMembers | 2023/day-5/src/main.rs:83-101 | after insertion the tree stores exactly the old rules and the new one |
| RangeTree.TreeInsertAugmented | 2023/day-5/src/main.rs:83-101 | insertion keeps every `max` equal to the largest source end below it |
| RangeTree.TreeInsertOrdered | 2023/day-5/src/main.rs:88-100 | insertion keeps smaller starts left, and equal or larger starts right |
| RangeTree.TreeInsertWellFormed | 2023/day-5/src/main.rs:83-101 | insertion keeps every source well formed |
| RangeTree.BuildSearchTree | 2023/day-5/src/main.rs:170-182 | the tree `RangeMap::new` builds is ordered and augmented |
| RangeTree.BuildStoresRules | 2023/day-5/src/main.rs:170-182 | the built tree stores exactly the listed rules, each as often as listed |
| RangeTree.BuildMembers | 2023/day-5/src/main.rs:170-182 | the built tree stores a rule iff the list holds it |
| RangeTree.LeftMissImpliesRightMiss | 2023/day-5/src/main.rs:108-116 | in an ordered tree, a query that misses the left subtree with `max >= start` misses the right one too |
| RangeTree.RangeTreeNode.constructor | 2023/day-5/src/main.rs:73-81 | `new` is a valid leaf whose `max` is the rule's source end |
| RangeTree.RangeTreeNode.Insert | 2023/day-5/src/main.rs:83-101 | in-place `insert` keeps the tree valid, and its shape is the functional insertion |
| RangeTree.RangeTreeNode.FindIntersections | 2023/day-5/src/main.rs:121-147 | the pruned search returns exactly the pieces of the stored rules, in pre-order |
| RangeTree.RangeTreeNode.FindOverlapping | 2023/day-5/src/main.rs:103-119 | `find_overlapping` returns a stored rule that overlaps the query, and None iff none does |
| RangeTree.ExampleSearch | 2023/day-5/src/main.rs:592-613 | the test tree queried with 120..300 gives 120..200 → 70..150 and 255..260 → 100..105 |
| RangeTree.IntervalTreeExample | 2023/day-5/src/main.rs:590-614 | `interval_tree_test` on the class gives the same two pieces |
| RangeTree.ExampleTree | 2023/day-5/src/main.rs:599-603 | inserting the five test rules in order builds the expected tree |
| RangeTree.PiecesNone | 2023/day-5/src/main.rs:130-143 | rules that all end before the query starts give no piece |
| RangeTree.BuildWellFormed | 2023/day-5/src/main.rs:170-182 | the built tree holds only well-formed sources |
| RangeTree.SlotLeft | 2023/day-5/src/main.rs:88-93 | an insertion into the left subtree is an insertion into the whole pre-order |
| RangeTree.SlotRight | 2023/day-5/src/main.rs:94-99 | an insertion into the right subtree is an insertion into the whole pre-order |
| RangeTree.RangeTreeNode.InsertBelow | 2023/day-5/src/main.rs:88-99 | one child slot: recurse into the child, or hang a new leaf; either way the child's shape becomes the functional insertion |
| RangeTree.RangeTreeNode.InsertLeft | 2023/day-5/src/main.rs:88-93 | the left branch of `insert` changes only the left subtree, to the functional insertion |
| RangeTree.RangeTreeNode.InsertRight | 2023/day-5/src/main.rs:94-99 | the right branch of `insert` changes only the right subtree, to the functional insertion |
| RangeTree.RangeTreeNode.SearchFacts | 2023/day-5/src/main.rs:121-147 | a node's pieces are its own, then the left subtree's, then the right's, and a pruned child has none |
| RangeTree.RangeTreeNode.OverlapFacts | 2023/day-5/src/main.rs:108-116 | the single child `find_overlapping` descends into is the only one that can overlap |
| RangeMaps.FirstContaining | 2023/day-5/src/main.rs:196 | `find` returns the first rule whose source contains the number, and None iff none does |
| RangeMaps.InsertByStart | 2023/day-5/src/main.rs:210 | insertion into a list sorted by source start keeps it sorted and adds the element |
| RangeMaps.InsertKeepsOrder | 2023/day-5/src/main.rs:210 | insertion puts the new element ahead of those with the same source start and keeps the order of every start |
| RangeMaps.SortByStart | 2023/day-5/src/main.rs:210 | `sort_by_key` on the source start returns a sorted permutation, stable: elements with equal source starts keep their input order |
| RangeMaps.FillPieces | 2023/day-5/src/main.rs:213-235 | the tail of `ranges_for` builds the fill: leading gap, the walk, trailing gap |
| RangeMaps.WalkPieces | 2023/day-5/src/main.rs:218-227 | the peekable walk emits each target and then the gap before the next piece |
| RangeMaps.RangeMap.constructor | 2023/day-5/src/main.rs:170-189 | `RangeMap::new` keeps its kinds and rules, and has a tree iff there are rules, built by inserting them in order |
| RangeMaps.RangeMap.ValueFor | 2023/day-5/src/main.rs:191-204 | `value_for` returns None iff the kind is not the table's source kind; otherwise the value has the target kind |
| RangeMaps.RangeMap.ValueForNumber | 2023/day-5/src/main.rs:196-203 | the first rule containing the number shifts it by `target.start - source.start`; with none it is unchanged |
| RangeMaps.RangeMap.RangesFor | 2023/day-5/src/main.rs:206-236 | `ranges_for` returns the split of the query by the table's tree |
| RangeMaps.FillConserves | 2023/day-5/src/main.rs:213-235 | chained pieces inside the query fill to exactly its length |
| RangeMaps.FillValid | 2023/day-5/src/main.rs:213-235 | every range the fill produces is well formed |
| RangeMaps.RetrievedFacts | 2023/day-5/src/main.rs:209-210 | the sorted search result lies in the query and is sorted |
| RangeMaps.SplitEmptyIff | 2023/day-5/src/main.rs:207-213 | `ranges_for` returns nothing iff no rule overlaps the query |
| RangeMaps.SplitValid | 2023/day-5/src/main.rs:206-236 | every range `ranges_for` returns is well formed |
| RangeMaps.SplitConserves | 2023/day-5/src/main.rs:206-236 | when the retrieved pieces are chained, the output lengths sum to the query's length |
| RangeMaps.PiecesDisjoint | 2023/day-5/src/main.rs:121-147 | rules with pairwise-apart sources yield pairwise-apart pieces |
| RangeMaps.NonEmptyPieces | 2023/day-5/src/main.rs:206-236 | dropping the zero-length pieces keeps exactly the non-empty ones |
| RangeMaps.SplitFixedConserves | 2023/day-5/src/main.rs:206-236 | with pairwise-apart rules, the corrected split covers the query exactly |
| RangeMaps.FoundDisjoint | 2023/day-5/src/main.rs:121-147 | a tree of pairwise-apart rules yields pairwise-apart pieces inside the query |
| RangeMaps.KeptChained | 2023/day-5/src/main.rs:210 | pairwise-apart non-empty pieces, sorted, are chained |
| RangeMaps.RangeMapExample | 2023/day-5/src/main.rs:518-532 | `range_map_test`: seed 1 under rule 1..2 → 4..6 becomes soil 4 |
| RangeMaps.SplitDropsUnreachedQuery | 2023/day-5/src/main.rs:207-213 | a query that no rule reaches comes back empty, so ten values are lost |
| RangeMaps.SplitFixedKeepsUnreachedQuery | 2023/day-5/src/main.rs:212 | the corrected split maps the same query to itself |
| RangeMaps.TouchingPieces | 2023/day-5/src/main.rs:58-60 | a rule whose source only touches the query yields a zero-length piece |
| RangeMaps.SplitCountsTouchingRuleTwice | 2023/day-5/src/main.rs:206-236 | for adjacent rules 5..10 and 0..5, the query 5..7 splits into ranges of total length 4 |
| RangeMaps.SplitFixedCountsOnce | 2023/day-5/src/main.rs:206-236 | the corrected split maps the same query once, to 100..102 |
| RangeMaps.InsertBehind | 2023/day-5/src/main.rs:210 | the head of a sorted list stays in front of the sorted insertion into its tail |
| RangeMaps.EmittedLength | 2023/day-5/src/main.rs:218-227 | after n steps the walk has covered the query up to the start of piece n |
| RangeMaps.StepLength | 2023/day-5/src/main.rs:220-226 | one step adds the target's length and the gap's |
| RangeMaps.GapLength | 2023/day-5/src/main.rs:222-225 | a gap covers exactly the values between two pieces that do not touch |
| RangeMaps.EmittedValid | 2023/day-5/src/main.rs:218-227 | every range the walk emits is well formed |
| RangeMaps.RetrievedEmptyIff | 2023/day-5/src/main.rs:209-213 | sorting the search result leaves it empty iff it was empty |
| RangeMaps.SortedDisjointChained | 2023/day-5/src/main.rs:210-227 | sorted pieces whose sources are non-empty and pairwise apart are chained |
| RangeMaps.DisjointPermutation | 2023/day-5/src/main.rs:210 | whether sources are pairwise apart does not depend on their order |
| RangeMaps.SplitOfRetrieved | 2023/day-5/src/main.rs:206-236 | when the search finds pieces, `ranges_for` is the fill of the sorted pieces |
| RangeMaps.TouchingTree | 2023/day-5/src/main.rs:170-182 | the two adjacent rules of the finding build a well-formed tree and their sources are apart |
| RangeMaps.TouchingRetrieved | 2023/day-5/src/main.rs:207-210 | for the query 5..7 the sorted search gives the real piece and a zero-length one |
| RangeMaps.TouchingFill | 2023/day-5/src/main.rs:213-235 | those two pieces fill to 100..102, 55..55 and 5..7 |
| RangeMaps.DoubleCoverLength | 2023/day-5/src/main.rs:213-235 | those three ranges total 4 values |
| NumberMappers.WalkValueSettled | 2023/day-5/src/main.rs:259 | a walk that has reached the target or lost its value stays put |
| NumberMappers.WalkValueBound | 2023/day-5/src/main.rs:259-267 | once settled, a larger hop bound gives the same result |
| NumberMappers.WalkValueNoneIff | 2023/day-5/src/main.rs:253-269 | `map` gives None iff the walk reaches, before the target, a kind with no table |
| NumberMappers.WalkValueShift | 2023/day-5/src/main.rs:261-262 | one hop applies the current kind's `value_for` |
| NumberMappers.HopAppend | 2023/day-5/src/main.rs:285-288 | a hop maps the parts of a working set independently and concatenates them in order |
| NumberMappers.HopAll | 2023/day-5/src/main.rs:285-288 | the `map(ranges_for).flatten().collect()` chain computes the hop |
| NumberMappers.StepRanges | 2023/day-5/src/main.rs:279-295 | a turn of `map_range`'s loop keeps every range well formed |
| NumberMappers.RangeLoopStep | 2023/day-5/src/main.rs:279-295 | a turn keeps the loop on its way to the settled state |
| NumberMappers.RangeLoopHop | 2023/day-5/src/main.rs:285-294 | a turn through the current category's table keeps the loop on its way, in the table's target category |
| NumberMappers.RangeLoopSpin | 2023/day-5/src/main.rs:280 | a turn without a table for the current category leaves the state as it is and spends one turn |
| NumberMappers.MissingTableSpins | 2023/day-5/src/main.rs:280 | at a kind with no table the state never changes and never settles |
| NumberMappers.StepRangesFixed | 2023/day-5/src/main.rs:279-295 | a corrected turn keeps the total length, and a missing table empties the set |
| NumberMappers.WalkRangesFixed | 2023/day-5/src/main.rs:271-297 | the corrected walk keeps the total length of its ranges, or loses them all |
| NumberMappers.MissingTableStops | 2023/day-5/src/main.rs:280 | where the source spins, the corrected walk stops at once with nothing |
| NumberMappers.MinOf | 2023/day-5/src/main.rs:483-492 | `min` is None iff there are no values, else the least of them |
| NumberMappers.NumberMapper.constructor | 2023/day-5/src/main.rs:242-246 | `default` holds no tables |
| NumberMappers.NumberMapper.Insert | 2023/day-5/src/main.rs:249-251 | `insert` files the table under its source kind, replacing any earlier one |
| NumberMappers.NumberMapper.Map | 2023/day-5/src/main.rs:253-269 | the loop of `map` computes the hop-by-hop walk |
| NumberMappers.NumberMapper.HopTurn | 2023/day-5/src/main.rs:285-294 | the body of the loop for a category with a table hops the working set and moves to the target category, one turn closer to the settled state |
| NumberMappers.NumberMapper.MapRange | 2023/day-5/src/main.rs:271-297 | the loop of `map_range` computes the range walk |
| NumberMappers.NumberMapper.FindSmallestLocation | 2023/day-5/src/main.rs:475-484 | the least location any seed reaches |
| NumberMappers.NumberMapper.FindSmallestLocationRanges | 2023/day-5/src/main.rs:486-493 | the least start of any location range reached |
| NumberMappers.ExampleWalks | 2023/day-5/src/main.rs:534-566 | seed 1 reaches humidity 9 and seed 5 reaches soil 7 |
| NumberMappers.FileTable | 2023/day-5/src/main.rs:440-441 | a table built from rules and filed keeps the mapper valid |
| NumberMappers.ExampleMapper | 2023/day-5/src/main.rs:542-561 | the two tables of `value_mapper_test` filed in a fresh mapper |
| NumberMappers.MapperExample | 2023/day-5/src/main.rs:534-566 | `value_mapper_test` on the class gives humidity 9 and soil 7 |
| NumberMappers.StuckGivesNone | 2023/day-5/src/main.rs:259-267 | a walk that stands at a category with no table ends with no value |
| NumberMappers.NoneWasStuck | 2023/day-5/src/main.rs:259-267 | a walk that ends with no value stood at a category with no table |
| NumberMappers.Hop | 2023/day-5/src/main.rs:285-288 | one hop of a set of well-formed ranges gives well-formed ranges |
| NumberMappers.HopSnoc | 2023/day-5/src/main.rs:285-288 | one more range adds its own split at the end of the hop |
| NumberMappers.WalkRanges | 2023/day-5/src/main.rs:271-297 | `map_range` within a bound on its turns keeps every range well formed |
| NumberMappers.HopFixed | 2023/day-5/src/main.rs:285-288 | a corrected hop keeps ranges well formed and keeps their total length |
| NumberMappers.Starts | 2023/day-5/src/main.rs:492 | the start of every location range, in order |
| AlmanacLexer.KindNamed | 2023/day-5/src/main.rs:10-21 | a category found is the one whose name is the text; KindNamedFacts adds that no other text names one |
| AlmanacLexer.KindNamedFacts | 2023/day-5/src/main.rs:10-21 | `ValueKind::from_str` accepts exactly the eight lower-case names |
| AlmanacLexer.KindNamedName | 2023/day-5/src/main.rs:10-21 | each category's name reads back as that category |
| AlmanacLexer.WordRun | 2023/day-5/src/main.rs:344-350 | the word loop takes the maximal run of letters, spaces and dashes |
| AlmanacLexer.LexSplit | 2023/day-5/src/main.rs:317-340 | text that ends with a line break lexes apart from what follows it |
| AlmanacLexer.ClassifyHeader | 2023/day-5/src/main.rs:352-359 | a `<source>-to-<target> map` word is read as its two categories |
| AlmanacLexer.HeaderNoSeeds | 2023/day-5/src/main.rs:352 | no header word contains "seeds" |
| AlmanacLexer.LexAlmanac | 2023/day-5/src/main.rs:317-340 | an almanac's text lexes to its seeds line, then each table's tokens |
| AlmanacLexer.LexAlphabetical | 2023/day-5/src/main.rs:342-363 | `lex_alphabetical` takes the word run and classifies it: `Seeds`, a header, or nothing |
| AlmanacLexer.LexNumber | 2023/day-5/src/main.rs:365-372 | `lex_number` takes the digit run and returns its value |
| AlmanacLexer.LexToken | 2023/day-5/src/main.rs:320-337 | one round of `lex_contents` emits the tokens of the next lexeme |
| AlmanacLexer.LexContents | 2023/day-5/src/main.rs:317-340 | `lex_contents` returns the tokens of the whole text |
| AlmanacLexer.NamedAmongFacts | 2023/day-5/src/main.rs:10-21 | a name found among the categories is that category's name; none found means no category has it |
| AlmanacLexer.KindIndex | 2023/day-5/src/main.rs:10-21 | every category is among the eight listed ones |
| AlmanacLexer.WordRunExact | 2023/day-5/src/main.rs:344-350 | the word run stops exactly at the first character that is no letter, space or dash |
| AlmanacLexer.HeaderPieces | 2023/day-5/src/main.rs:355 | `split('-')` of a header gives source, `to` and target |
| AlmanacLexer.HeaderNamesOf | 2023/day-5/src/main.rs:352-359 | `<x>-to-<y> map` splits back into x and y when neither holds a dash or a space |
| AlmanacLexer.ClassifyHeaderOf | 2023/day-5/src/main.rs:352-359 | a header over two category names reads as a map token for those categories |
| AlmanacLexer.NameNoSeeds | 2023/day-5/src/main.rs:352 | no category name contains "seeds" |
| AlmanacLexer.LexWordTurn | 2023/day-5/src/main.rs:322-326 | from a letter, the tokens are the word's classification, then the tokens of the rest |
| AlmanacLexer.LexDigitTurn | 2023/day-5/src/main.rs:327-331 | from a digit, the tokens are the run's number, then the tokens of the rest |
| AlmanacLexer.LexOtherTurn | 2023/day-5/src/main.rs:332-336 | from any other character, a newline token for a line break, then the tokens of the rest |
| AlmanacLexer.ScanAlmanac | 2023/day-5/src/main.rs:317-340 | an almanac's text scans into its seeds line's lexemes, then each table's |
| AlmanacParser.NumbersFromTokens | 2023/day-5/src/main.rs:392-394 | numbers read back from their tokens, with the non-number after them consumed |
| AlmanacParser.ParseSeeds | 2023/day-5/src/main.rs:389-397 | `parse_seeds` reads the numbers after `Seeds`, consuming the token that ends them |
| AlmanacParser.PairsAt | 2023/day-5/src/main.rs:418-427 | range k starts at number 2k and is as long as number 2k+1 |
| AlmanacParser.PairsPending | 2023/day-5/src/main.rs:420-422 | an unpaired number adds no range |
| AlmanacParser.ParseSeedRanges | 2023/day-5/src/main.rs:414-431 | `parse_seed_ranges` pairs the numbers and drops an unpaired last one |
| AlmanacParser.RuleOf | 2023/day-5/src/main.rs:459-465 | a rule line reads target start, source start, length, in that order |
| AlmanacParser.RuleOfEncodable | 2023/day-5/src/main.rs:459-465 | every rule the text can carry reads back from its own line |
| AlmanacParser.RulesFromTokens | 2023/day-5/src/main.rs:456-470 | a table's rule lines read back as its rules |
| AlmanacParser.TablesFromTokens | 2023/day-5/src/main.rs:433-473 | the tables of an almanac read back as themselves |
| AlmanacParser.FiledIsLast | 2023/day-5/src/main.rs:249-251 | a mapper holds a kind iff some table has it, and then the last such table |
| AlmanacParser.ParseRangeMap | 2023/day-5/src/main.rs:450-473 | `parse_range_map` fails iff a rule line is cut short; otherwise it builds a valid table of the two categories holding the rules read in order, and leaves the token that ended them |
| AlmanacParser.ParseNumberMapper | 2023/day-5/src/main.rs:433-448 | `parse_number_mapper` consumes all tokens and holds the filed tables |
| AlmanacParser.ContentsOfTokens | 2023/day-5/src/main.rs:374-387 | an almanac's tokens read back as its seeds and tables |
| AlmanacParser.ContentsRoundTrip | 2023/day-5/src/main.rs:317-387 | an almanac's text lexes and parses back as its seeds and tables |
| AlmanacParser.ContentsWithoutTables | 2023/day-5/src/main.rs:386 | an almanac without a table parses as None |
| AlmanacParser.ParseContents | 2023/day-5/src/main.rs:374-387 | `parse_contents` returns None iff seeds or mapper are missing; otherwise the last seeds line and a mapper holding the tables |
| AlmanacParser.ParseContentRanges | 2023/day-5/src/main.rs:399-412 | `parse_content_ranges`, with the seeds read as ranges |
| AlmanacParser.NumbersFrom | 2023/day-5/src/main.rs:392-394 | the numbers loop consumes at least one token of non-empty input |
| AlmanacParser.NumbersStep | 2023/day-5/src/main.rs:392-394 | a number token is read and the loop goes on; any other token ends it and is consumed |
| AlmanacParser.NumbersFromCons | 2023/day-5/src/main.rs:392-394 | a leading number is read, then the numbers after it |
| AlmanacParser.SeedsFrom | 2023/day-5/src/main.rs:389-397 | `parse_seeds` consumes at least one token of non-empty input |
| AlmanacParser.Pairs | 2023/day-5/src/main.rs:414-431 | one range per two numbers |
| AlmanacParser.PairsSnoc | 2023/day-5/src/main.rs:418-427 | two more numbers add the range from the first, as long as the second |
| AlmanacParser.RulesFrom | 2023/day-5/src/main.rs:450-473 | `parse_range_map` never uses more tokens than there are |
| AlmanacParser.RulesFromTables | 2023/day-5/src/main.rs:456-470 | after the last rule line, a blank line and the next header end the rules |
| AlmanacParser.TablesFromHeader | 2023/day-5/src/main.rs:436-445 | a header and a line break start a table read from what follows |
| AlmanacParser.TableRead | 2023/day-5/src/main.rs:433-473 | a table's tokens read back as that table, then the tables after it |
| AlmanacParser.TablesFromMap | 2023/day-5/src/main.rs:436-445 | at a header, the table read after it, if it reads, then the tables after that |
| AlmanacParser.Filed | 2023/day-5/src/main.rs:441 | each table is filed under its own source category |
| AlmanacParser.FiledSnoc | 2023/day-5/src/main.rs:249-251 | filing one more table replaces its source category's entry |
| AlmanacParser.HoldsFile | 2023/day-5/src/main.rs:440-441 | filing the map of a table keeps the mapper in step with the filed tables |
| AlmanacParser.ContentsFromSeeds | 2023/day-5/src/main.rs:379-381 | the seeds line is read and the loop goes on after its line break |
| AlmanacParser.ContentsFromTables | 2023/day-5/src/main.rs:379-385 | the tables' tokens after the seeds make the mapper and end the loop |
| GcdLcm.GcdDivides | 2023/day-8/src/lcm.rs:1-6 | `gcd` divides both arguments |
| GcdLcm.GcdGreatest | 2023/day-8/src/lcm.rs:1-6 | every common divisor divides `gcd` |
| GcdLcm.Gcd | 2023/day-8/src/lcm.rs:1-6 | `gcd` is 0 only for `gcd(0, 0)`; GcdAtMost bounds it by a non-zero first argument, and GcdDivides and GcdGreatest state that it is the greatest common divisor |
| GcdLcm.GcdAtMost | 2023/day-8/src/lcm.rs:1-6 | `gcd` never exceeds a non-zero first argument |
| GcdLcm.Lcm | 2023/day-8/src/lcm.rs:8-10 | `a * b / gcd(a, b)`, defined when the arguments are not both 0 (`gcd(0, 0)` would divide by zero) and their product fits in `u64` (the source multiplies in `u64`); the result is at most `a * b`. LcmMultiple, LcmZero and LcmLeast state that it is the least common multiple |
| GcdLcm.LcmMultiple | 2023/day-8/src/lcm.rs:8-10 | both arguments divide `lcm` |
| GcdLcm.LcmZero | 2023/day-8/src/lcm.rs:8-10 | `lcm` is 0 iff an argument is |
| GcdLcm.LcmLeast | 2023/day-8/src/lcm.rs:8-10 | `lcm` divides every common multiple |
| GcdLcm.LcmAll | 2023/day-8/src/lcm.rs:12-14 | the fold from 1 is 0 iff some input is 0 |
| GcdLcm.LcmAllMultiple | 2023/day-8/src/lcm.rs:12-14 | every input divides `lcm_all` |
| GcdLcm.LcmAllLeast | 2023/day-8/src/lcm.rs:12-14 | `lcm_all` divides every common multiple of the inputs |
| GcdLcm.LcmAllSameElements | 2023/day-8/src/lcm.rs:12-14 | inputs with the same elements, in any order and repetition, give the same result |
| GcdLcm.GcdScale | 2023/day-8/src/lcm.rs:1-6 | scaling both arguments scales the gcd |
| GcdLcm.LcmForm | 2023/day-8/src/lcm.rs:8-10 | with `a = g x` and `b = g y` for the gcd g, `lcm` is `x b`, which is also `a y` |
| GcdLcm.ReducedCoprime | 2023/day-8/src/lcm.rs:1-10 | dividing out the gcd leaves arguments whose gcd is 1 |
| GcdLcm.CoprimeDivides | 2023/day-8/src/lcm.rs:1-6 | Euclid's lemma: a divisor of `u x` whose gcd with x is 1 divides u |
| GcdLcm.ReducedLeast | 2023/day-8/src/lcm.rs:8-10 | `x b` divides every common multiple of a and b |
| GcdLcm.LcmAllAmong | 2023/day-8/src/lcm.rs:12-14 | when every input is among another list's, the first result divides the second |
| Networks.Move | 2023/day-8/src/network.rs:60-68 | a step succeeds iff there are steps and the node is in the map; step k goes left or right by `steps[k mod \|steps\|]` |
| Networks.WalkStuck | 2023/day-8/src/network.rs:61-63 | a failed step stays failed |
| Networks.FirstGoal | 2023/day-8/src/network.rs:86-100 | the first goal on the walk at or after a position |
| Networks.NavigateImp | 2023/day-8/src/network.rs:77-103 | `navigate_imp` returns the first position on the walk that is a goal, 0 when the start is one |
| Networks.NavigateRec | 2023/day-8/src/network.rs:49-74 | `navigate_rec` returns the first goal strictly after the current position |
| Networks.Starts | 2023/day-8/src/network.rs:28-30 | the filter keeps exactly the keys that pass `is_start` |
| Networks.RequiredSteps | 2023/day-8/src/network.rs:38-43 | the `map` over the starts gives each start's first goal |
| Networks.Navigate | 2023/day-8/src/network.rs:18-47 | `navigate` gives None iff no key is a start; one start gives its walk's first goal after at least one step; several give the lcm of each start's first goal |
| Networks.FoldOrderFree | 2023/day-8/src/network.rs:37-45 | the folded counts agree for two orders of the same starts |
| Networks.NavigationOrderFree | 2023/day-8/src/network.rs:28-45 | the result does not depend on the key iteration order |
| Networks.ExampleWalk | 2023/day-8/src/network.rs:110-123 | from AAA the walk first stands on ZZZ after six steps |
| Networks.NavigateExample | 2023/day-8/src/network.rs:110-123 | the test navigation returns Some(6) |
| Networks.WalkNext | 2023/day-8/src/network.rs:60-68 | one step past a known position |
| Networks.StepSucceeds | 2023/day-8/src/network.rs:60-68 | with a goal still ahead, the next step has steps and a known node |
| Networks.LeastReach | 2023/day-8/src/network.rs:86-100 | scanning up from a position finds the first goal, at or before a known one |
| Networks.FirstExists | 2023/day-8/src/network.rs:86-100 | a goal ahead means there is a first goal ahead |
| Networks.FirstGoalUnique | 2023/day-8/src/network.rs:86-100 | a goal with none before it is the first goal |
| Networks.NoGoalExtend | 2023/day-8/src/network.rs:86-100 | a position that is no goal extends the goal-free prefix by one |
| Networks.StartsDistinct | 2023/day-8/src/network.rs:28-30 | filtering distinct keys keeps them distinct |
| Networks.Counts | 2023/day-8/src/network.rs:38-43 | one count per start, each the start's first goal |
| Networks.CountsAmong | 2023/day-8/src/network.rs:37-45 | for the same starts in two orders, every count of one is among the other's |
| Networks.SameLength | 2023/day-8/src/network.rs:28-30 | two repetition-free lists of the same keys are equally long |
| NetworkParser.StepOf | 2023/day-8/src/main.rs:31-37 | the closure maps 'L' to Left, 'R' to Right and nothing else to a step |
| NetworkParser.ParseStepsAppend | 2023/day-8/src/main.rs:29-39 | `parse_steps` reads each character on its own |
| NetworkParser.ParseStepsText | 2023/day-8/src/main.rs:29-39 | written steps read back as the same steps |
| NetworkParser.ParseStepsIgnores | 2023/day-8/src/main.rs:35 | characters other than 'L' and 'R' leave no step |
| NetworkParser.FindChar | 2023/day-8/src/main.rs:50-54 | `char_indices().find` returns the first position of the character, and None iff it is absent |
| NetworkParser.Pointers | 2023/day-8/src/main.rs:42-48 | the second piece of `split("=")` exists iff the line has a '=' |
| NetworkParser.ParseMapLine | 2023/day-8/src/main.rs:41-62 | None iff there is no '=' or no '(' or ')' after it; otherwise the name is the first three characters, left the three after the first '(' and right the three before the first ')' of the text after the '=' |
| NetworkParser.ParseMapLineText | 2023/day-8/src/main.rs:41-62 | a written node line reads back as its node and two successors |
| NetworkParser.Lines | 2023/day-8/src/main.rs:11-14 | `lines` of the empty text is empty, and only of it |
| NetworkParser.NodesFromKeys | 2023/day-8/src/main.rs:17-21 | a node is in the map iff some line that parses describes it |
| NetworkParser.NodesFromLast | 2023/day-8/src/main.rs:19 | a node's entry is the last line describing it |
| NetworkParser.InsertNodes | 2023/day-8/src/main.rs:17-21 | the `while let` loop inserts every line that parses |
| NetworkParser.ParseNetworkAndSteps | 2023/day-8/src/main.rs:10-27 | None iff the input is empty; else the first line's steps and the node map of the other lines |
| NetworkParser.ParseSteps | 2023/day-8/src/main.rs:29-39 | `parse_steps` yields at most one step per character |
| NetworkParser.StepsText | 2023/day-8/src/main.rs:29-39 | steps written one letter each |
| NetworkParser.FindCharPrefix | 2023/day-8/src/main.rs:50-54 | the first occurrence of a character is after any prefix without it |
| NetworkParser.PointersText | 2023/day-8/src/main.rs:50-54 | in a written pair the parentheses are at positions 1 and 10 |
| NetworkParser.MapLineTextSplit | 2023/day-8/src/main.rs:42 | `split("=")` of a written node line gives the name and a space, then the pair |
| NetworkParser.SingleLine | 2023/day-8/src/main.rs:11 | text without a line break is one line |
| NetworkParser.ParsedLines | 2023/day-8/src/main.rs:17-21 | every remaining line read by `parse_map_line` |
| NetworkParser.NodesOfStep | 2023/day-8/src/main.rs:17-21 | one more line read adds what it describes to the node map, replacing an earlier entry |

## Left out

- Integer widths: `u32` and `u64` are unbounded `nat`. Overflow that Rust would report or wrap is not modelled.
- Scratchcards.Points: does not model the `u32` overflow of `value * 2` on a card with more than 32 matches.
- Scratchcards.CopiesTotal: the counts and their sum are unbounded, where Rust's `u32` would overflow.
- GcdLcm.Lcm and GcdLcm.LcmAll take a precondition that the product `a * b` fits in `u64`, since Rust overflows beyond it.
- Every `main`, argument handling and `fs::read_to_string`, including day 1's `get_file_calibration_value` and day 5's file-reading tests. These are I/O. The sums that `main` prints are modelled as functions (`CubeGame.PossibleGamesSum`, `CubeGame.SumOfPowers`, `Scratchcards.PointTotal`).
- `2023/day-3/src/main.rs` is not part of this model. It wraps a quadtree crate whose code is not visible, and it uses floating point.
- Debug output: `print_traverse` and the `println!` calls inside `map_range`.
- `HashMap` and `HashSet` become `map` and `set`. Where Rust's result could depend on iteration order, the order is a parameter, and the result is proved independent of it (`Scratchcards.MatchesAnyOrder`, `Networks.NavigationOrderFree`).
- Input is taken as ASCII. `is_alphabetic` is ASCII letters. `char_indices` positions are character positions. The byte slicing of days 1 and 8 is indexing into the character sequence.
- NetworkParser.Lines: splits on '\n' only. It does not strip the '\r' that `str::lines` removes before a '\n'.
- Panics become preconditions:
  - a missing node or empty step list in `navigate_*` (a goal must lie on the walk);
  - out-of-range slices in `parse_map_line`;
  - a division by zero in `lcm`.
- Loops that would never end also become preconditions, or are bounded by a ghost hop count:
  - `NumberMappers.NumberMapper.Map` and `MapRange` take a ghost number of hops within which the walk settles;
  - `Networks.NavigateImp` and `NavigateRec` require a goal on the walk.
- Networks.Navigate: a lone start is walked by `navigate_rec`, which needs a goal after at least one step. With several starts, at most one count may be 0 (a second 0 divides by zero in `lcm`), and the fold must fit in `u64`.
- Calibration.GetDigits: requires the front slice to stay in bounds. The out-of-bounds case is described by `Calibration.GetDigitsValue` and reported below.
- `get_card_copies_total` stores pairs of a card and its count. The card half never changes, so the model keeps only the counts, in an array.
- `RangeTreeNode::find_overlapping` is modelled as a function on the class (it reads the tree and changes nothing).
- RangeMaps.RangeMap.Valid ties the tree to the rules: a `RangeMap` with rules and `range_tree: None` cannot be represented. The day-5 tests build such maps by hand (2023/day-5/src/main.rs:523-528, 545-560) and use only `value_for`, which never reads the tree; the model's test tables are built through the constructor instead.
- A tree's `Option<Box<..>>` children become nullable references. Each node owns its children exclusively, and `Repr` is the footprint.

## Findings

| source | as written | input that shows it | evidently intended | confidence | as-written member | corrected member |
|---|---|---|---|---|---|---|
| 2023/day-1/src/main.rs:34-38 | the front scan searches `line[0..=i]` after `i += 1`, one character past the byte just read; at the last character of a line without a digit the slice is past the end, and the program panics | `x` | a line without a digit is worth 0 | high, not executed | Calibration.NoDigitOverruns | Calibration.CalibrationValue |
| 2023/day-2/src/main.rs:122-124, 144 | `parse_game` stops without consuming a colour token at game level, so `parse` calls it forever on the same token | `red` | a stray colour is skipped, as `parse_set` skips one | high, not executed | CubeParser.StrayColorStalls | CubeParser.GameFromFixed |
| 2023/day-5/src/main.rs:207, 213 | `ranges_for` returns nothing when no rule overlaps the query, so those values vanish from the range walk; the comment at line 212 says they map to themselves | rule 0..5 → 50..55, query 10..20 | the query maps to itself | high, not executed | RangeMaps.SplitDropsUnreachedQuery | RangeMaps.SplitFixedKeepsUnreachedQuery |
| 2023/day-5/src/main.rs:59, 224-232 | touching ranges count as overlapping, so a rule that ends where the query starts yields a zero-length piece; sorted after the real piece, it resets the trailing gap and the query is counted twice | rules 5..10 → 100..105 and 0..5 → 50..55, query 5..7 | 5..7 maps to 100..102 alone | high, not executed | RangeMaps.SplitCountsTouchingRuleTwice | RangeMaps.SplitFixedCountsOnce |
| 2023/day-5/src/main.rs:280 | `map_range` `continue`s at a kind with no table without changing the kind, so the loop never ends | a mapper without a `Seed` table, query 0..1 from `Seed` to `Location` | the walk ends with no ranges | high, not executed | NumberMappers.MissingTableSpins | NumberMappers.MissingTableStops |
