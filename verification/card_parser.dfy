/**
 * The hand-written lexer and parser of 2023/day-4/src/main.rs, which read
 * lines such as `Card 1: 41 48 83 | 83 86  6` into scratchcards.
 *
 * The lexer walks a peekable character iterator, modelled as an index into
 * the input; what it produces is specified by `Tokens`, a function of the
 * text still to read. The parser walks a peekable token iterator, again an
 * index, and is specified by `CardOf` and `CardsFrom`.
 */
module CardParser {
  import opened Wrappers
  import opened Chars
  import Scratchcards

  /** `Token`: a card label with its number, a number, or the bar between winning and played numbers. */
  datatype Token = Card(num: nat) | Number(n: nat) | Pipe

  /** The label `get_card_number` expects, character by character. */
  const CardWord: string := "Card "

  // ---------------------------------------------------------------------------
  // `get_card_number`

  /** How far `s` agrees with `Card ` from position `k` on (at most the whole word). */
  function Matched(s: string, k: nat): (m: nat)
    requires k <= 5 && k <= |s| && s[..k] == CardWord[..k]
    ensures k <= m <= 5 && m <= |s| && s[..m] == CardWord[..m]
    ensures m < 5 && m < |s| ==> s[m] != CardWord[m]
    decreases 5 - k
  {
    if k < 5 && k < |s| && s[k] == CardWord[k] then
      assert s[..k + 1] == s[..k] + [s[k]] && CardWord[..k + 1] == CardWord[..k] + [CardWord[k]];
      Matched(s, k + 1)
    else k
  }

  /** The end of the run of spaces starting at `i`. */
  function SpaceEnd(s: string, i: nat): (j: nat)
    requires i <= |s|
    ensures i <= j <= |s|
    ensures forall k | i <= k < j :: s[k] == ' '
    ensures j == |s| || s[j] != ' '
    decreases |s| - i
  {
    if i < |s| && s[i] == ' ' then SpaceEnd(s, i + 1) else i
  }

  /** A number read from the start of some text, and how many characters it took. */
  datatype NumberRead = NumberRead(value: Option<nat>, size: nat)

  /**
   * What `get_number` reads at `p`: nothing at the end of the text; a
   * character that is not a digit is taken and gives no number; otherwise
   * the whole digit run is taken and read in base 10.
   */
  function GetNumber(s: string, p: nat): (r: NumberRead)
    requires p <= |s|
    ensures p <= r.size <= |s|
    ensures r.value.Some? <==> p < |s| && IsDigit(s[p])
  {
    if p == |s| then NumberRead(None, p)
    else if IsDigit(s[p]) then
      var e := RunEnd(s, p);
      NumberRead(Some(ValueOf(s[p..e])), e)
    else NumberRead(None, p + 1)
  }

  /** What `get_number` reads does not depend on the text before it. */
  lemma GetNumberSuffix(s: string, i: nat, p: nat)
    requires i <= p <= |s|
    ensures GetNumber(s[i..], p - i) == NumberRead(GetNumber(s, p).value, GetNumber(s, p).size - i)
  {
    if p < |s| && IsDigit(s[p]) {
      RunEndSuffix(s, i, p);
      SuffixSlice(s, i, p, RunEnd(s, p));
    }
  }

  /**
   * What `get_card_number` reads from `s`: it takes `Card ` one character at
   * a time and gives up at the first character that disagrees (leaving it
   * unread) or at the end of the text; then it skips spaces and hands the
   * next character to `get_number`.
   */
  function CardNumber(s: string): (r: NumberRead)
    ensures r.size <= |s|
    ensures s != [] && s[0] == 'C' ==> r.size > 0
    ensures r.value.Some? ==> |s| > 5 && s[..5] == CardWord
  {
    var k := Matched(s, 0);
    if k < 5 then NumberRead(None, k) else GetNumber(s, SpaceEnd(s, 5))
  }

  /** Text that starts with the whole label is matched through it. */
  lemma {:induction false} MatchedWord(s: string, k: nat)
    requires k <= 5 <= |s| && s[..5] == CardWord
    ensures s[..k] == CardWord[..k] && Matched(s, k) == 5
    decreases 5 - k
  {
    assert s[..k] == s[..5][..k];
    if k < 5 {
      assert s[k] == s[..5][k];
      MatchedWord(s, k + 1);
    }
  }

  lemma {:induction false} SpaceEndCovers(s: string, i: nat, m: nat)
    requires i <= m <= |s| && forall k | i <= k < m :: s[k] == ' '
    ensures m <= SpaceEnd(s, i)
    decreases m - i
  {
    if i < m {
      SpaceEndCovers(s, i + 1, m);
    }
  }

  /** A run of `n` spaces. */
  function Spaces(n: nat): (r: string)
    ensures |r| == n && forall k | 0 <= k < n :: r[k] == ' '
  {
    seq(n, k => ' ')
  }

  /** The label `Card `, any further spaces and a number, read back. */
  lemma CardNumberRender(spaces: nat, n: nat, rest: string)
    requires rest == [] || !IsDigit(rest[0])
    ensures CardNumber(CardWord + Spaces(spaces) + Render(n) + rest) ==
      NumberRead(Some(n), 5 + spaces + |Render(n)|)
  {
    var digits := Render(n) + rest;
    var s := CardWord + Spaces(spaces) + Render(n) + rest;
    var p := 5 + spaces;
    ConcatAssoc(CardWord + Spaces(spaces), Render(n), rest);
    assert s[..5] == CardWord;
    MatchedWord(s, 0);
    assert s[p..] == digits;
    assert SpaceEnd(s, 5) == p by {
      assert s[p] == digits[0];
      SpaceEndCovers(s, 5, p);
    }
    assert GetNumber(digits, 0) == NumberRead(Some(n), |Render(n)|) by {
      RunEndRender(n, rest);
      assert digits[..|Render(n)|] == Render(n);
      ValueOfRender(n);
    }
    GetNumberSuffix(s, p, p);
  }

  /**
   * The state of the `get_card_number` loop after `k` characters of `t`:
   * while the label is incomplete, all `k` agree with it; once it is
   * complete, the characters after it are spaces.
   */
  ghost predicate Reading(t: string, matched: nat, k: nat) {
    k <= |t| && matched <= 5 &&
    (matched < 5 ==> k == matched && t[..k] == CardWord[..k] && Matched(t, 0) == Matched(t, k)) &&
    (matched == 5 ==> Matched(t, 0) == 5 && 5 <= k && SpaceEnd(t, k) == SpaceEnd(t, 5))
  }

  lemma ReadingLetter(t: string, k: nat)
    requires Reading(t, k, k) && k < 5 && k < |t| && t[k] == CardWord[k]
    ensures Reading(t, k + 1, k + 1)
  {
    assert t[..k + 1] == t[..k] + [t[k]] && CardWord[..k + 1] == CardWord[..k] + [CardWord[k]];
  }

  lemma ReadingMismatch(t: string, k: nat)
    requires Reading(t, k, k) && k < 5 && k < |t| && t[k] != CardWord[k]
    ensures CardNumber(t) == NumberRead(None, k)
  {
  }

  lemma ReadingEnd(t: string, matched: nat)
    requires Reading(t, matched, |t|)
    ensures CardNumber(t) == NumberRead(None, |t|)
  {
  }

  /** After the label and its spaces, `get_number` reads what `get_card_number` returns. */
  lemma ReadingNumber(s: string, i: nat, p: nat, n: Option<nat>, j: nat)
    requires i <= p < |s| && Reading(s[i..], 5, p - i) && s[p] != ' '
    requires GetNumber(s, p) == NumberRead(n, j)
    ensures CardNumber(s[i..]) == NumberRead(n, j - i)
  {
    var t := s[i..];
    assert t[p - i] == s[p];
    assert SpaceEnd(t, 5) == p - i;
    GetNumberSuffix(s, i, p);
  }

  /** `get_card_number` at index `i` of the input; returns the number and where reading stopped. */
  method GetCardNumber(s: string, i: nat) returns (cardNum: Option<nat>, j: nat)
    requires i <= |s|
    ensures i <= j <= |s|
    ensures CardNumber(s[i..]) == NumberRead(cardNum, j - i)
  {
    ghost var t := s[i..];
    cardNum := None;
    var matched := 0;
    j := i;
    while j < |s|
      invariant i <= j <= |s| && cardNum == None && Reading(t, matched, j - i)
      decreases |s| - j
    {
      var c := s[j];
      assert t[j - i] == c;
      if matched < 5 {
        if CardWord[matched] != c {
          ReadingMismatch(t, matched);
          return;
        }
        ReadingLetter(t, matched);
        matched := matched + 1;
        j := j + 1;
      } else if c == ' ' {
        j := j + 1;
      } else {
        var p := j;
        cardNum, j := ReadNumber(s, p);
        assert GetNumber(s, p) == NumberRead(cardNum, j);
        ReadingNumber(s, i, p, cardNum, j);
        return;
      }
    }
    ReadingEnd(t, matched);
  }

  // ---------------------------------------------------------------------------
  // `lex_contents`

  /** What one round of the `lex_contents` loop emits and how many characters it takes. */
  datatype Lexeme = Lexeme(emitted: seq<Token>, size: nat)

  function Labelled(cardNum: Option<nat>): seq<Token> {
    match cardNum
    case Some(n) => [Card(n)]
    case None => []
  }

  /**
   * The round at the start of non-empty text `s`: a `C` hands over to
   * `get_card_number` and yields a card label when that reads a number, a
   * digit starts a number taking the whole digit run, a bar stands for
   * itself, and any other character is dropped.
   */
  function Step(s: string): (r: Lexeme)
    requires s != []
    ensures 0 < r.size <= |s|
    ensures |r.emitted| <= 1
  {
    if s[0] == 'C' then
      var r := CardNumber(s);
      Lexeme(Labelled(r.value), r.size)
    else if IsDigit(s[0]) then
      var k := RunEnd(s, 0);
      Lexeme([Number(ValueOf(s[..k]))], k)
    else if s[0] == '|' then Lexeme([Pipe], 1)
    else Lexeme([], 1)
  }

  /** The tokens `lex_contents` produces from text `s`. */
  function Tokens(s: string): (r: seq<Token>)
    ensures |r| <= |s|
    decreases |s|
  {
    if s == [] then [] else Step(s).emitted + Tokens(s[Step(s).size..])
  }

  /** One round of the `lex_contents` loop, on the character at `i` and those it takes. */
  method LexToken(input: string, i: nat) returns (emitted: seq<Token>, j: nat)
    requires i < |input|
    ensures i < j <= |input|
    ensures Step(input[i..]) == Lexeme(emitted, j - i)
  {
    ghost var t := input[i..];
    var c := input[i];
    assert t[0] == c;
    if c == 'C' {
      var cardNum;
      cardNum, j := GetCardNumber(input, i);
      emitted := Labelled(cardNum);
    } else if '0' <= c <= '9' {
      var n;
      n, j := ReadNumber(input, i);
      emitted := [Number(n.value)];
      RunEndSuffix(input, i, i);
      assert t[..j - i] == input[i..j];
    } else if c == '|' {
      emitted, j := [Pipe], i + 1;
    } else {
      emitted, j := [], i + 1;
    }
  }

  /** `tokens` are what `lex_contents` has pushed once it has read the first `i` characters. */
  ghost predicate LexedUpTo(input: string, tokens: seq<Token>, i: nat) {
    i <= |input| && tokens + Tokens(input[i..]) == Tokens(input)
  }

  lemma LexAdvance(input: string, tokens: seq<Token>, i: nat, emitted: seq<Token>, j: nat)
    requires i < j <= |input| && LexedUpTo(input, tokens, i)
    requires Step(input[i..]) == Lexeme(emitted, j - i)
    ensures LexedUpTo(input, tokens + emitted, j)
  {
    assert Tokens(input[i..]) == emitted + Tokens(input[j..]) by {
      SuffixSuffix(input, i, j);
    }
    ConcatAssoc(tokens, emitted, Tokens(input[j..]));
  }

  /** `lex_contents`: the whole input's tokens, in order. */
  method LexContents(input: string) returns (tokens: seq<Token>)
    ensures tokens == Tokens(input)
  {
    tokens := [];
    var i := 0;
    assert input[0..] == input;
    while i < |input|
      invariant LexedUpTo(input, tokens, i)
      decreases |input| - i
    {
      var emitted, j := LexToken(input, i);
      LexAdvance(input, tokens, i, emitted, j);
      tokens, i := tokens + emitted, j;
    }
    assert input[i..] == [];
  }

  // ---------------------------------------------------------------------------
  // `parse_card`

  /** Where `parse_card` stops: the first card label, or the end. */
  function CardEnd(ts: seq<Token>): (k: nat)
    ensures k <= |ts|
    ensures forall p | 0 <= p < k :: !ts[p].Card?
    ensures k == |ts| || ts[k].Card?
  {
    if ts == [] || ts[0].Card? then 0 else 1 + CardEnd(ts[1..])
  }

  /** The first bar, or the end. */
  function PipeIndex(ts: seq<Token>): (k: nat)
    ensures k <= |ts|
    ensures forall p | 0 <= p < k :: ts[p] != Pipe
    ensures k == |ts| || ts[k] == Pipe
  {
    if ts == [] || ts[0] == Pipe then 0 else 1 + PipeIndex(ts[1..])
  }

  /** The number a token carries, if any. */
  function NumberOf(t: Token): set<nat> {
    if t.Number? then {t.n} else {}
  }

  /** The numbers among `ts`. */
  function NumbersIn(ts: seq<Token>): set<nat> {
    if ts == [] then {} else NumbersIn(ts[..|ts| - 1]) + NumberOf(ts[|ts| - 1])
  }

  /** The numbers before the first bar. */
  function Winning(body: seq<Token>): set<nat> {
    NumbersIn(body[..PipeIndex(body)])
  }

  /** The numbers after the first bar. */
  function Played(body: seq<Token>): set<nat> {
    NumbersIn(body[PipeIndex(body)..])
  }

  /**
   * The card `parse_card` reads for label `num` from `ts`: its body runs to
   * the next label, the numbers in it before the first bar are the winning
   * numbers and the numbers after it are the numbers played.
   */
  function CardOf(ts: seq<Token>, num: nat): (c: Scratchcards.Card)
    ensures c.number == num
    ensures c.winning + c.numbers == NumbersIn(ts[..CardEnd(ts)])
  {
    var body := ts[..CardEnd(ts)];
    NumbersInSplit(body, PipeIndex(body));
    Scratchcards.Card(num, Winning(body), Played(body))
  }

  /** The numbers of `b` are those of its first `k` tokens and those of the rest. */
  lemma {:induction false} NumbersInSplit(b: seq<Token>, k: nat)
    requires k <= |b|
    ensures NumbersIn(b) == NumbersIn(b[..k]) + NumbersIn(b[k..])
    decreases |b|
  {
    if k == |b| {
      assert b[..k] == b;
    } else {
      var front := b[..|b| - 1];
      NumbersInSplit(front, k);
      assert front[..k] == b[..k];
      assert b[k..] == front[k..] + [b[|b| - 1]];
      NumbersInSnoc(front[k..], b[|b| - 1]);
    }
  }

  lemma NumbersInSnoc(b: seq<Token>, x: Token)
    ensures NumbersIn(b + [x]) == NumbersIn(b) + NumberOf(x)
  {
    assert (b + [x])[..|b|] == b;
  }

  lemma {:induction false} PipeIndexSnoc(b: seq<Token>, x: Token)
    ensures PipeIndex(b) < |b| ==> PipeIndex(b + [x]) == PipeIndex(b)
    ensures PipeIndex(b) == |b| && x == Pipe ==> PipeIndex(b + [x]) == |b|
    ensures PipeIndex(b) == |b| && x != Pipe ==> PipeIndex(b + [x]) == |b| + 1
  {
    if b != [] {
      assert (b + [x])[1..] == b[1..] + [x];
      PipeIndexSnoc(b[1..], x);
    }
  }

  /** After the bar, a number joins the numbers played. */
  lemma BodySnocPlayed(b: seq<Token>, x: Token)
    requires PipeIndex(b) < |b|
    ensures PipeIndex(b + [x]) == PipeIndex(b)
    ensures Winning(b + [x]) == Winning(b)
    ensures Played(b + [x]) == Played(b) + NumberOf(x)
  {
    var p := PipeIndex(b);
    PipeIndexSnoc(b, x);
    SnocSlices(b, x, p);
    assert Played(b + [x]) == Played(b) + NumberOf(x) by {
      NumbersInSnoc(b[p..], x);
    }
  }

  /** The first bar ends the winning numbers. */
  lemma BodySnocBar(b: seq<Token>)
    requires PipeIndex(b) == |b|
    ensures PipeIndex(b + [Pipe]) == |b|
    ensures Winning(b + [Pipe]) == Winning(b) && Played(b + [Pipe]) == {}
  {
    var c := b + [Pipe];
    var p := |b|;
    PipeIndexSnoc(b, Pipe);
    SnocSlices(b, Pipe, p);
    assert b[p..] == [];
  }

  /** Before the bar, a number joins the winning numbers. */
  lemma BodySnocWinning(b: seq<Token>, x: Token)
    requires PipeIndex(b) == |b| && x != Pipe
    ensures PipeIndex(b + [x]) == |b| + 1
    ensures Winning(b + [x]) == Winning(b) + NumberOf(x)
    ensures Played(b + [x]) == {}
  {
    var c := b + [x];
    PipeIndexSnoc(b, x);
    WholeSlices(b);
    WholeSlices(c);
    NumbersInSnoc(b, x);
  }

  /** The state of the `parse_card` loop once it has read the body tokens `tokens[i..j]`. */
  ghost predicate CardSoFar(tokens: seq<Token>, i: nat, j: nat, num: nat, card: Scratchcards.Card, parsingWinning: bool)
    requires i <= j <= |tokens|
  {
    (forall p | i <= p < j :: !tokens[p].Card?) &&
    (parsingWinning <==> PipeIndex(tokens[i..j]) == j - i) &&
    card == Scratchcards.Card(num, Winning(tokens[i..j]), Played(tokens[i..j]))
  }

  lemma {:induction false} CardEndAt(ts: seq<Token>, k: nat)
    requires k <= |ts| && forall p | 0 <= p < k :: !ts[p].Card?
    requires k == |ts| || ts[k].Card?
    ensures CardEnd(ts) == k
  {
    if k > 0 {
      CardEndAt(ts[1..], k - 1);
    }
  }

  /** Where the loop stops, it has read the card's whole body. */
  lemma CardReadAt(tokens: seq<Token>, i: nat, j: nat, num: nat, card: Scratchcards.Card, parsingWinning: bool)
    requires i <= j <= |tokens| && CardSoFar(tokens, i, j, num, card, parsingWinning)
    requires j == |tokens| || tokens[j].Card?
    ensures j - i == CardEnd(tokens[i..]) && card == CardOf(tokens[i..], num)
  {
    CardEndAt(tokens[i..], j - i);
    assert tokens[i..][..j - i] == tokens[i..j];
  }

  /** A number before the bar joins the winning numbers. */
  lemma WinningStep(tokens: seq<Token>, i: nat, j: nat, num: nat, card: Scratchcards.Card, n: nat)
    requires i <= j < |tokens| && tokens[j] == Number(n) && CardSoFar(tokens, i, j, num, card, true)
    ensures CardSoFar(tokens, i, j + 1, num, card.(winning := card.winning + {n}), true)
  {
    SliceSnoc(tokens, i, j);
    BodySnocWinning(tokens[i..j], tokens[j]);
  }

  /** A number after the bar joins the numbers played. */
  lemma PlayedStep(tokens: seq<Token>, i: nat, j: nat, num: nat, card: Scratchcards.Card, n: nat)
    requires i <= j < |tokens| && tokens[j] == Number(n) && CardSoFar(tokens, i, j, num, card, false)
    ensures CardSoFar(tokens, i, j + 1, num, card.(numbers := card.numbers + {n}), false)
  {
    SliceSnoc(tokens, i, j);
    BodySnocPlayed(tokens[i..j], tokens[j]);
  }

  /** A bar ends the winning numbers, or changes nothing after the first. */
  lemma BarStep(tokens: seq<Token>, i: nat, j: nat, num: nat, card: Scratchcards.Card, parsingWinning: bool)
    requires i <= j < |tokens| && tokens[j] == Pipe && CardSoFar(tokens, i, j, num, card, parsingWinning)
    ensures CardSoFar(tokens, i, j + 1, num, card, false)
  {
    SliceSnoc(tokens, i, j);
    if parsingWinning {
      BodySnocBar(tokens[i..j]);
    } else {
      BodySnocPlayed(tokens[i..j], Pipe);
    }
  }

  /**
   * `parse_card`: the card labelled `num` from the tokens at `i` on. Numbers
   * are winning numbers until the first bar and numbers played after it;
   * the loop stops without consuming at the next label.
   */
  method ParseCard(tokens: seq<Token>, i: nat, num: nat) returns (card: Scratchcards.Card, j: nat)
    requires i <= |tokens|
    ensures i <= j <= |tokens|
    ensures j - i == CardEnd(tokens[i..]) && card == CardOf(tokens[i..], num)
  {
    card := Scratchcards.NewCard.(number := num);
    var parsingWinning := true;
    j := i;
    assert tokens[i..i] == [];
    while j < |tokens|
      invariant i <= j <= |tokens| && CardSoFar(tokens, i, j, num, card, parsingWinning)
      decreases |tokens| - j
    {
      match tokens[j]
      case Card(_) =>
        CardReadAt(tokens, i, j, num, card, parsingWinning);
        return;
      case Number(n) =>
        if parsingWinning {
          WinningStep(tokens, i, j, num, card, n);
          card := card.(winning := card.winning + {n});
        } else {
          PlayedStep(tokens, i, j, num, card, n);
          card := card.(numbers := card.numbers + {n});
        }
        j := j + 1;
      case Pipe =>
        BarStep(tokens, i, j, num, card, parsingWinning);
        parsingWinning := false;
        j := j + 1;
    }
    CardReadAt(tokens, i, j, num, card, parsingWinning);
  }

  // ---------------------------------------------------------------------------
  // `parse_contents`

  /**
   * The cards `parse_contents` reads from `ts`: each label starts a card
   * whose body runs to the next label; tokens before the first label are
   * skipped.
   */
  function CardsFrom(ts: seq<Token>): (r: seq<Scratchcards.Card>)
    ensures |r| <= |ts|
    decreases |ts|
  {
    if ts == [] then []
    else if ts[0].Card? then
      var rest := ts[1..];
      [CardOf(rest, ts[0].num)] + CardsFrom(rest[CardEnd(rest)..])
    else CardsFrom(ts[1..])
  }

  /** `cards` are what `parse_contents` has pushed once it has read the first `i` tokens. */
  ghost predicate ParsedUpTo(tokens: seq<Token>, cards: seq<Scratchcards.Card>, i: nat) {
    i <= |tokens| && cards + CardsFrom(tokens[i..]) == CardsFrom(tokens)
  }

  lemma ParseAdvance(tokens: seq<Token>, cards: seq<Scratchcards.Card>, i: nat, card: Scratchcards.Card, j: nat)
    requires i < |tokens| && tokens[i].Card? && ParsedUpTo(tokens, cards, i)
    requires i + 1 <= j <= |tokens| && j - (i + 1) == CardEnd(tokens[i + 1..])
    requires card == CardOf(tokens[i + 1..], tokens[i].num)
    ensures ParsedUpTo(tokens, cards + [card], j)
  {
    assert tokens[i..][1..] == tokens[i + 1..];
    assert tokens[i + 1..][j - (i + 1)..] == tokens[j..];
    ConcatAssoc(cards, [card], CardsFrom(tokens[j..]));
  }

  lemma ParseSkip(tokens: seq<Token>, cards: seq<Scratchcards.Card>, i: nat)
    requires i < |tokens| && !tokens[i].Card? && ParsedUpTo(tokens, cards, i)
    ensures ParsedUpTo(tokens, cards, i + 1)
  {
    assert tokens[i..][1..] == tokens[i + 1..];
  }

  /** The token loop of `parse_contents`: a label hands over to `parse_card`, anything else is skipped. */
  method ParseTokens(tokens: seq<Token>) returns (cards: seq<Scratchcards.Card>)
    ensures cards == CardsFrom(tokens)
  {
    cards := [];
    var i := 0;
    assert tokens[0..] == tokens;
    while i < |tokens|
      invariant ParsedUpTo(tokens, cards, i)
      decreases |tokens| - i
    {
      match tokens[i]
      case Card(num) =>
        var card, j := ParseCard(tokens, i + 1, num);
        ParseAdvance(tokens, cards, i, card, j);
        cards, i := cards + [card], j;
      case _ =>
        ParseSkip(tokens, cards, i);
        i := i + 1;
    }
    assert tokens[i..] == [];
  }

  /** `parse_contents`: lex the input, then read its cards. */
  method ParseContents(contents: string) returns (cards: seq<Scratchcards.Card>)
    ensures cards == CardsFrom(Tokens(contents))
  {
    var tokens := LexContents(contents);
    cards := ParseTokens(tokens);
  }

  // ---------------------------------------------------------------------------
  // What the parser reads

  /** The number of card labels in `ts`. */
  function Labels(ts: seq<Token>): nat {
    if ts == [] then 0 else (if ts[0].Card? then 1 else 0) + Labels(ts[1..])
  }

  lemma {:induction false} LabelsAppend(a: seq<Token>, b: seq<Token>)
    ensures Labels(a + b) == Labels(a) + Labels(b)
  {
    if a == [] {
      assert a + b == b;
    } else {
      assert (a + b)[1..] == a[1..] + b;
      LabelsAppend(a[1..], b);
    }
  }

  lemma {:induction false} LabelsBody(ts: seq<Token>)
    ensures Labels(ts[..CardEnd(ts)]) == 0
  {
    if ts != [] && !ts[0].Card? {
      assert ts[..CardEnd(ts)][1..] == ts[1..][..CardEnd(ts[1..])];
      LabelsBody(ts[1..]);
    }
  }

  /** `parse_contents` returns one card per label, in order. */
  lemma {:induction false} OneCardPerLabel(ts: seq<Token>)
    ensures |CardsFrom(ts)| == Labels(ts)
    decreases |ts|
  {
    if ts != [] {
      var rest := ts[1..];
      var k := CardEnd(rest);
      if ts[0].Card? {
        OneCardPerLabel(rest[k..]);
        assert rest == rest[..k] + rest[k..];
        LabelsAppend(rest[..k], rest[k..]);
        LabelsBody(rest);
      } else {
        OneCardPerLabel(rest);
      }
    }
  }

  /** Every card `parse_contents` returns carries the number of a label in the tokens. */
  lemma {:induction false} CardNumbersLabelled(ts: seq<Token>)
    ensures forall c | c in CardsFrom(ts) :: Card(c.number) in ts
    decreases |ts|
  {
    if ts != [] {
      var rest := ts[1..];
      if ts[0].Card? {
        var k := CardEnd(rest);
        CardNumbersLabelled(rest[k..]);
        forall t | t in rest[k..] ensures t in ts {
          var p :| 0 <= p < |rest[k..]| && rest[k..][p] == t;
          assert ts[1 + k + p] == t;
        }
      } else {
        CardNumbersLabelled(rest);
        forall t | t in rest ensures t in ts {
          var p :| 0 <= p < |rest| && rest[p] == t;
          assert ts[1 + p] == t;
        }
      }
    }
  }
}
