/**
 * The puzzle's line format, `Card   7: 41 48 83 | 83 86 6`, and the round
 * trip through the lexer and parser of 2023/day-4: the text of any list of
 * cards lexes and parses back to exactly those cards.
 */
module CardFormat {
  import opened Chars
  import Scratchcards
  import opened CardParser

  /** One line of the input: the label's padding, the card number, and both lists of numbers as written. */
  datatype Line = Line(pad: nat, number: nat, winning: seq<nat>, played: seq<nat>)

  /** ` <n>` for every number of `xs`. */
  function NumbersText(xs: seq<nat>): string {
    if xs == [] then [] else " " + Render(xs[0]) + NumbersText(xs[1..])
  }

  /** The text of line `l`, followed by the text `rest`. */
  function LineThen(l: Line, rest: string): string {
    CardWord + Spaces(l.pad) + Render(l.number) +
      (":" + (NumbersText(l.winning) + (" |" + (NumbersText(l.played) + ("\n" + rest)))))
  }

  /** The text of a list of lines, one after another. */
  function Text(lines: seq<Line>): string {
    if lines == [] then [] else LineThen(lines[0], Text(lines[1..]))
  }

  function NumberTokens(xs: seq<nat>): seq<Token> {
    seq(|xs|, k requires 0 <= k < |xs| => Number(xs[k]))
  }

  /** The tokens of line `l`. */
  function LineTokens(l: Line): seq<Token> {
    [Card(l.number)] + NumberTokens(l.winning) + [Pipe] + NumberTokens(l.played)
  }

  function LinesTokens(lines: seq<Line>): seq<Token> {
    if lines == [] then [] else LineTokens(lines[0]) + LinesTokens(lines[1..])
  }

  /** The card line `l` describes. */
  function CardOfLine(l: Line): Scratchcards.Card {
    Scratchcards.Card(l.number, Scratchcards.Elements(l.winning), Scratchcards.Elements(l.played))
  }

  function CardsOfLines(lines: seq<Line>): seq<Scratchcards.Card> {
    seq(|lines|, k requires 0 <= k < |lines| => CardOfLine(lines[k]))
  }

  // ---------------------------------------------------------------------------
  // Lexing a line

  /** A character that starts nothing is dropped. */
  lemma TokensSkip(c: char, rest: string)
    requires c != 'C' && !IsDigit(c) && c != '|'
    ensures Tokens([c] + rest) == Tokens(rest)
  {
    assert ([c] + rest)[1..] == rest;
  }

  lemma TokensBar(rest: string)
    ensures Tokens("|" + rest) == [Pipe] + Tokens(rest)
  {
    assert ("|" + rest)[1..] == rest;
  }

  /** A rendered number followed by a non-digit is one number token. */
  lemma TokensNumber(n: nat, rest: string)
    requires rest == [] || !IsDigit(rest[0])
    ensures Tokens(Render(n) + rest) == [Number(n)] + Tokens(rest)
  {
    var s := Render(n) + rest;
    var k := |Render(n)|;
    assert s[0] == Render(n)[0];
    RunEndRender(n, rest);
    assert s[..k] == Render(n) && s[k..] == rest;
    ValueOfRender(n);
  }

  /** A padded label followed by a non-digit is one card token. */
  lemma TokensLabel(pad: nat, n: nat, rest: string)
    requires rest == [] || !IsDigit(rest[0])
    ensures Tokens(CardWord + Spaces(pad) + Render(n) + rest) == [Card(n)] + Tokens(rest)
  {
    var s := CardWord + Spaces(pad) + Render(n) + rest;
    CardNumberRender(pad, n, rest);
    assert s[0] == 'C';
    assert s[5 + pad + |Render(n)|..] == rest;
  }

  lemma NumberTokensCons(xs: seq<nat>)
    requires xs != []
    ensures NumberTokens(xs) == [Number(xs[0])] + NumberTokens(xs[1..])
  {
  }

  /** Numbers each preceded by a space lex to their number tokens. */
  lemma {:induction false} TokensNumbers(xs: seq<nat>, rest: string)
    requires rest == [] || !IsDigit(rest[0])
    ensures Tokens(NumbersText(xs) + rest) == NumberTokens(xs) + Tokens(rest)
  {
    if xs != [] {
      var x, more := xs[0], NumbersText(xs[1..]);
      var tail := more + rest;
      assert tail == [] || !IsDigit(tail[0]) by {
        if xs[1..] != [] {
          assert tail[0] == ' ';
        }
      }
      assert Tokens(NumbersText(xs) + rest) == Tokens(Render(x) + tail) by {
        ConcatAssoc(" " + Render(x), more, rest);
        ConcatAssoc(" ", Render(x), tail);
        TokensSkip(' ', Render(x) + tail);
      }
      assert Tokens(Render(x) + tail) == [Number(x)] + Tokens(tail) by {
        TokensNumber(x, tail);
      }
      assert Tokens(tail) == NumberTokens(xs[1..]) + Tokens(rest) by {
        TokensNumbers(xs[1..], rest);
      }
      assert NumberTokens(xs) + Tokens(rest) == [Number(x)] + (NumberTokens(xs[1..]) + Tokens(rest)) by {
        NumberTokensCons(xs);
        ConcatAssoc([Number(x)], NumberTokens(xs[1..]), Tokens(rest));
      }
    } else {
      assert NumberTokens(xs) == [];
      EmptyConcat(rest);
      EmptyConcat(Tokens(rest));
    }
  }

  /** A line lexes to its tokens, whatever follows it. */
  lemma TokensLine(l: Line, rest: string)
    ensures Tokens(LineThen(l, rest)) == LineTokens(l) + Tokens(rest)
  {
    var r5 := "\n" + rest;
    var r4 := NumbersText(l.played) + r5;
    var r3 := "|" + r4;
    var r2 := NumbersText(l.winning) + (" " + r3);
    var r1 := ":" + r2;
    TokensSkip('\n', rest);
    TokensNumbers(l.played, r5);
    TokensBar(r4);
    assert " |" + r4 == " " + r3;
    TokensSkip(' ', r3);
    TokensNumbers(l.winning, " " + r3);
    TokensSkip(':', r2);
    TokensLabel(l.pad, l.number, r1);
    RightNested([Card(l.number)], NumberTokens(l.winning), [Pipe], NumberTokens(l.played), Tokens(rest));
  }

  lemma RightNested<T>(a: seq<T>, b: seq<T>, c: seq<T>, d: seq<T>, e: seq<T>)
    ensures a + b + c + d + e == a + (b + (c + (d + e)))
  {
  }

  /** The text of a list of lines lexes to their tokens, line after line. */
  lemma {:induction false} TokensText(lines: seq<Line>)
    ensures Tokens(Text(lines)) == LinesTokens(lines)
  {
    if lines != [] {
      TokensLine(lines[0], Text(lines[1..]));
      TokensText(lines[1..]);
    }
  }

  // ---------------------------------------------------------------------------
  // Parsing a line's tokens

  lemma {:induction false} NumbersInTokens(xs: seq<nat>)
    ensures NumbersIn(NumberTokens(xs)) == Scratchcards.Elements(xs)
  {
    if xs != [] {
      var init := xs[..|xs| - 1];
      assert NumberTokens(xs)[..|xs| - 1] == NumberTokens(init);
      NumbersInTokens(init);
      assert Scratchcards.Elements(xs) == Scratchcards.Elements(init) + {xs[|xs| - 1]} by {
        assert xs == init + [xs[|xs| - 1]];
      }
    }
  }

  lemma {:induction false} NumbersInAfterBar(ts: seq<Token>)
    ensures NumbersIn([Pipe] + ts) == NumbersIn(ts)
  {
    if ts != [] {
      assert ([Pipe] + ts)[..|ts|] == [Pipe] + ts[..|ts| - 1];
      NumbersInAfterBar(ts[..|ts| - 1]);
    } else {
      assert ([Pipe] + ts)[..0] == [];
    }
  }

  lemma {:induction false} PipeIndexAt(ts: seq<Token>, k: nat)
    requires k < |ts| && ts[k] == Pipe && forall q | 0 <= q < k :: ts[q] != Pipe
    ensures PipeIndex(ts) == k
  {
    if k > 0 {
      PipeIndexAt(ts[1..], k - 1);
    }
  }

  /** The card a line's body reads as. */
  lemma ReadBody(l: Line)
    ensures var body := NumberTokens(l.winning) + [Pipe] + NumberTokens(l.played);
      Winning(body) == Scratchcards.Elements(l.winning) && Played(body) == Scratchcards.Elements(l.played)
  {
    var w := NumberTokens(l.winning);
    var body := w + [Pipe] + NumberTokens(l.played);
    PipeIndexAt(body, |w|);
    assert body[..|w|] == w;
    assert body[|w|..] == [Pipe] + NumberTokens(l.played);
    NumbersInTokens(l.winning);
    NumbersInTokens(l.played);
    NumbersInAfterBar(NumberTokens(l.played));
  }

  /** A line's tokens are its label followed by its body. */
  lemma LineRegroup<T>(head: T, w: seq<T>, bar: T, p: seq<T>, more: seq<T>)
    ensures [head] + w + [bar] + p + more == [head] + (w + [bar] + p + more)
    ensures ([head] + w + [bar] + p + more)[0] == head
    ensures ([head] + w + [bar] + p + more)[1..] == w + [bar] + p + more
  {
  }

  /** A line's tokens, followed by a label or nothing, read as its card. */
  lemma ReadLine(l: Line, more: seq<Token>)
    requires more == [] || more[0].Card?
    ensures CardsFrom(LineTokens(l) + more) == [CardOfLine(l)] + CardsFrom(more)
  {
    var body := NumberTokens(l.winning) + [Pipe] + NumberTokens(l.played);
    var rest := body + more;
    var ts := LineTokens(l) + more;
    LineRegroup(Card(l.number), NumberTokens(l.winning), Pipe, NumberTokens(l.played), more);
    assert CardEnd(rest) == |body| by {
      CardEndAt(rest, |body|);
    }
    AppendSlices(body, more);
    ReadBody(l);
  }

  lemma CardsOfLinesCons(lines: seq<Line>)
    requires lines != []
    ensures CardsOfLines(lines) == [CardOfLine(lines[0])] + CardsOfLines(lines[1..])
  {
  }

  /** The tokens of a list of lines read as their cards. */
  lemma {:induction false} ReadLines(lines: seq<Line>)
    ensures CardsFrom(LinesTokens(lines)) == CardsOfLines(lines)
  {
    if lines != [] {
      var more := LinesTokens(lines[1..]);
      assert more == [] || more[0].Card? by {
        if lines[1..] != [] {
          assert more[0] == LineTokens(lines[1])[0];
        }
      }
      ReadLine(lines[0], more);
      ReadLines(lines[1..]);
      assert CardsOfLines(lines) == [CardOfLine(lines[0])] + CardsOfLines(lines[1..]) by {
        CardsOfLinesCons(lines);
      }
    }
  }

  /**
   * The round trip: `parse_contents` reads the text of any list of card
   * lines back as exactly those cards, each number list as a set.
   */
  lemma RoundTrip(lines: seq<Line>)
    ensures CardsFrom(Tokens(Text(lines))) == CardsOfLines(lines)
  {
    TokensText(lines);
    ReadLines(lines);
  }
}
