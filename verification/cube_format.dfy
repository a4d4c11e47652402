/**
 * The puzzle's line format, `Game 7: 3 red, 4 green, 0 blue; 1 red, ...`,
 * and the round trip through the lexer and parser of 2023/day-2: the text
 * of any list of games lexes and parses back to exactly those games.
 *
 * A line is written as a list of pieces (numbers, lower-case words and
 * single characters) that the lexer reads one at a time.
 */
module CubeFormat {
  import opened Wrappers
  import opened Chars
  import opened CubeGame
  import opened CubeParser

  // ---------------------------------------------------------------------------
  // Lines as lists of lexemes

  /** A piece of text: a number, a lower-case word, or one other character. */
  datatype Piece = Num(n: nat) | Word(w: string) | Sym(ch: char)

  predicate WellFormed(p: Piece) {
    match p
    case Num(_) => true
    case Word(w) => w != [] && 'a' <= w[0] <= 'z' && forall k | 0 <= k < |w| :: IsLetter(w[k])
    case Sym(ch) => !IsDigit(ch) && !('a' <= ch <= 'z')
  }

  function PieceText(p: Piece): string {
    match p
    case Num(n) => Render(n)
    case Word(w) => w
    case Sym(ch) => [ch]
  }

  /** The tokens a piece stands for. */
  function PieceTokens(p: Piece): seq<Token> {
    match p
    case Num(n) => [Number(n)]
    case Word(w) => Named(ColorNamed(w))
    case Sym(ch) => Step([ch]).emitted
  }

  /** Piece `p` ends where text `rest` begins: no digit run or letter run spans both. */
  predicate EndsBefore(p: Piece, rest: string) {
    match p
    case Num(_) => rest == [] || !IsDigit(rest[0])
    case Word(_) => rest == [] || !IsLetter(rest[0])
    case Sym(_) => true
  }

  /** The same condition between two pieces. */
  predicate Separate(p: Piece, q: Piece) {
    match p
    case Num(_) => !q.Num?
    case Word(_) => q.Sym? && !IsLetter(q.ch)
    case Sym(_) => true
  }

  /** A list of well-formed pieces, each separate from the next. */
  predicate Lexable(ps: seq<Piece>) {
    (forall i | 0 <= i < |ps| :: WellFormed(ps[i])) &&
    (forall i | 0 <= i < |ps| - 1 :: Separate(ps[i], ps[i + 1]))
  }

  function Flat(ps: seq<Piece>): string {
    if ps == [] then [] else PieceText(ps[0]) + Flat(ps[1..])
  }

  function PiecesTokens(ps: seq<Piece>): seq<Token> {
    if ps == [] then [] else PieceTokens(ps[0]) + PiecesTokens(ps[1..])
  }

  lemma {:induction false} PiecesTokensAppend(a: seq<Piece>, b: seq<Piece>)
    ensures PiecesTokens(a + b) == PiecesTokens(a) + PiecesTokens(b)
  {
    if a == [] {
      assert a + b == b;
    } else {
      assert (a + b)[0] == a[0] && (a + b)[1..] == a[1..] + b;
      PiecesTokensAppend(a[1..], b);
    }
  }

  lemma LexableAppend(a: seq<Piece>, b: seq<Piece>)
    requires Lexable(a) && Lexable(b)
    requires a != [] && b != [] ==> Separate(a[|a| - 1], b[0])
    ensures Lexable(a + b)
  {
    var ab := a + b;
    forall i | 0 <= i < |ab| - 1
      ensures Separate(ab[i], ab[i + 1])
    {
      if i + 1 < |a| {
        assert ab[i] == a[i] && ab[i + 1] == a[i + 1];
      } else if i + 1 == |a| {
        assert ab[i] == a[|a| - 1] && ab[i + 1] == b[0];
      } else {
        assert ab[i] == b[i - |a|] && ab[i + 1] == b[i - |a| + 1];
      }
    }
  }

  // ---------------------------------------------------------------------------
  // Lexing pieces

  /** A character that is neither a digit nor a lower-case letter is one token or none. */
  lemma TokensSingle(c: char, rest: string)
    requires !IsDigit(c) && !('a' <= c <= 'z')
    ensures Tokens([c] + rest) == Step([c]).emitted + Tokens(rest)
  {
    var s := [c] + rest;
    assert s[0] == c && s[1..] == rest;
  }

  /** A rendered number followed by a non-digit is one number token. */
  lemma TokensNumber(n: nat, rest: string)
    requires rest == [] || !IsDigit(rest[0])
    ensures Tokens(Render(n) + rest) == [Number(n)] + Tokens(rest)
  {
    var s := Render(n) + rest;
    var k := |Render(n)|;
    assert s[0] == Render(n)[0];
    RunEndRender(n, rest);
    assert s[..k] == Render(n) && s[k..] == rest;
    ValueOfRender(n);
  }

  /** A lower-case word followed by a non-letter is looked up as a colour. */
  lemma TokensWord(w: string, rest: string)
    requires w != [] && 'a' <= w[0] <= 'z' && forall k | 0 <= k < |w| :: IsLetter(w[k])
    requires rest == [] || !IsLetter(rest[0])
    ensures Tokens(w + rest) == Named(ColorNamed(w)) + Tokens(rest)
  {
    var s := w + rest;
    assert s[0] == w[0];
    LetterEndCovers(s, 1, |w|);
    if |w| < |s| {
      assert s[|w|] == rest[0];
    }
    assert LetterEnd(s, 1) == |w|;
    assert s[..|w|] == w && s[|w|..] == rest;
  }

  lemma TokensPiece(p: Piece, rest: string)
    requires WellFormed(p) && EndsBefore(p, rest)
    ensures Tokens(PieceText(p) + rest) == PieceTokens(p) + Tokens(rest)
  {
    match p
    case Num(n) => TokensNumber(n, rest);
    case Word(w) => TokensWord(w, rest);
    case Sym(ch) => TokensSingle(ch, rest);
  }

  /** Text made of separate pieces lexes piece by piece. */
  lemma {:induction false} TokensFlat(ps: seq<Piece>)
    requires Lexable(ps)
    ensures Tokens(Flat(ps)) == PiecesTokens(ps)
  {
    if ps != [] {
      var tail := ps[1..];
      assert Lexable(tail) by {
        forall i | 0 <= i < |tail| - 1 ensures Separate(tail[i], tail[i + 1]) {
          assert tail[i] == ps[i + 1] && tail[i + 1] == ps[i + 2];
        }
      }
      TokensFlat(tail);
      if tail != [] {
        assert WellFormed(tail[0]) && Separate(ps[0], tail[0]);
        var first := PieceText(tail[0]);
        assert first != [] && Flat(tail)[0] == first[0];
      }
      TokensPiece(ps[0], Flat(tail));
    }
  }

  // ---------------------------------------------------------------------------
  // Text and tokens of a game

  /** `<n> <colour>`. */
  function CountPieces(n: nat, c: Color): seq<Piece> {
    [Num(n), Sym(' '), Word(ColorName(c))]
  }

  /** `, <n> <colour>`. */
  function MorePieces(n: nat, c: Color): seq<Piece> {
    [Sym(','), Sym(' ')] + CountPieces(n, c)
  }

  /** ` <r> red, <g> green, <b> blue`. */
  function SetPieces(s: RevealSet): seq<Piece> {
    [Sym(' ')] + CountPieces(s.red, Red) + MorePieces(s.green, Green) + MorePieces(s.blue, Blue)
  }

  /** The sets, the first after `sep` and the others after `;`. */
  function SetsPieces(sets: seq<RevealSet>, sep: char): seq<Piece> {
    if sets == [] then [] else [Sym(sep)] + SetPieces(sets[0]) + SetsPieces(sets[1..], ';')
  }

  /** `Game <id>`. */
  function HeadPieces(id: nat): seq<Piece> {
    [Sym('G'), Word("ame"), Sym(' '), Num(id)]
  }

  /** `Game <id>: <set>; <set>...` and a newline. */
  function GamePieces(g: Game): seq<Piece> {
    HeadPieces(g.id) + SetsPieces(g.sets, ':') + [Sym('\n')]
  }

  function TextPieces(games: seq<Game>): seq<Piece> {
    if games == [] then [] else GamePieces(games[0]) + TextPieces(games[1..])
  }

  /** The input file holding `games`, one line each. */
  function Text(games: seq<Game>): string {
    Flat(TextPieces(games))
  }

  function SetTokens(s: RevealSet): seq<Token> {
    [Number(s.red), ColorWord(Red), Number(s.green), ColorWord(Green), Number(s.blue), ColorWord(Blue)]
  }

  function SetsTokens(sets: seq<RevealSet>, sep: Token): seq<Token> {
    if sets == [] then [] else [sep] + SetTokens(sets[0]) + SetsTokens(sets[1..], Semicolon)
  }

  function GameTokens(g: Game): seq<Token> {
    [Number(g.id)] + SetsTokens(g.sets, Colon) + [Newline]
  }

  function GamesTokens(games: seq<Game>): seq<Token> {
    if games == [] then [] else GameTokens(games[0]) + GamesTokens(games[1..])
  }

  // ---------------------------------------------------------------------------
  // The pieces of a game are separate and stand for its tokens

  lemma ColorNamedName(c: Color)
    ensures ColorNamed(ColorName(c)) == Some(c)
  {
    assert LowerWord(ColorName(c)) == ColorName(c);
  }

  /** The tokens of a piece followed by others. */
  lemma PiecesTokensCons(p: Piece, ps: seq<Piece>)
    ensures PiecesTokens([p] + ps) == PieceTokens(p) + PiecesTokens(ps)
  {
    assert ([p] + ps)[0] == p && ([p] + ps)[1..] == ps;
  }

  lemma CountPiecesTokens(n: nat, c: Color)
    ensures Lexable(CountPieces(n, c))
    ensures PiecesTokens(CountPieces(n, c)) == [Number(n), ColorWord(c)]
  {
    ColorNamedName(c);
    var word := Word(ColorName(c));
    PiecesTokensCons(word, []);
    PiecesTokensCons(Sym(' '), [word]);
    PiecesTokensCons(Num(n), [Sym(' '), word]);
  }

  lemma MorePiecesTokens(n: nat, c: Color)
    ensures Lexable(MorePieces(n, c)) && MorePieces(n, c)[0] == Sym(',')
    ensures MorePieces(n, c)[|MorePieces(n, c)| - 1] == Word(ColorName(c))
    ensures PiecesTokens(MorePieces(n, c)) == [Number(n), ColorWord(c)]
  {
    var count := CountPieces(n, c);
    CountPiecesTokens(n, c);
    PiecesTokensCons(Sym(' '), count);
    PiecesTokensCons(Sym(','), [Sym(' ')] + count);
    assert MorePieces(n, c) == [Sym(',')] + ([Sym(' ')] + count);
    LexableAppend([Sym(','), Sym(' ')], count);
  }

  lemma SetPiecesTokens(s: RevealSet)
    ensures Lexable(SetPieces(s)) && SetPieces(s)[0] == Sym(' ')
    ensures SetPieces(s)[|SetPieces(s)| - 1] == Word("blue")
    ensures PiecesTokens(SetPieces(s)) == SetTokens(s)
  {
    var red := [Sym(' ')] + CountPieces(s.red, Red);
    var green := MorePieces(s.green, Green);
    var blue := MorePieces(s.blue, Blue);
    CountPiecesTokens(s.red, Red);
    MorePiecesTokens(s.green, Green);
    MorePiecesTokens(s.blue, Blue);
    PiecesTokensCons(Sym(' '), CountPieces(s.red, Red));
    LexableAppend([Sym(' ')], CountPieces(s.red, Red));
    LexableAppend(red, green);
    LexableAppend(red + green, blue);
    PiecesTokensAppend(red, green);
    PiecesTokensAppend(red + green, blue);
  }

  lemma {:induction false} SetsPiecesTokens(sets: seq<RevealSet>, sep: char)
    requires sep == ':' || sep == ';'
    ensures Lexable(SetsPieces(sets, sep))
    ensures sets != [] ==> SetsPieces(sets, sep)[0] == Sym(sep)
    ensures sets != [] ==> SetsPieces(sets, sep)[|SetsPieces(sets, sep)| - 1] == Word("blue")
    ensures PiecesTokens(SetsPieces(sets, sep)) == SetsTokens(sets, if sep == ':' then Colon else Semicolon)
  {
    if sets != [] {
      var head := [Sym(sep)] + SetPieces(sets[0]);
      var tail := SetsPieces(sets[1..], ';');
      SetPiecesTokens(sets[0]);
      SetsPiecesTokens(sets[1..], ';');
      PiecesTokensCons(Sym(sep), SetPieces(sets[0]));
      LexableAppend([Sym(sep)], SetPieces(sets[0]));
      LexableAppend(head, tail);
      PiecesTokensAppend(head, tail);
      if tail != [] {
        assert (head + tail)[|head + tail| - 1] == tail[|tail| - 1];
      } else {
        assert head + tail == head;
      }
    }
  }

  lemma HeadLexable(id: nat)
    ensures Lexable(HeadPieces(id))
  {
    assert WellFormed(Word("ame")) by {
      assert forall k | 0 <= k < 3 :: IsLetter("ame"[k]);
    }
  }

  /** The rest of the word `Game` is no colour. */
  lemma AmeNamesNothing()
    ensures PieceTokens(Word("ame")) == []
  {
    assert LowerWord("ame") == "ame";
  }

  lemma HeadPiecesTokens(id: nat)
    ensures Lexable(HeadPieces(id))
    ensures PiecesTokens(HeadPieces(id)) == [Number(id)]
  {
    var ps := HeadPieces(id);
    HeadLexable(id);
    AmeNamesNothing();
    assert PieceTokens(Sym('G')) == [] && PieceTokens(Sym(' ')) == [];
    assert PiecesTokens(ps[3..]) == [Number(id)] by {
      PiecesTokensCons(Num(id), []);
      assert ps[3..] == [Num(id)] + [];
    }
    PiecesTokensCons(Sym(' '), ps[3..]);
    PiecesTokensCons(Word("ame"), ps[2..]);
    PiecesTokensCons(Sym('G'), ps[1..]);
    assert ps[2..] == [Sym(' ')] + ps[3..] && ps[1..] == [Word("ame")] + ps[2..] && ps == [Sym('G')] + ps[1..];
  }

  lemma GamePiecesTokens(g: Game)
    ensures Lexable(GamePieces(g))
    ensures GamePieces(g)[0] == Sym('G') && GamePieces(g)[|GamePieces(g)| - 1] == Sym('\n')
    ensures PiecesTokens(GamePieces(g)) == GameTokens(g)
  {
    var head := HeadPieces(g.id);
    var sets := SetsPieces(g.sets, ':');
    HeadPiecesTokens(g.id);
    SetsPiecesTokens(g.sets, ':');
    PiecesTokensCons(Sym('\n'), []);
    LexableAppend(head, sets);
    LexableAppend(head + sets, [Sym('\n')]);
    PiecesTokensAppend(head, sets);
    PiecesTokensAppend(head + sets, [Sym('\n')]);
  }

  lemma {:induction false} TextPiecesTokens(games: seq<Game>)
    ensures Lexable(TextPieces(games))
    ensures games != [] ==> TextPieces(games)[0] == Sym('G')
    ensures PiecesTokens(TextPieces(games)) == GamesTokens(games)
  {
    if games != [] {
      GamePiecesTokens(games[0]);
      TextPiecesTokens(games[1..]);
      LexableAppend(GamePieces(games[0]), TextPieces(games[1..]));
      PiecesTokensAppend(GamePieces(games[0]), TextPieces(games[1..]));
    }
  }

  /** The text of a list of games lexes to their tokens, line by line. */
  lemma TokensText(games: seq<Game>)
    ensures Tokens(Text(games)) == GamesTokens(games)
  {
    TextPiecesTokens(games);
    TokensFlat(TextPieces(games));
  }

  // ---------------------------------------------------------------------------
  // Parsing the tokens

  /** A number and the colour after it set that colour's count. */
  lemma ReadPair(n: nat, c: Color, more: seq<Token>, shown: RevealSet)
    ensures SetLength([Number(n), ColorWord(c)] + more) == 2 + SetLength(more)
    ensures Mentions([Number(n), ColorWord(c)] + more, shown) == Mentions(more, WithCount(shown, c, n))
  {
    var ts := [Number(n), ColorWord(c)] + more;
    assert ts[1..] == [ColorWord(c)] + more && ts[1..][1..] == more;
  }

  /** A set's tokens followed by a separator or newline are read back as that set. */
  lemma ReadSet(s: RevealSet, more: seq<Token>)
    requires more == [] || !InSet(more[0])
    ensures SetLength(SetTokens(s) + more) == 6
    ensures Mentions(SetTokens(s) + more, NoCubes) == s
  {
    var blue := [Number(s.blue), ColorWord(Blue)] + more;
    var green := [Number(s.green), ColorWord(Green)] + blue;
    assert SetTokens(s) + more == [Number(s.red), ColorWord(Red)] + green;
    ReadPair(s.red, Red, green, NoCubes);
    ReadPair(s.green, Green, blue, WithCount(NoCubes, Red, s.red));
    ReadPair(s.blue, Blue, more, WithCount(WithCount(NoCubes, Red, s.red), Green, s.green));
  }

  /** A separator and a set's tokens make one round that adds that set to the game. */
  lemma ReadSeparatedSet(sep: Token, s: RevealSet, after: seq<Token>, game: Game)
    requires sep == Colon || sep == Semicolon
    requires after == [] || !InSet(after[0])
    ensures GameRound([sep] + (SetTokens(s) + after), game) == Round(game.(sets := game.sets + [s]), 7, true)
  {
    var ts := [sep] + (SetTokens(s) + after);
    assert ts[0] == sep && ts[1..] == SetTokens(s) + after;
    ReadSet(s, after);
  }

  /** `parse_game` reads a separated set, then goes on with what follows it. */
  lemma ReadSetThen(sep: Token, s: RevealSet, after: seq<Token>, game: Game)
    requires sep == Colon || sep == Semicolon
    requires after == [] || !InSet(after[0])
    ensures var rest := GameFrom(after, game.(sets := game.sets + [s]));
      GameFrom([sep] + (SetTokens(s) + after), game) == GameRead(rest.game, 7 + rest.used)
  {
    var ts := [sep] + (SetTokens(s) + after);
    var next := game.(sets := game.sets + [s]);
    ReadSeparatedSet(sep, s, after, game);
    assert ts[7..] == after;
    GameFromRound(ts, game, Round(next, 7, true), GameFrom(after, next));
  }

  lemma SetsTokensCons(sets: seq<RevealSet>, sep: Token, more: seq<Token>)
    requires sets != []
    ensures SetsTokens(sets, sep) + more == [sep] + (SetTokens(sets[0]) + (SetsTokens(sets[1..], Semicolon) + more))
    ensures |SetsTokens(sets, sep)| == 7 + |SetsTokens(sets[1..], Semicolon)|
  {
    var head := [sep] + SetTokens(sets[0]);
    var tail := SetsTokens(sets[1..], Semicolon);
    assert SetsTokens(sets, sep) == head + tail;
    ConcatAssoc(head, tail, more);
    ConcatAssoc([sep], SetTokens(sets[0]), tail + more);
  }

  /** The tokens of sets followed by a newline do not start inside a set. */
  lemma SetsTokensHead(sets: seq<RevealSet>, sep: Token, more: seq<Token>)
    requires sep == Colon || sep == Semicolon
    requires more != [] && more[0] == Newline
    ensures !InSet((SetsTokens(sets, sep) + more)[0])
  {
  }

  lemma {:induction false} ReadSets(sets: seq<RevealSet>, sep: Token, more: seq<Token>, game: Game)
    requires sep == Colon || sep == Semicolon
    requires more != [] && more[0] == Newline
    ensures GameFrom(SetsTokens(sets, sep) + more, game) ==
      GameRead(game.(sets := game.sets + sets), |SetsTokens(sets, sep)| + 1)
  {
    if sets == [] {
      assert SetsTokens(sets, sep) + more == more && more[1..] == more[1..];
      assert game.sets + sets == game.sets;
    } else {
      var after := SetsTokens(sets[1..], Semicolon) + more;
      assert game.sets + [sets[0]] + sets[1..] == game.sets + sets by {
        assert sets == [sets[0]] + sets[1..];
      }
      SetsTokensCons(sets, sep, more);
      SetsTokensHead(sets[1..], Semicolon, more);
      ReadSets(sets[1..], Semicolon, more, game.(sets := game.sets + [sets[0]]));
      ReadSetThen(sep, sets[0], after, game);
    }
  }

  /** A game's tokens are read back as that game, taking all of them. */
  lemma ReadGame(g: Game, more: seq<Token>)
    ensures GameFrom(GameTokens(g) + more, NewGame) == GameRead(g, |GameTokens(g)|)
  {
    var ts := GameTokens(g) + more;
    assert ts == [Number(g.id)] + (SetsTokens(g.sets, Colon) + ([Newline] + more));
    assert ts[1..] == SetsTokens(g.sets, Colon) + ([Newline] + more);
    ReadSets(g.sets, Colon, [Newline] + more, NewGame.(id := g.id));
    assert NewGame.(id := g.id).(sets := [] + g.sets) == g;
  }

  lemma {:induction false} ReadGames(games: seq<Game>)
    ensures GamesFrom(GamesTokens(games)) == Some(games)
  {
    if games != [] {
      var ts := GamesTokens(games);
      ReadGame(games[0], GamesTokens(games[1..]));
      assert ts[|GameTokens(games[0])|..] == GamesTokens(games[1..]);
      ReadGames(games[1..]);
      assert [games[0]] + games[1..] == games;
    }
  }

  /**
   * The round trip: the text of any games lexes and parses back to those
   * games, so `parse` returns on it.
   */
  lemma RoundTrip(games: seq<Game>)
    ensures GamesFrom(Tokens(Text(games))) == Some(games)
  {
    TokensText(games);
    ReadGames(games);
  }
}
