/**
 * The hand-written lexer and parser of 2023/day-2/src/main.rs, which read
 * lines such as `Game 1: 3 blue, 4 red; 1 red, 2 green` into games.
 *
 * The lexer walks a peekable character iterator, modelled as an index into
 * the input; what it produces is specified by `Tokens`, a function of the
 * text still to read. The parser walks a peekable token iterator, again an
 * index, and is specified by `Mentions`, `GameFrom` and `GamesFrom`.
 */
module CubeParser {
  import opened Wrappers
  import opened Chars
  import opened CubeGame

  datatype Token = Colon | ColorWord(color: Color) | Number(n: nat) | Semicolon | Newline

  // ---------------------------------------------------------------------------
  // Colour words

  /** ASCII lower case. */
  function Lower(c: char): char {
    if 'A' <= c <= 'Z' then ((c as int) + 32) as char else c
  }

  function LowerWord(w: string): (r: string)
    ensures |r| == |w| && forall k | 0 <= k < |w| :: r[k] == Lower(w[k])
  {
    seq(|w|, k requires 0 <= k < |w| => Lower(w[k]))
  }

  function ColorName(c: Color): string {
    match c
    case Red => "red"
    case Green => "green"
    case Blue => "blue"
  }

  /** `Color::from_str(..).ok()`: case-insensitive lookup of a colour name. */
  function ColorNamed(word: string): (r: Option<Color>)
    ensures r.Some? ==> LowerWord(word) == ColorName(r.value)
  {
    var w := LowerWord(word);
    if w == "red" then Some(Red)
    else if w == "green" then Some(Green)
    else if w == "blue" then Some(Blue)
    else None
  }

  /** A word names colour `c` iff it spells `c`'s name in any ASCII case. */
  lemma ColorNamedIff(word: string, c: Color)
    ensures ColorNamed(word) == Some(c) <==> LowerWord(word) == ColorName(c)
  {
  }

  /** The end of the run of letters starting at `i`. */
  function LetterEnd(s: string, i: nat): (j: nat)
    requires i <= |s|
    ensures i <= j <= |s|
    ensures forall k | i <= k < j :: IsLetter(s[k])
    ensures j == |s| || !IsLetter(s[j])
    decreases |s| - i
  {
    if i < |s| && IsLetter(s[i]) then LetterEnd(s, i + 1) else i
  }

  lemma {:induction false} LetterEndCovers(s: string, i: nat, m: nat)
    requires i <= m <= |s| && forall k | i <= k < m :: IsLetter(s[k])
    ensures m <= LetterEnd(s, i)
    decreases m - i
  {
    if i < m {
      LetterEndCovers(s, i + 1, m);
    }
  }

  /** Letter runs do not depend on what precedes them. */
  lemma LetterEndSuffix(s: string, i: nat, p: nat)
    requires i <= p <= |s|
    ensures LetterEnd(s[i..], p - i) == LetterEnd(s, p) - i
  {
    var t := s[i..];
    LetterEndCovers(s, p, LetterEnd(t, p - i) + i);
    LetterEndCovers(t, p - i, LetterEnd(s, p) - i);
  }

  /**
   * `get_color`: take the next character whatever it is, extend the word
   * with the letters that follow, and look the word up as a colour.
   */
  method GetColor(s: string, i: nat) returns (color: Option<Color>, j: nat)
    requires i <= |s|
    ensures i == |s| ==> color == None && j == i
    ensures i < |s| ==> j == LetterEnd(s, i + 1) && color == ColorNamed(s[i..j])
  {
    if i == |s| {
      return None, i;
    }
    var word := [s[i]];
    j := i + 1;
    while j < |s| && IsLetter(s[j])
      invariant i < j <= |s| && word == s[i..j]
      invariant LetterEnd(s, j) == LetterEnd(s, i + 1)
      decreases |s| - j
    {
      word := word + [s[j]];
      j := j + 1;
    }
    color := ColorNamed(word);
  }

  // ---------------------------------------------------------------------------
  // The lexer

  function Named(color: Option<Color>): seq<Token> {
    match color
    case Some(c) => [ColorWord(c)]
    case None => []
  }

  /** What one round of the `lex` loop emits and how many characters it takes. */
  datatype Lexeme = Lexeme(emitted: seq<Token>, size: nat)

  /**
   * The round at the start of non-empty text `s`: colons, semicolons and
   * newlines stand for themselves, a digit starts a number taking the whole
   * digit run, a lower-case letter starts a word taking the whole letter run
   * that yields a token only when it names a colour, and any other character
   * is dropped.
   */
  function Step(s: string): (r: Lexeme)
    requires s != []
    ensures 0 < r.size <= |s|
    ensures |r.emitted| <= 1
  {
    if s[0] == ':' then Lexeme([Colon], 1)
    else if s[0] == ';' then Lexeme([Semicolon], 1)
    else if IsDigit(s[0]) then
      var k := RunEnd(s, 0);
      Lexeme([Number(ValueOf(s[..k]))], k)
    else if 'a' <= s[0] <= 'z' then
      var k := LetterEnd(s, 1);
      Lexeme(Named(ColorNamed(s[..k])), k)
    else if s[0] == '\n' then Lexeme([Newline], 1)
    else Lexeme([], 1)
  }

  /** The tokens `lex` produces from text `s`. */
  function Tokens(s: string): (r: seq<Token>)
    ensures |r| <= |s|
    decreases |s|
  {
    if s == [] then [] else Step(s).emitted + Tokens(s[Step(s).size..])
  }

  /** One round of the `lex` loop, on the character at `i` and those it takes. */
  method LexToken(input: string, i: nat) returns (emitted: seq<Token>, j: nat)
    requires i < |input|
    ensures i < j <= |input|
    ensures Step(input[i..]) == Lexeme(emitted, j - i)
  {
    ghost var t := input[i..];
    var c := input[i];
    assert t[0] == c;
    if c == ':' {
      emitted, j := [Colon], i + 1;
    } else if c == ';' {
      emitted, j := [Semicolon], i + 1;
    } else if '0' <= c <= '9' {
      var n;
      n, j := ReadNumber(input, i);
      emitted := [Number(n.value)];
      RunEndSuffix(input, i, i);
      assert t[..j - i] == input[i..j];
    } else if 'a' <= c <= 'z' {
      var color;
      color, j := GetColor(input, i);
      emitted := Named(color);
      LetterEndSuffix(input, i, i + 1);
      assert t[..j - i] == input[i..j];
    } else if c == '\n' {
      emitted, j := [Newline], i + 1;
    } else {
      emitted, j := [], i + 1;
    }
  }

  /** `tokens` are what `lex` has pushed once it has read the first `i` characters. */
  ghost predicate LexedUpTo(input: string, tokens: seq<Token>, i: nat) {
    i <= |input| && tokens + Tokens(input[i..]) == Tokens(input)
  }

  lemma LexAdvance(input: string, tokens: seq<Token>, i: nat, emitted: seq<Token>, j: nat)
    requires i < j <= |input| && LexedUpTo(input, tokens, i)
    requires Step(input[i..]) == Lexeme(emitted, j - i)
    ensures LexedUpTo(input, tokens + emitted, j)
  {
    assert Tokens(input[i..]) == emitted + Tokens(input[j..]) by {
      SuffixSuffix(input, i, j);
    }
    ConcatAssoc(tokens, emitted, Tokens(input[j..]));
  }

  /** `lex`: the whole input's tokens, in order. */
  method Lex(input: string) returns (tokens: seq<Token>)
    ensures tokens == Tokens(input)
  {
    tokens := [];
    var i := 0;
    assert input[0..] == input;
    while i < |input|
      invariant LexedUpTo(input, tokens, i)
      decreases |input| - i
    {
      var emitted, j := LexToken(input, i);
      LexAdvance(input, tokens, i, emitted, j);
      tokens, i := tokens + emitted, j;
    }
    assert input[i..] == [];
  }

  // ---------------------------------------------------------------------------
  // `parse_set`

  /** The tokens a set is made of. */
  predicate InSet(t: Token) {
    t.Number? || t.ColorWord?
  }

  /** How many tokens `parse_set` takes: the leading run of numbers and colours. */
  function SetLength(ts: seq<Token>): (k: nat)
    ensures k <= |ts|
    ensures k == |ts| || !InSet(ts[k])
  {
    if ts != [] && InSet(ts[0]) then 1 + SetLength(ts[1..]) else 0
  }

  /** The number at `m` is immediately followed by colour `c`. */
  predicate MentionAt(ts: seq<Token>, m: nat, c: Color) {
    m + 1 < |ts| && ts[m].Number? && ts[m + 1] == ColorWord(c)
  }

  /**
   * The set `parse_set` builds on top of `shown` from the run at the start
   * of `ts`: a number followed by a colour sets that colour's count.
   */
  function Mentions(ts: seq<Token>, shown: RevealSet): RevealSet {
    if ts == [] || !InSet(ts[0]) then shown
    else
      var next := if 1 < |ts| && ts[0].Number? && ts[1].ColorWord? then WithCount(shown, ts[1].color, ts[0].n) else shown;
      Mentions(ts[1..], next)
  }

  /** Mention `m` of colour `c` is the last one in the first `k` tokens. */
  predicate LastMention(ts: seq<Token>, k: nat, m: nat, c: Color) {
    m < k && MentionAt(ts, m, c) && forall p | m < p < k :: !MentionAt(ts, p, c)
  }

  /**
   * In the set read from a run, each colour's count is the number just
   * before its last mention, and a colour never mentioned keeps its count.
   */
  lemma {:induction false} MentionsLast(ts: seq<Token>, shown: RevealSet, c: Color)
    ensures (forall m | 0 <= m < SetLength(ts) :: !MentionAt(ts, m, c)) ==>
      Count(Mentions(ts, shown), c) == Count(shown, c)
    ensures forall m: nat | LastMention(ts, SetLength(ts), m, c) :: Count(Mentions(ts, shown), c) == ts[m].n
  {
    if ts != [] && InSet(ts[0]) {
      var rest := ts[1..];
      var k := SetLength(rest);
      var next := if 1 < |ts| && ts[0].Number? && ts[1].ColorWord? then WithCount(shown, ts[1].color, ts[0].n) else shown;
      assert Mentions(ts, shown) == Mentions(rest, next);
      MentionsLast(rest, next, c);
      assert forall p | 0 <= p < k :: MentionAt(rest, p, c) == MentionAt(ts, p + 1, c);
      if !MentionAt(ts, 0, c) {
        assert Count(next, c) == Count(shown, c);
      } else {
        assert Count(next, c) == ts[0].n;
      }
      forall m: nat | LastMention(ts, SetLength(ts), m, c)
        ensures Count(Mentions(ts, shown), c) == ts[m].n
      {
        if m > 0 {
          assert LastMention(rest, k, m - 1, c);
        }
      }
    }
  }

  /**
   * `parse_set`: read numbers and colours from `i`, setting a colour's count
   * to the number just before it, and stop without consuming at the first
   * other token.
   */
  method ParseSet(tokens: seq<Token>, i: nat) returns (shown: RevealSet, j: nat)
    requires i <= |tokens|
    ensures j == i + SetLength(tokens[i..])
    ensures shown == Mentions(tokens[i..], NoCubes)
  {
    shown := NoCubes;
    j := i;
    while j < |tokens|
      invariant i <= j <= |tokens|
      invariant j + SetLength(tokens[j..]) == i + SetLength(tokens[i..])
      invariant Mentions(tokens[j..], shown) == Mentions(tokens[i..], NoCubes)
      decreases |tokens| - j
    {
      assert tokens[j..][1..] == tokens[j + 1..];
      match tokens[j]
      case Number(num) =>
        j := j + 1;
        if j < |tokens| && tokens[j].ColorWord? {
          match tokens[j].color
          case Red => shown := shown.(red := num);
          case Blue => shown := shown.(blue := num);
          case Green => shown := shown.(green := num);
        }
      case ColorWord(_) =>
        j := j + 1;
      case _ =>
        break;
    }
  }

  // ---------------------------------------------------------------------------
  // `parse_game` and `parse`

  /** One round of the `parse_game` loop: the game after it, tokens taken, and whether the loop goes on. */
  datatype Round = Round(game: Game, size: nat, more: bool)

  /**
   * The round at the start of non-empty `ts`: a number sets the id, a colon
   * or semicolon opens a new set read by `parse_set`, a newline is taken and
   * ends the game, and a colour ends it untaken.
   */
  function GameRound(ts: seq<Token>, game: Game): (r: Round)
    requires ts != []
    ensures r.size <= |ts| && (r.more ==> 0 < r.size)
  {
    match ts[0]
    case Number(n) => Round(game.(id := n), 1, true)
    case Newline => Round(game, 1, false)
    case ColorWord(_) => Round(game, 0, false)
    case _ =>
      var rest := ts[1..];
      Round(game.(sets := game.sets + [Mentions(rest, NoCubes)]), 1 + SetLength(rest), true)
  }

  /** A game read from the start of a token sequence, and how many tokens it took. */
  datatype GameRead = GameRead(game: Game, used: nat)

  /** The game `parse_game` finishes from `game` on tokens `ts`. */
  function GameFrom(ts: seq<Token>, game: Game): (r: GameRead)
    ensures r.used <= |ts|
    decreases |ts|
  {
    if ts == [] then GameRead(game, 0)
    else
      var r := GameRound(ts, game);
      if !r.more then GameRead(r.game, r.size)
      else
        var after := GameFrom(ts[r.size..], r.game);
        GameRead(after.game, r.size + after.used)
  }

  /** A round that goes on, followed by what `parse_game` reads after it. */
  lemma GameFromRound(ts: seq<Token>, game: Game, r: Round, rest: GameRead)
    requires ts != [] && GameRound(ts, game) == r && r.more
    requires GameFrom(ts[r.size..], r.game) == rest
    ensures GameFrom(ts, game) == GameRead(rest.game, r.size + rest.used)
  {
  }

  /** One round of the `parse_game` loop on the token at `j`. */
  method ParseRound(tokens: seq<Token>, j: nat, game: Game) returns (next: Game, k: nat, more: bool)
    requires j < |tokens|
    ensures j <= k <= |tokens|
    ensures GameRound(tokens[j..], game) == Round(next, k - j, more)
  {
    assert tokens[j..][0] == tokens[j] && tokens[j..][1..] == tokens[j + 1..];
    match tokens[j]
    case Number(num) =>
      next, k, more := game.(id := num), j + 1, true;
    case Newline =>
      next, k, more := game, j + 1, false;
    case ColorWord(_) =>
      next, k, more := game, j, false;
    case _ =>
      var shown;
      shown, k := ParseSet(tokens, j + 1);
      next, more := game.(sets := game.sets + [shown]), true;
  }

  /** The game the `parse_game` loop returns, given its state `game` at index `j`. */
  ghost predicate GameResumes(tokens: seq<Token>, i: nat, j: nat, game: Game)
    requires i <= j <= |tokens|
  {
    var r := GameFrom(tokens[j..], game);
    GameFrom(tokens[i..], NewGame) == GameRead(r.game, j - i + r.used)
  }

  /** After a round the loop goes on from the new state, or returns what the round left. */
  lemma ResumeNext(tokens: seq<Token>, i: nat, j: nat, game: Game, next: Game, k: nat, more: bool)
    requires i <= j < |tokens| && GameResumes(tokens, i, j, game)
    requires j <= k && GameRound(tokens[j..], game) == Round(next, k - j, more)
    ensures k <= |tokens|
    ensures more ==> GameResumes(tokens, i, k, next)
    ensures !more ==> GameFrom(tokens[i..], NewGame) == GameRead(next, k - i)
  {
    assert tokens[j..][k - j..] == tokens[k..];
  }

  /** `parse_game`: read one game starting at token `i`. */
  method ParseGame(tokens: seq<Token>, i: nat) returns (game: Game, j: nat)
    requires i <= |tokens|
    ensures i <= j <= |tokens|
    ensures GameFrom(tokens[i..], NewGame) == GameRead(game, j - i)
  {
    game := NewGame;
    j := i;
    while j < |tokens|
      invariant i <= j <= |tokens| && GameResumes(tokens, i, j, game)
      decreases |tokens| - j
    {
      var next, k, more := ParseRound(tokens, j, game);
      ResumeNext(tokens, i, j, game, next, k, more);
      game, j := next, k;
      if !more {
        return;
      }
    }
    assert tokens[j..] == [];
  }

  /**
   * The games `parse` reads from `ts`, or `None` where it never returns:
   * a game that takes no token (one that starts at a colour) leaves the
   * `parse` loop calling `parse_game` at the same place forever.
   */
  function GamesFrom(ts: seq<Token>): (r: Option<seq<Game>>)
    ensures r.Some? ==> |r.value| <= |ts|
    decreases |ts|
  {
    if ts == [] then Some([])
    else
      var r := GameFrom(ts, NewGame);
      if r.used == 0 then None
      else match GamesFrom(ts[r.used..])
        case Some(games) => Some([r.game] + games)
        case None => None
  }

  /** `games` are what `parse` has pushed once it has read the first `i` tokens, and it returns. */
  ghost predicate ParsedUpTo(tokens: seq<Token>, games: seq<Game>, i: nat) {
    i <= |tokens| && GamesFrom(tokens[i..]).Some? && GamesFrom(tokens).Some? &&
    games + GamesFrom(tokens[i..]).value == GamesFrom(tokens).value
  }

  lemma ParseAdvance(tokens: seq<Token>, games: seq<Game>, i: nat, game: Game, j: nat)
    requires i < |tokens| && ParsedUpTo(tokens, games, i)
    requires i <= j <= |tokens| && GameFrom(tokens[i..], NewGame) == GameRead(game, j - i)
    ensures i < j && ParsedUpTo(tokens, games + [game], j)
  {
    var s := tokens[i..];
    assert s != [] && GameFrom(s, NewGame).used == j - i;
    assert s[j - i..] == tokens[j..];
    assert j - i != 0 && GamesFrom(tokens[j..]).Some? by {
      assert GamesFrom(s).Some?;
    }
    var later := GamesFrom(tokens[j..]).value;
    assert GamesFrom(s).value == [game] + later;
    ConcatAssoc(games, [game], later);
  }

  /** `parse`, on the tokens: read games until the tokens run out. */
  method Parse(tokens: seq<Token>) returns (games: seq<Game>)
    requires GamesFrom(tokens).Some?
    ensures games == GamesFrom(tokens).value
  {
    games := [];
    var i := 0;
    assert tokens[0..] == tokens;
    while i < |tokens|
      invariant ParsedUpTo(tokens, games, i)
      decreases |tokens| - i
    {
      var game, j := ParseGame(tokens, i);
      ParseAdvance(tokens, games, i, game, j);
      games, i := games + [game], j;
    }
    assert tokens[i..] == [];
  }

  /** `parse`: lex the input, then read its games. */
  method ParseInput(input: string) returns (games: seq<Game>)
    requires GamesFrom(Tokens(input)).Some?
    ensures games == GamesFrom(Tokens(input)).value
  {
    var tokens := Lex(input);
    games := Parse(tokens);
  }

  // ---------------------------------------------------------------------------
  // What `parse_game` reads

  predicate Separator(t: Token) {
    t == Colon || t == Semicolon
  }

  /** How many colons and semicolons `ts` holds. */
  function Separators(ts: seq<Token>): nat {
    if ts == [] then 0 else (if Separator(ts[0]) then 1 else 0) + Separators(ts[1..])
  }

  lemma {:induction false} SeparatorsAppend(a: seq<Token>, b: seq<Token>)
    ensures Separators(a + b) == Separators(a) + Separators(b)
  {
    if a != [] {
      assert (a + b)[0] == a[0] && (a + b)[1..] == a[1..] + b;
      SeparatorsAppend(a[1..], b);
    } else {
      assert a + b == b;
    }
  }

  lemma SeparatorsSplit(ts: seq<Token>, k: nat, n: nat)
    requires k + n <= |ts|
    ensures Separators(ts[..k + n]) == Separators(ts[..k]) + Separators(ts[k..][..n])
  {
    assert ts[..k + n] == ts[..k] + ts[k..][..n];
    SeparatorsAppend(ts[..k], ts[k..][..n]);
  }

  /** A set's tokens hold no separator. */
  lemma {:induction false} SetHasNoSeparator(ts: seq<Token>)
    ensures Separators(ts[..SetLength(ts)]) == 0
  {
    if ts != [] && InSet(ts[0]) {
      assert ts[..SetLength(ts)][1..] == ts[1..][..SetLength(ts[1..])];
      SetHasNoSeparator(ts[1..]);
    }
  }

  /** A round adds a set exactly when it takes a separator, and keeps the sets before. */
  lemma RoundSets(ts: seq<Token>, game: Game)
    requires ts != []
    ensures var r := GameRound(ts, game);
      |r.game.sets| == |game.sets| + Separators(ts[..r.size]) && r.game.sets[..|game.sets|] == game.sets
  {
    var r := GameRound(ts, game);
    assert ts[..r.size] == [] || (ts[..r.size][0] == ts[0] && ts[..r.size][1..] == ts[1..][..r.size - 1]);
    if Separator(ts[0]) {
      SetHasNoSeparator(ts[1..]);
    }
  }

  /** `parse_game` keeps the sets it started with. */
  lemma {:induction false} GameFromKeepsSets(ts: seq<Token>, game: Game)
    ensures |game.sets| <= |GameFrom(ts, game).game.sets|
    ensures GameFrom(ts, game).game.sets[..|game.sets|] == game.sets
    decreases |ts|
  {
    if ts != [] {
      var r := GameRound(ts, game);
      RoundSets(ts, game);
      if r.more {
        GameFromKeepsSets(ts[r.size..], r.game);
      }
    }
  }

  /** `parse_game` adds one set for each colon or semicolon among the tokens it takes. */
  lemma {:induction false} GameFromSets(ts: seq<Token>, game: Game)
    ensures |GameFrom(ts, game).game.sets| == |game.sets| + Separators(ts[..GameFrom(ts, game).used])
    decreases |ts|
  {
    if ts != [] {
      var r := GameRound(ts, game);
      RoundSets(ts, game);
      if r.more {
        var tail := ts[r.size..];
        var after := GameFrom(tail, r.game);
        GameFromSets(tail, r.game);
        GameFromRound(ts, game, r, after);
        SeparatorsSplit(ts, r.size, after.used);
        assert |after.game.sets| == |game.sets| + Separators(ts[..r.size + after.used]);
      }
    }
  }

  /** How many numbers `ts` starts with. */
  function LeadingNumbers(ts: seq<Token>): (k: nat)
    ensures k <= |ts| && (k > 0 ==> ts[k - 1].Number?)
  {
    if ts != [] && ts[0].Number? then 1 + LeadingNumbers(ts[1..]) else 0
  }

  /**
   * The id is the last of the numbers the game starts with; numbers after
   * the first colon belong to sets.
   */
  lemma {:induction false} GameFromId(ts: seq<Token>, game: Game)
    ensures GameFrom(ts, game).game.id ==
      if LeadingNumbers(ts) == 0 then game.id else ts[LeadingNumbers(ts) - 1].n
    decreases |ts|
  {
    if ts != [] {
      var r := GameRound(ts, game);
      if r.more {
        var tail := ts[r.size..];
        GameFromId(tail, r.game);
        if ts[0].Number? {
          assert tail == ts[1..];
          if LeadingNumbers(tail) > 0 {
            assert tail[LeadingNumbers(tail) - 1] == ts[LeadingNumbers(ts) - 1];
          }
        } else if tail != [] {
          assert tail[0] == ts[r.size];
        }
      }
    }
  }

  /**
   * `parse_game` stops at the end of the tokens, just after a newline, or
   * at a colour it leaves in place.
   */
  lemma {:induction false} GameFromEnds(ts: seq<Token>, game: Game)
    ensures var r := GameFrom(ts, game);
      r.used == |ts| || ts[r.used].ColorWord? || (0 < r.used && ts[r.used - 1] == Newline)
    decreases |ts|
  {
    if ts != [] {
      var r := GameRound(ts, game);
      if r.more {
        var tail := ts[r.size..];
        var after := GameFrom(tail, r.game);
        GameFromEnds(tail, r.game);
        GameFromRound(ts, game, r, after);
        if after.used < |tail| {
          assert tail[after.used] == ts[r.size + after.used];
        }
        if 0 < after.used {
          assert tail[after.used - 1] == ts[r.size + after.used - 1];
        }
      }
    }
  }

  // ---------------------------------------------------------------------------
  // A colour before a game's first colon

  /** Text that starts with a colour word makes `parse` loop forever. */
  lemma StrayColorStalls()
    ensures Tokens("red") == [ColorWord(Red)]
    ensures GamesFrom(Tokens("red")) == None
  {
    var s := "red";
    assert LetterEnd(s, 3) == 3;
    assert LetterEnd(s, 1) == 3;
    assert s[..3] == s && LowerWord(s) == s;
    assert Step(s) == Lexeme([ColorWord(Red)], 3);
    assert s[3..] == [];
  }

  /**
   * The `parse_game` round as evidently intended: a colour at game level is
   * taken and skipped, as `parse_set` skips a colour with no number before it.
   */
  function GameRoundFixed(ts: seq<Token>, game: Game): (r: Round)
    requires ts != []
    ensures r.size <= |ts| && (r.more ==> 0 < r.size) && (ts[0].ColorWord? ==> r.more)
  {
    if ts[0].ColorWord? then Round(game, 1, true) else GameRound(ts, game)
  }

  function GameFromFixed(ts: seq<Token>, game: Game): (r: GameRead)
    ensures r.used <= |ts|
    ensures ts != [] ==> r.used > 0
    decreases |ts|
  {
    if ts == [] then GameRead(game, 0)
    else
      var r := GameRoundFixed(ts, game);
      if !r.more then GameRead(r.game, r.size)
      else
        var after := GameFromFixed(ts[r.size..], r.game);
        GameRead(after.game, r.size + after.used)
  }

  /** `parse` with the intended `parse_game`: every game takes a token, so it always ends. */
  function GamesFixed(ts: seq<Token>): seq<Game>
    decreases |ts|
  {
    if ts == [] then []
    else
      var r := GameFromFixed(ts, NewGame);
      [r.game] + GamesFixed(ts[r.used..])
  }

  /** Where `parse_game` does not stop at a colour, the fixed version reads the same game. */
  lemma {:induction false} GameFromFixedAgrees(ts: seq<Token>, game: Game)
    requires GameFrom(ts, game).used == |ts| || !ts[GameFrom(ts, game).used].ColorWord?
    ensures GameFromFixed(ts, game) == GameFrom(ts, game)
    decreases |ts|
  {
    if ts != [] {
      var r := GameRound(ts, game);
      if r.more {
        var tail := ts[r.size..];
        var after := GameFrom(tail, r.game);
        if after.used < |tail| {
          assert tail[after.used] == ts[r.size + after.used];
        }
        GameFromFixedAgrees(tail, r.game);
      }
    }
  }

  /** Whenever `parse` returns, the fixed version reads the same games. */
  lemma {:induction false} GamesFixedAgrees(ts: seq<Token>)
    requires GamesFrom(ts).Some?
    ensures GamesFixed(ts) == GamesFrom(ts).value
    decreases |ts|
  {
    if ts != [] {
      var r := GameFrom(ts, NewGame);
      var tail := ts[r.used..];
      if r.used < |ts| && ts[r.used].ColorWord? {
        assert false;
      }
      GameFromFixedAgrees(ts, NewGame);
      GamesFixedAgrees(tail);
    }
  }

  /** The fixed `parse` reads the stalling text as one game with no sets. */
  lemma StrayColorSkipped()
    ensures GamesFixed(Tokens("red")) == [NewGame]
  {
    StrayColorStalls();
    var ts := [ColorWord(Red)];
    assert ts[1..] == [];
    assert GameFromFixed(ts, NewGame) == GameRead(NewGame, 1);
  }
}
