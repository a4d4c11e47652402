/**
 * The cube game of 2023/day-2/src/main.rs: games of revealed sets of red,
 * green and blue cubes, the check that a game is possible with 12 red, 13
 * green and 14 blue cubes, and the smallest set a game needs and its power.
 */
module CubeGame {
  datatype Color = Red | Green | Blue

  /** One handful of cubes; a colour that was not shown counts 0. */
  datatype RevealSet = RevealSet(red: nat, green: nat, blue: nat)

  datatype Game = Game(id: nat, sets: seq<RevealSet>)

  /** `RevealSet::default()`. */
  const NoCubes: RevealSet := RevealSet(0, 0, 0)

  /** `Game::default()`. */
  const NewGame: Game := Game(0, [])

  /** The cubes in the bag. */
  const Available: RevealSet := RevealSet(12, 13, 14)

  function Count(s: RevealSet, c: Color): nat {
    match c
    case Red => s.red
    case Green => s.green
    case Blue => s.blue
  }

  /** The set with colour `c` set to `n` and the other two unchanged. */
  function WithCount(s: RevealSet, c: Color, n: nat): (r: RevealSet)
    ensures Count(r, c) == n
    ensures forall d: Color | d != c :: Count(r, d) == Count(s, d)
  {
    match c
    case Red => s.(red := n)
    case Green => s.(green := n)
    case Blue => s.(blue := n)
  }

  // ---------------------------------------------------------------------------
  // Possible games

  /** A set shows more of some colour than `limit` holds. */
  predicate Exceeds(s: RevealSet, limit: RevealSet) {
    s.red > limit.red || s.green > limit.green || s.blue > limit.blue
  }

  /** `sets.iter().any(...)` over `Exceeds`. */
  function AnyExceeds(sets: seq<RevealSet>, limit: RevealSet): (r: bool)
    ensures r ==> sets != []
  {
    if sets == [] then false else Exceeds(sets[0], limit) || AnyExceeds(sets[1..], limit)
  }

  /** A game is possible unless one of its sets needs more cubes than the bag holds. */
  predicate Possible(g: Game)
    ensures g.sets == [] ==> Possible(g)
  {
    !AnyExceeds(g.sets, Available)
  }

  lemma {:induction false} AnyExceedsIff(sets: seq<RevealSet>, limit: RevealSet)
    ensures AnyExceeds(sets, limit) <==> exists i | 0 <= i < |sets| :: Exceeds(sets[i], limit)
  {
    if sets != [] {
      AnyExceedsIff(sets[1..], limit);
      if exists i | 0 <= i < |sets| :: Exceeds(sets[i], limit) {
        var i :| 0 <= i < |sets| && Exceeds(sets[i], limit);
        if i > 0 {
          assert Exceeds(sets[1..][i - 1], limit);
        }
      }
      if exists i | 0 <= i < |sets[1..]| :: Exceeds(sets[1..][i], limit) {
        var i :| 0 <= i < |sets[1..]| && Exceeds(sets[1..][i], limit);
        assert Exceeds(sets[i + 1], limit);
      }
    }
  }

  /** A game is possible iff every set has at most 12 red, 13 green and 14 blue cubes. */
  lemma PossibleIff(g: Game)
    ensures Possible(g) <==>
      forall i | 0 <= i < |g.sets| :: g.sets[i].red <= 12 && g.sets[i].green <= 13 && g.sets[i].blue <= 14
  {
    AnyExceedsIff(g.sets, Available);
  }

  /** The ids of the possible games, in order (the `filter` and `map` in `main`). */
  function PossibleIds(games: seq<Game>): (ids: seq<nat>)
    ensures |ids| <= |games|
  {
    if games == [] then []
    else (if Possible(games[0]) then [games[0].id] else []) + PossibleIds(games[1..])
  }

  /** An id is listed iff some possible game carries it. */
  lemma {:induction false} PossibleIdsMembers(games: seq<Game>, k: nat)
    ensures k in PossibleIds(games) <==> exists i | 0 <= i < |games| :: Possible(games[i]) && games[i].id == k
  {
    if games != [] {
      PossibleIdsMembers(games[1..], k);
      if exists i | 0 <= i < |games| :: Possible(games[i]) && games[i].id == k {
        var i :| 0 <= i < |games| && Possible(games[i]) && games[i].id == k;
        if i > 0 {
          assert games[1..][i - 1] == games[i];
        }
      }
      if exists i | 0 <= i < |games[1..]| :: Possible(games[1..][i]) && games[1..][i].id == k {
        var i :| 0 <= i < |games[1..]| && Possible(games[1..][i]) && games[1..][i].id == k;
        assert games[i + 1] == games[1..][i];
      }
    }
  }

  /** The ids of the possible games in `a + b` are those of `a`, then those of `b`. */
  lemma {:induction false} PossibleIdsAppend(a: seq<Game>, b: seq<Game>)
    ensures PossibleIds(a + b) == PossibleIds(a) + PossibleIds(b)
  {
    if a != [] {
      assert (a + b)[0] == a[0] && (a + b)[1..] == a[1..] + b;
      PossibleIdsAppend(a[1..], b);
    } else {
      assert a + b == b;
    }
  }

  /** The `sum()` of a list: no term exceeds it. */
  function Sum(xs: seq<nat>): (r: nat)
    ensures forall i | 0 <= i < |xs| :: xs[i] <= r
  {
    if xs == [] then 0
    else
      assert forall i | 1 <= i < |xs| :: xs[i] == xs[1..][i - 1];
      xs[0] + Sum(xs[1..])
  }

  lemma {:induction false} SumAppend(a: seq<nat>, b: seq<nat>)
    ensures Sum(a + b) == Sum(a) + Sum(b)
  {
    if a != [] {
      assert (a + b)[0] == a[0] && (a + b)[1..] == a[1..] + b;
      SumAppend(a[1..], b);
    } else {
      assert a + b == b;
    }
  }

  /** The first answer: the sum of the ids of the possible games. */
  function PossibleGamesSum(games: seq<Game>): (r: nat)
    ensures forall i | 0 <= i < |games| && Possible(games[i]) :: games[i].id <= r
  {
    var ids := PossibleIds(games);
    assert forall i | 0 <= i < |games| && Possible(games[i]) :: games[i].id in ids by {
      forall i | 0 <= i < |games| && Possible(games[i]) ensures games[i].id in ids {
        PossibleIdsMembers(games, games[i].id);
      }
    }
    Sum(ids)
  }

  /** The first answer over two lists of games is the sum of the two answers. */
  lemma PossibleGamesSumAppend(a: seq<Game>, b: seq<Game>)
    ensures PossibleGamesSum(a + b) == PossibleGamesSum(a) + PossibleGamesSum(b)
  {
    PossibleIdsAppend(a, b);
    SumAppend(PossibleIds(a), PossibleIds(b));
  }

  // ---------------------------------------------------------------------------
  // The minimum set and its power

  function Max(a: nat, b: nat): nat {
    if a >= b then a else b
  }

  /** One step of the minimum-set loop: raise each colour to what `s` shows. */
  function Widen(m: RevealSet, s: RevealSet): RevealSet {
    RevealSet(Max(m.red, s.red), Max(m.green, s.green), Max(m.blue, s.blue))
  }

  /** The minimum-set loop as a left fold from no cubes. */
  function Minimum(sets: seq<RevealSet>): RevealSet {
    if sets == [] then NoCubes else Widen(Minimum(sets[..|sets| - 1]), sets[|sets| - 1])
  }

  /**
   * Each colour of the minimum set is the largest count of that colour over
   * the sets: no set shows more, and it is 0 or some set shows exactly it.
   */
  lemma {:induction false} MinimumIsMax(sets: seq<RevealSet>, c: Color)
    ensures forall i | 0 <= i < |sets| :: Count(sets[i], c) <= Count(Minimum(sets), c)
    ensures Count(Minimum(sets), c) == 0 || exists i | 0 <= i < |sets| :: Count(sets[i], c) == Count(Minimum(sets), c)
  {
    if sets != [] {
      var front := sets[..|sets| - 1];
      MinimumIsMax(front, c);
      forall i | 0 <= i < |front| ensures sets[i] == front[i] { }
    }
  }

  /**
   * The minimum-set loop: start from no cubes and raise each colour to every
   * set's count in turn.
   */
  method MinimumSet(g: Game) returns (minimum: RevealSet)
    ensures minimum == Minimum(g.sets)
  {
    minimum := NoCubes;
    for k := 0 to |g.sets|
      invariant minimum == Minimum(g.sets[..k])
    {
      var shown := g.sets[k];
      assert g.sets[..k + 1][..k] == g.sets[..k];
      minimum := minimum.(red := Max(minimum.red, shown.red));
      minimum := minimum.(green := Max(minimum.green, shown.green));
      minimum := minimum.(blue := Max(minimum.blue, shown.blue));
    }
    assert g.sets[..|g.sets|] == g.sets;
  }

  /** A game is possible iff its minimum set fits in the bag. */
  lemma PossibleIffMinimumFits(g: Game)
    ensures Possible(g) <==> !Exceeds(Minimum(g.sets), Available)
  {
    PossibleIff(g);
    MinimumIsMax(g.sets, Red);
    MinimumIsMax(g.sets, Green);
    MinimumIsMax(g.sets, Blue);
  }

  /** The power of a set: 0 exactly when one colour has no cubes. */
  function Power(s: RevealSet): (r: nat)
    ensures r == 0 <==> s.red == 0 || s.green == 0 || s.blue == 0
  {
    ProductZero(s.red, s.green, s.blue);
    s.red * s.green * s.blue
  }

  lemma ProductZero(a: nat, b: nat, c: nat)
    ensures a * b * c == 0 <==> a == 0 || b == 0 || c == 0
  {
    if a != 0 && b != 0 && c != 0 {
      assert a * b >= 1;
      assert a * b * c >= 1;
    }
  }

  /** No set shows any cube of colour `c`. */
  predicate NeverShown(sets: seq<RevealSet>, c: Color) {
    forall i | 0 <= i < |sets| :: Count(sets[i], c) == 0
  }

  /** A game's minimum set has power 0 iff some colour is never shown. */
  lemma PowerZero(g: Game)
    ensures Power(Minimum(g.sets)) == 0 <==> exists c: Color :: NeverShown(g.sets, c)
  {
    var m := Minimum(g.sets);
    ProductZero(m.red, m.green, m.blue);
    MinimumIsMax(g.sets, Red);
    MinimumIsMax(g.sets, Green);
    MinimumIsMax(g.sets, Blue);
    if Power(m) == 0 {
      var c := if m.red == 0 then Red else if m.green == 0 then Green else Blue;
      assert Count(m, c) == 0;
      assert NeverShown(g.sets, c);
    }
    if c: Color :| NeverShown(g.sets, c) {
      assert Count(m, c) == 0;
    }
  }

  /** The second answer: the sum of the powers of the games' minimum sets. */
  function SumOfPowers(games: seq<Game>): (r: nat)
    ensures forall i | 0 <= i < |games| :: Power(Minimum(games[i].sets)) <= r
  {
    if games == [] then 0
    else
      assert forall i | 1 <= i < |games| :: games[i] == games[1..][i - 1];
      Power(Minimum(games[0].sets)) + SumOfPowers(games[1..])
  }

  /** The second answer over two lists of games is the sum of the two answers. */
  lemma {:induction false} SumOfPowersAppend(a: seq<Game>, b: seq<Game>)
    ensures SumOfPowers(a + b) == SumOfPowers(a) + SumOfPowers(b)
  {
    if a != [] {
      assert (a + b)[0] == a[0] && (a + b)[1..] == a[1..] + b;
      SumOfPowersAppend(a[1..], b);
    } else {
      assert a + b == b;
    }
  }
}
