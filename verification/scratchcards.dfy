/**
 * The scratchcards of 2023/day-4/src/main.rs: each card has a set of winning
 * numbers and a set of numbers played. A card scores by its matches (the
 * played numbers that win), and in the copy cascade each card's matches win
 * one more instance of each of the cards right after it, once per instance
 * of the card.
 */
module Scratchcards {
  /** `Card`: its number, the winning numbers and the numbers played (both `HashSet`s). */
  datatype Card = Card(number: nat, winning: set<nat>, numbers: set<nat>)

  /** `Card::default()`. */
  const NewCard: Card := Card(0, {}, {})

  /** The number of played numbers that are winning numbers. */
  function Matches(c: Card): nat {
    |c.numbers * c.winning|
  }

  // ---------------------------------------------------------------------------
  // `Card::matches`

  /**
   * `numbers.iter().filter(|n| winning_numbers.contains(n)).count()`, for the
   * played numbers yielded in the order `xs`.
   */
  function CountWinning(xs: seq<nat>, winning: set<nat>): (r: nat)
    ensures r <= |xs|
    ensures r == 0 <==> forall i | 0 <= i < |xs| :: xs[i] !in winning
  {
    if xs == [] then 0
    else
      assert forall i | 1 <= i < |xs| :: xs[i] == xs[1..][i - 1];
      (if xs[0] in winning then 1 else 0) + CountWinning(xs[1..], winning)
  }

  /** The numbers a list yields. */
  function Elements(xs: seq<nat>): set<nat> {
    set x | x in xs
  }

  predicate Distinct(xs: seq<nat>) {
    forall i, j | 0 <= i < j < |xs| :: xs[i] != xs[j]
  }

  /** Adding a new element `x` to `a` adds one winner if `x` wins and none otherwise. */
  lemma WinnersWithOne(a: set<nat>, x: nat, winning: set<nat>)
    requires x !in a
    ensures |(a + {x}) * winning| == |a * winning| + (if x in winning then 1 else 0)
  {
    if x in winning {
      assert (a + {x}) * winning == a * winning + {x};
    } else {
      assert (a + {x}) * winning == a * winning;
    }
  }

  /** Counting the winners of a repetition-free list counts the winners among its elements. */
  lemma {:induction false} CountWinningElements(xs: seq<nat>, winning: set<nat>)
    requires Distinct(xs)
    ensures CountWinning(xs, winning) == |Elements(xs) * winning|
  {
    if xs != [] {
      var tail := Elements(xs[1..]);
      assert Distinct(xs[1..]) by {
        forall i, j | 0 <= i < j < |xs| - 1 ensures xs[1..][i] != xs[1..][j] {
          assert xs[1..][i] == xs[i + 1] && xs[1..][j] == xs[j + 1];
        }
      }
      CountWinningElements(xs[1..], winning);
      assert Elements(xs) == tail + {xs[0]};
      assert xs[0] !in tail;
      WinnersWithOne(tail, xs[0], winning);
    }
  }

  /**
   * `Card::matches` is the number of played numbers that win, whatever order
   * the set of played numbers is iterated in.
   */
  lemma MatchesAnyOrder(c: Card, xs: seq<nat>)
    requires Distinct(xs) && Elements(xs) == c.numbers
    ensures CountWinning(xs, c.winning) == Matches(c)
  {
    CountWinningElements(xs, c.winning);
  }

  // ---------------------------------------------------------------------------
  // `Card::points` and `get_card_point_total`

  function Pow2(k: nat): (r: nat)
    ensures r >= 1
  {
    if k == 0 then 1 else 2 * Pow2(k - 1)
  }

  /** The points of a card with `m` matches: none without a match, else 2^(m-1). */
  function PointsOf(m: nat): nat {
    if m == 0 then 0 else Pow2(m - 1)
  }

  /** `Card::points`: start at 1 and double once for every match after the first. */
  method Points(c: Card) returns (value: nat)
    ensures Matches(c) == 0 ==> value == 0
    ensures Matches(c) > 0 ==> value == Pow2(Matches(c) - 1)
  {
    var matches := Matches(c);
    if matches == 0 {
      return 0;
    }
    value := 1;
    for k := 1 to matches
      invariant value == Pow2(k - 1)
    {
      value := value * 2;
    }
  }

  /** `get_card_point_total`: the sum of the cards' points. */
  function PointTotal(cards: seq<Card>): (r: nat)
    ensures forall i | 0 <= i < |cards| :: PointsOf(Matches(cards[i])) <= r
  {
    if cards == [] then 0
    else
      assert forall i | 1 <= i < |cards| :: cards[i] == cards[1..][i - 1];
      PointsOf(Matches(cards[0])) + PointTotal(cards[1..])
  }

  /** The total is 0 exactly when no card has a match. */
  lemma {:induction false} PointTotalZeroIff(cards: seq<Card>)
    ensures PointTotal(cards) == 0 <==> forall i | 0 <= i < |cards| :: Matches(cards[i]) == 0
  {
    if cards != [] {
      PointTotalZeroIff(cards[1..]);
      assert forall i | 1 <= i < |cards| :: cards[i] == cards[1..][i - 1];
    }
  }

  /** The total of two runs of cards is the sum of their totals. */
  lemma {:induction false} PointTotalAppend(a: seq<Card>, b: seq<Card>)
    ensures PointTotal(a + b) == PointTotal(a) + PointTotal(b)
  {
    if a == [] {
      assert a + b == b;
    } else {
      assert (a + b)[1..] == a[1..] + b;
      PointTotalAppend(a[1..], b);
    }
  }

  // ---------------------------------------------------------------------------
  // `get_card_copies_total`

  /** The matches of each card, in card order. */
  function MatchList(cards: seq<Card>): seq<nat> {
    seq(|cards|, k requires 0 <= k < |cards| => Matches(cards[k]))
  }

  /**
   * One turn of the copy loop at card `i` with `m` matches: each of the next
   * `m` cards that exist gains as many instances as card `i` has.
   */
  function Spread(counts: seq<nat>, i: nat, m: nat): seq<nat>
    requires i < |counts|
  {
    seq(|counts|, k requires 0 <= k < |counts| => if i < k <= i + m then counts[k] + counts[i] else counts[k])
  }

  /** The instance counts once the copy loop has processed the first `i` cards; one instance each at the start. */
  function Propagated(ms: seq<nat>, i: nat): (r: seq<nat>)
    requires i <= |ms|
    ensures |r| == |ms|
  {
    if i == 0 then seq(|ms|, k => 1) else Spread(Propagated(ms, i - 1), i - 1, ms[i - 1])
  }

  function Total(xs: seq<nat>): nat {
    if xs == [] then 0 else xs[0] + Total(xs[1..])
  }

  function Min(a: nat, b: nat): nat {
    if a <= b then a else b
  }

  /** The inner loop of a turn adds card `i`'s count to the cards from `i + 1` up to `stop`, the next `m` that exist. */
  lemma TurnDone(before: seq<nat>, after: seq<nat>, i: nat, m: nat, stop: nat)
    requires i < |before| == |after| && stop == Min(|before|, i + 1 + m)
    requires forall k | 0 <= k < |before| :: after[k] == if i + 1 <= k < stop then before[k] + before[i] else before[k]
    ensures after == Spread(before, i, m)
  {
  }

  /**
   * `get_card_copies_total`: one instance of every card; for each card in
   * order, add its instance count to each of the next `matches` cards (as
   * far as there are cards), then sum the instance counts.
   */
  method CopiesTotal(cards: seq<Card>) returns (total: nat)
    ensures total == Total(Propagated(MatchList(cards), |cards|))
  {
    var n := |cards|;
    ghost var ms := MatchList(cards);
    var copies := new nat[n](k => 1);
    assert copies[..] == Propagated(ms, 0);
    var i := 0;
    while i < n
      invariant i <= n && copies[..] == Propagated(ms, i)
    {
      var instanceCount := copies[i];
      var matches := Matches(cards[i]);
      ghost var before := copies[..];
      if matches > 0 {
        var from := i + 1;
        var stop := Min(n, from + matches);
        for j := from to stop
          invariant forall k | 0 <= k < n :: copies[k] == if from <= k < j then before[k] + instanceCount else before[k]
        {
          copies[j] := copies[j] + instanceCount;
        }
        TurnDone(before, copies[..], i, matches, stop);
      } else {
        TurnDone(before, copies[..], i, 0, i + 1);
      }
      i := i + 1;
    }
    total := Total(copies[..]);
  }

  /**
   * What the first `i` cards pass on to card `j`: the sum of `counts[i']`
   * over the cards `i' < i` whose matches reach card `j`, that is
   * `i' < j <= i' + ms[i']`.
   */
  function Inflow(ms: seq<nat>, counts: seq<nat>, j: nat, i: nat): nat
    requires i <= |ms| == |counts|
  {
    if i == 0 then 0
    else Inflow(ms, counts, j, i - 1) + (if i - 1 < j <= i - 1 + ms[i - 1] then counts[i - 1] else 0)
  }

  /** After `i` turns, card `j` holds one instance plus what the first `i` cards passed on with their final counts. */
  lemma {:induction false} PropagatedInflow(ms: seq<nat>, i: nat, j: nat)
    requires i <= |ms| && j < |ms|
    ensures Propagated(ms, i)[j] == 1 + Inflow(ms, Propagated(ms, |ms|), j, i)
  {
    if i > 0 {
      PropagatedInflow(ms, i - 1, j);
      PropagatedFrozen(ms, i, |ms|);
      assert Propagated(ms, i)[i - 1] == Propagated(ms, i - 1)[i - 1];
    }
  }

  /**
   * The cascade the copy loop computes: each card ends with one instance,
   * plus one per instance of every earlier card whose matches reach it.
   */
  lemma CopiesRecurrence(ms: seq<nat>, j: nat)
    requires j < |ms|
    ensures Propagated(ms, |ms|)[j] == 1 + Inflow(ms, Propagated(ms, |ms|), j, |ms|)
  {
    PropagatedInflow(ms, |ms|, j);
  }

  /** Every card always has at least one instance. */
  lemma {:induction false} PropagatedPositive(ms: seq<nat>, i: nat)
    requires i <= |ms|
    ensures forall k | 0 <= k < |ms| :: Propagated(ms, i)[k] >= 1
  {
    if i > 0 {
      PropagatedPositive(ms, i - 1);
    }
  }

  /** Instance counts only grow as the loop goes on. */
  lemma {:induction false} PropagatedGrows(ms: seq<nat>, i: nat, j: nat)
    requires i <= j <= |ms|
    ensures forall k | 0 <= k < |ms| :: Propagated(ms, i)[k] <= Propagated(ms, j)[k]
    decreases j - i
  {
    if i < j {
      PropagatedGrows(ms, i, j - 1);
    }
  }

  /** Once the loop is past card `k`, card `k`'s count is final: later turns only add to later cards. */
  lemma {:induction false} PropagatedFrozen(ms: seq<nat>, i: nat, j: nat)
    requires i <= j <= |ms|
    ensures forall k | 0 <= k < i :: Propagated(ms, j)[k] == Propagated(ms, i)[k]
    decreases j - i
  {
    if i < j {
      PropagatedFrozen(ms, i, j - 1);
    }
  }

  /** A total of counts that are all at least 1 is at least their number, and equal only when every count is 1. */
  lemma {:induction false} TotalOfPositives(xs: seq<nat>)
    requires forall k | 0 <= k < |xs| :: xs[k] >= 1
    ensures Total(xs) >= |xs|
    ensures Total(xs) == |xs| <==> forall k | 0 <= k < |xs| :: xs[k] == 1
  {
    if xs != [] {
      assert forall k | 1 <= k < |xs| :: xs[k] == xs[1..][k - 1];
      TotalOfPositives(xs[1..]);
    }
  }

  /** Without a match before the last card, no turn changes anything: every card keeps one instance. */
  lemma {:induction false} NoMatchNoCopies(ms: seq<nat>, i: nat)
    requires i <= |ms| && NoEarlyMatch(ms)
    ensures forall k | 0 <= k < |ms| :: Propagated(ms, i)[k] == 1
  {
    if i > 0 {
      NoMatchNoCopies(ms, i - 1);
    }
  }

  /** No card before the last has a match. */
  predicate NoEarlyMatch(ms: seq<nat>) {
    forall t | 0 <= t < |ms| - 1 :: ms[t] == 0
  }

  /** A match on card `t` wins card `t + 1` a second instance, which it keeps. */
  lemma CopiedNext(ms: seq<nat>, t: nat)
    requires t + 1 < |ms| && ms[t] > 0
    ensures Propagated(ms, |ms|)[t + 1] >= 2
  {
    PropagatedPositive(ms, t);
    assert Propagated(ms, t + 1)[t + 1] >= 2;
    PropagatedGrows(ms, t + 1, |ms|);
  }

  /**
   * There are at least as many instances as cards, and exactly as many iff
   * no card before the last has a match (the last card's matches point past
   * the end).
   */
  lemma CopiesAtLeastCards(ms: seq<nat>)
    ensures Total(Propagated(ms, |ms|)) >= |ms|
    ensures Total(Propagated(ms, |ms|)) == |ms| <==> NoEarlyMatch(ms)
  {
    var n := |ms|;
    PropagatedPositive(ms, n);
    TotalOfPositives(Propagated(ms, n));
    if NoEarlyMatch(ms) {
      NoMatchNoCopies(ms, n);
    } else {
      var t :| 0 <= t < n - 1 && ms[t] != 0;
      CopiedNext(ms, t);
    }
  }
}
