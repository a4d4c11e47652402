/**
 * The desert map of 2023/day-8/src/network.rs: nodes with a left and a right
 * successor, walked by a step list that repeats forever. One start is walked
 * recursively until it first lands on a goal; several starts are each walked
 * by a loop and their step counts are combined by `lcm_all`.
 */
module Networks {
  import opened Wrappers
  import opened GcdLcm

  datatype Step = Left | Right

  /** `Network`: every node name maps to its (left, right) successors. */
  datatype Network = Network(nodes: map<string, (string, string)>)

  // ---------------------------------------------------------------------------
  // The walk

  /**
   * One step from `node` when it is step `k` of the walk (counted from 0):
   * the step list is read cyclically. None where the source panics: the
   * node has no entry, or the step list is empty.
   */
  function Move(net: Network, steps: seq<Step>, node: string, k: nat): (r: Option<string>)
    ensures r.Some? <==> steps != [] && node in net.nodes
    ensures r.Some? && steps[k % |steps|] == Left ==> r.value == net.nodes[node].0
    ensures r.Some? && steps[k % |steps|] == Right ==> r.value == net.nodes[node].1
  {
    if steps == [] || node !in net.nodes then None
    else
      var (left, right) := net.nodes[node];
      Some(if steps[k % |steps|] == Left then left else right)
  }

  /** The node `n` steps into the walk from `start`; None once a step fails. */
  function Walk(net: Network, steps: seq<Step>, start: string, n: nat): Option<string>
  {
    if n == 0 then Some(start)
    else
      match Walk(net, steps, start, n - 1)
      case None => None
      case Some(node) => Move(net, steps, node, n - 1)
  }

  /** After `n` steps the walk stands on a goal. */
  predicate Reaches(net: Network, steps: seq<Step>, isGoal: string -> bool, start: string, n: nat) {
    Walk(net, steps, start, n).Some? && isGoal(Walk(net, steps, start, n).value)
  }

  /** Some goal lies on the walk from `start`, at position `lo` or later. */
  ghost predicate ReachesFrom(net: Network, steps: seq<Step>, isGoal: string -> bool, start: string, lo: nat) {
    exists n: nat :: lo <= n && Reaches(net, steps, isGoal, start, n)
  }

  /** One step past a known position. */
  lemma WalkNext(net: Network, steps: seq<Step>, start: string, n: nat, node: string)
    requires Walk(net, steps, start, n) == Some(node)
    ensures Walk(net, steps, start, n + 1) == Move(net, steps, node, n)
  {
  }

  /** A failed step stays failed: every later position is None too. */
  lemma {:induction false} WalkStuck(net: Network, steps: seq<Step>, start: string, n: nat, m: nat)
    requires n <= m && Walk(net, steps, start, n).None?
    ensures Walk(net, steps, start, m).None?
    decreases m - n
  {
    if n < m {
      WalkStuck(net, steps, start, n + 1, m);
    }
  }

  /** A goal still ahead means the next step from the current node succeeds. */
  lemma StepSucceeds(net: Network, steps: seq<Step>, isGoal: string -> bool, start: string, n: nat, node: string, goal: nat)
    requires Walk(net, steps, start, n) == Some(node)
    requires n < goal && Reaches(net, steps, isGoal, start, goal)
    ensures steps != [] && node in net.nodes
  {
    if steps == [] || node !in net.nodes {
      WalkStuck(net, steps, start, n + 1, goal);
    }
  }

  /** Scanning upward from `lo` finds the first goal at or before `n`. */
  lemma {:induction false} LeastReach(net: Network, steps: seq<Step>, isGoal: string -> bool, start: string, lo: nat, n: nat)
    returns (m: nat)
    requires lo <= n && Reaches(net, steps, isGoal, start, n)
    ensures lo <= m <= n && Reaches(net, steps, isGoal, start, m)
    ensures forall j: nat | lo <= j < m :: !Reaches(net, steps, isGoal, start, j)
    decreases n - lo
  {
    if Reaches(net, steps, isGoal, start, lo) {
      m := lo;
    } else {
      m := LeastReach(net, steps, isGoal, start, lo + 1, n);
    }
  }

  lemma FirstExists(net: Network, steps: seq<Step>, isGoal: string -> bool, start: string, lo: nat)
    requires ReachesFrom(net, steps, isGoal, start, lo)
    ensures exists m: nat :: lo <= m && Reaches(net, steps, isGoal, start, m) &&
              forall j: nat | lo <= j < m :: !Reaches(net, steps, isGoal, start, j)
  {
    var n: nat :| lo <= n && Reaches(net, steps, isGoal, start, n);
    var m := LeastReach(net, steps, isGoal, start, lo, n);
  }

  /** The first position at or after `lo` where the walk stands on a goal. */
  ghost function FirstGoal(net: Network, steps: seq<Step>, isGoal: string -> bool, start: string, lo: nat): (r: nat)
    requires ReachesFrom(net, steps, isGoal, start, lo)
    ensures lo <= r && Reaches(net, steps, isGoal, start, r)
    ensures forall j: nat | lo <= j < r :: !Reaches(net, steps, isGoal, start, j)
  {
    FirstExists(net, steps, isGoal, start, lo);
    var first: nat :| lo <= first && Reaches(net, steps, isGoal, start, first) &&
                      forall j: nat | lo <= j < first :: !Reaches(net, steps, isGoal, start, j);
    first
  }

  /** A position that reaches a goal with none before it is the first goal. */
  lemma FirstGoalUnique(net: Network, steps: seq<Step>, isGoal: string -> bool, start: string, lo: nat, c: nat)
    requires lo <= c && Reaches(net, steps, isGoal, start, c)
    requires forall j: nat | lo <= j < c :: !Reaches(net, steps, isGoal, start, j)
    ensures ReachesFrom(net, steps, isGoal, start, lo)
    ensures FirstGoal(net, steps, isGoal, start, lo) == c
  {
  }

  // ---------------------------------------------------------------------------
  // navigate_imp and navigate_rec

  /**
   * `navigate_imp`: from `start`, step until a goal is reached and count the
   * steps; 0 when `start` is a goal. The source loops forever when no goal is
   * reached and panics on a failed step, so a goal must lie on the walk.
   */
  method NavigateImp(net: Network, start: string, isGoal: string -> bool, steps: seq<Step>)
    returns (count: nat)
    requires ReachesFrom(net, steps, isGoal, start, 0)
    ensures Reaches(net, steps, isGoal, start, count)
    ensures forall j: nat | j < count :: !Reaches(net, steps, isGoal, start, j)
  {
    ghost var goal: nat :| Reaches(net, steps, isGoal, start, goal);
    count := 0;
    var current := start;
    while !isGoal(current)
      invariant count <= goal && Walk(net, steps, start, count) == Some(current)
      invariant NoGoalBefore(net, steps, isGoal, start, count)
      decreases goal - count
    {
      NoGoalExtend(net, steps, isGoal, start, count);
      StepSucceeds(net, steps, isGoal, start, count, current, goal);
      WalkNext(net, steps, start, count, current);
      var paths := net.nodes[current];
      current := match steps[count % |steps|]
        case Left => paths.0
        case Right => paths.1;
      assert Walk(net, steps, start, count + 1) == Some(current);
      count := count + 1;
    }
  }

  /** The walk stands on no goal before position `n`. */
  ghost predicate NoGoalBefore(net: Network, steps: seq<Step>, isGoal: string -> bool, start: string, n: nat) {
    forall j: nat | j < n :: !Reaches(net, steps, isGoal, start, j)
  }

  /** A position that is no goal extends the goal-free prefix by one. */
  lemma NoGoalExtend(net: Network, steps: seq<Step>, isGoal: string -> bool, start: string, n: nat)
    requires NoGoalBefore(net, steps, isGoal, start, n) && !Reaches(net, steps, isGoal, start, n)
    ensures NoGoalBefore(net, steps, isGoal, start, n + 1)
  {
  }

  /**
   * `navigate_rec`: take the next step from `current`, which stands `taken`
   * steps into the walk from `start`, and return the 1-based position of the
   * first goal that a step lands on. The cycling step iterator is at position
   * `taken`; `goal` is a later goal on the walk, which bounds the recursion.
   */
  method NavigateRec(net: Network, isGoal: string -> bool, current: string, steps: seq<Step>,
                     taken: nat, ghost start: string, ghost goal: nat)
    returns (count: nat)
    requires Walk(net, steps, start, taken) == Some(current)
    requires taken < goal && Reaches(net, steps, isGoal, start, goal)
    ensures taken < count && Reaches(net, steps, isGoal, start, count)
    ensures forall j: nat | taken < j < count :: !Reaches(net, steps, isGoal, start, j)
    decreases goal - taken
  {
    StepSucceeds(net, steps, isGoal, start, taken, current, goal);
    WalkNext(net, steps, start, taken, current);
    var paths := net.nodes[current];
    var next := match steps[taken % |steps|]
      case Left => paths.0
      case Right => paths.1;
    if isGoal(next) {
      count := taken + 1;
    } else {
      count := NavigateRec(net, isGoal, next, steps, taken + 1, start, goal);
    }
  }

  // ---------------------------------------------------------------------------
  // navigate

  predicate Distinct(xs: seq<string>) {
    forall i, j | 0 <= i < j < |xs| :: xs[i] != xs[j]
  }

  /** An order in which the node map yields its keys: each key exactly once. */
  predicate KeyOrder(net: Network, order: seq<string>) {
    Distinct(order) &&
    (forall k | k in order :: k in net.nodes) &&
    (forall k | k in net.nodes :: k in order)
  }

  /** The keys that pass `is_start`, in key order. */
  function Starts(order: seq<string>, isStart: string -> bool): (r: seq<string>)
    ensures forall k :: k in r <==> k in order && isStart(k)
  {
    if order == [] then []
    else if isStart(order[0]) then [order[0]] + Starts(order[1..], isStart)
    else Starts(order[1..], isStart)
  }

  lemma {:induction false} StartsDistinct(order: seq<string>, isStart: string -> bool)
    requires Distinct(order)
    ensures Distinct(Starts(order, isStart))
  {
    if order != [] {
      StartsDistinct(order[1..], isStart);
    }
  }

  /** Every start has a goal on its walk. */
  ghost predicate AllReach(net: Network, steps: seq<Step>, isGoal: string -> bool, ms: seq<string>) {
    forall i | 0 <= i < |ms| :: ReachesFrom(net, steps, isGoal, ms[i], 0)
  }

  /** The first goal of every start, in order. */
  ghost function Counts(net: Network, steps: seq<Step>, isGoal: string -> bool, ms: seq<string>): (r: seq<nat>)
    requires AllReach(net, steps, isGoal, ms)
    ensures |r| == |ms|
    ensures forall i | 0 <= i < |ms| :: r[i] == FirstGoal(net, steps, isGoal, ms[i], 0)
  {
    if ms == [] then []
    else Counts(net, steps, isGoal, ms[..|ms| - 1]) + [FirstGoal(net, steps, isGoal, ms[|ms| - 1], 0)]
  }

  /**
   * What `navigate` needs to return: a lone start reaches a goal after at
   * least one step; with several starts each reaches a goal, at most one of
   * them at once (a second 0 makes `lcm` divide by zero), and their `lcm`
   * fits in `u64`.
   */
  ghost predicate Navigable(net: Network, steps: seq<Step>, isGoal: string -> bool, ms: seq<string>) {
    (|ms| == 1 ==> ReachesFrom(net, steps, isGoal, ms[0], 1)) &&
    (|ms| >= 2 ==>
      AllReach(net, steps, isGoal, ms) &&
      Zeros(Counts(net, steps, isGoal, ms)) <= 1 &&
      FoldFits(Counts(net, steps, isGoal, ms)))
  }

  /** The result `navigate` specifies: None without a start, else the step count. */
  ghost function Navigation(net: Network, order: seq<string>, isStart: string -> bool,
                            isGoal: string -> bool, steps: seq<Step>): Option<nat>
    requires Navigable(net, steps, isGoal, Starts(order, isStart))
  {
    var ms := Starts(order, isStart);
    if |ms| == 0 then None
    else if |ms| == 1 then Some(FirstGoal(net, steps, isGoal, ms[0], 1))
    else Some(LcmAll(Counts(net, steps, isGoal, ms)))
  }

  /** The `map` over the starts in `navigate`: each start's `navigate_imp` count. */
  method RequiredSteps(net: Network, matching: seq<string>, isGoal: string -> bool, steps: seq<Step>)
    returns (requiredSteps: seq<nat>)
    requires AllReach(net, steps, isGoal, matching)
    ensures requiredSteps == Counts(net, steps, isGoal, matching)
  {
    requiredSteps := [];
    var i := 0;
    while i < |matching|
      invariant i <= |matching|
      invariant requiredSteps == Counts(net, steps, isGoal, matching[..i])
    {
      var count := NavigateImp(net, matching[i], isGoal, steps);
      FirstGoalUnique(net, steps, isGoal, matching[i], 0, count);
      assert matching[..i + 1][..i] == matching[..i];
      requiredSteps := requiredSteps + [count];
      i := i + 1;
    }
    assert matching[..i] == matching;
  }

  /**
   * `navigate`: the keys that pass `is_start`, in the map's key order `order`;
   * none gives None, one is walked by `navigate_rec`, several are each walked
   * by `navigate_imp` and their counts folded by `lcm_all`.
   */
  method Navigate(net: Network, order: seq<string>, isStart: string -> bool,
                  isGoal: string -> bool, steps: seq<Step>)
    returns (r: Option<nat>)
    requires KeyOrder(net, order)
    requires Navigable(net, steps, isGoal, Starts(order, isStart))
    ensures r == Navigation(net, order, isStart, isGoal, steps)
    ensures r.None? <==> forall k | k in net.nodes :: !isStart(k)
  {
    var matching := Starts(order, isStart);
    if |matching| == 0 {
      r := None;
    } else if |matching| == 1 {
      ghost var goal: nat :| 1 <= goal && Reaches(net, steps, isGoal, matching[0], goal);
      var count := NavigateRec(net, isGoal, matching[0], steps, 0, matching[0], goal);
      FirstGoalUnique(net, steps, isGoal, matching[0], 1, count);
      r := Some(count);
    } else {
      var requiredSteps := RequiredSteps(net, matching, isGoal, steps);
      r := Some(LcmAll(requiredSteps));
    }
    assert matching != [] ==> matching[0] in net.nodes && isStart(matching[0]);
  }

  // ---------------------------------------------------------------------------
  // Independence of the key order

  lemma {:induction false} DistinctCard(xs: seq<string>)
    requires Distinct(xs)
    ensures |set x | x in xs| == |xs|
  {
    if xs != [] {
      DistinctCard(xs[1..]);
      assert (set x | x in xs) == {xs[0]} + (set x | x in xs[1..]);
    }
  }

  /** Two repetition-free lists of the same elements have the same length. */
  lemma SameLength(xs: seq<string>, ys: seq<string>)
    requires Distinct(xs) && Distinct(ys)
    requires forall k :: k in xs <==> k in ys
    ensures |xs| == |ys|
  {
    DistinctCard(xs);
    DistinctCard(ys);
    assert (set x | x in xs) == (set y | y in ys);
  }

  /** Each start's count is among the other order's counts. */
  lemma CountsAmong(net: Network, steps: seq<Step>, isGoal: string -> bool, ms: seq<string>, ns: seq<string>)
    requires AllReach(net, steps, isGoal, ms) && AllReach(net, steps, isGoal, ns)
    requires forall k | k in ms :: k in ns
    ensures forall x | x in Counts(net, steps, isGoal, ms) :: x in Counts(net, steps, isGoal, ns)
  {
    var cs, ds := Counts(net, steps, isGoal, ms), Counts(net, steps, isGoal, ns);
    forall x | x in cs ensures x in ds {
      var i :| 0 <= i < |cs| && cs[i] == x;
      assert ms[i] in ns;
      var j :| 0 <= j < |ns| && ns[j] == ms[i];
      assert ds[j] == x;
    }
  }

  /** Several starts: the folded counts agree for two orders of the same starts. */
  lemma FoldOrderFree(net: Network, steps: seq<Step>, isGoal: string -> bool, ms: seq<string>, ns: seq<string>)
    requires |ms| >= 2 && |ns| >= 2
    requires Navigable(net, steps, isGoal, ms) && Navigable(net, steps, isGoal, ns)
    requires forall k :: k in ms <==> k in ns
    ensures LcmAll(Counts(net, steps, isGoal, ms)) == LcmAll(Counts(net, steps, isGoal, ns))
  {
    CountsAmong(net, steps, isGoal, ms, ns);
    CountsAmong(net, steps, isGoal, ns, ms);
    LcmAllSameElements(Counts(net, steps, isGoal, ms), Counts(net, steps, isGoal, ns));
  }

  /**
   * The result of `navigate` does not depend on the order in which the node
   * map yields its keys.
   */
  lemma NavigationOrderFree(net: Network, o1: seq<string>, o2: seq<string>, isStart: string -> bool,
                            isGoal: string -> bool, steps: seq<Step>)
    requires KeyOrder(net, o1) && KeyOrder(net, o2)
    requires Navigable(net, steps, isGoal, Starts(o1, isStart))
    requires Navigable(net, steps, isGoal, Starts(o2, isStart))
    ensures Navigation(net, o1, isStart, isGoal, steps) == Navigation(net, o2, isStart, isGoal, steps)
  {
    var ms, ns := Starts(o1, isStart), Starts(o2, isStart);
    StartsDistinct(o1, isStart);
    StartsDistinct(o2, isStart);
    SameLength(ms, ns);
    if |ms| == 1 {
      assert ns[0] in ms;
      assert ns[0] == ms[0];
    } else if |ms| >= 2 {
      FoldOrderFree(net, steps, isGoal, ms, ns);
    }
  }

  // ---------------------------------------------------------------------------
  // The example network

  const ExampleNetwork := Network(map[
    "AAA" := ("BBB", "BBB"),
    "BBB" := ("AAA", "ZZZ"),
    "ZZZ" := ("ZZZ", "ZZZ")])

  const ExampleSteps := [Left, Left, Right]

  const ExampleStart: string -> bool := n => n == "AAA"

  const ExampleGoal: string -> bool := n => n == "ZZZ"

  /** From AAA, the walk first stands on ZZZ after six steps. */
  lemma ExampleWalk()
    ensures ReachesFrom(ExampleNetwork, ExampleSteps, ExampleGoal, "AAA", 1)
    ensures FirstGoal(ExampleNetwork, ExampleSteps, ExampleGoal, "AAA", 1) == 6
  {
    var net, steps := ExampleNetwork, ExampleSteps;
    assert Walk(net, steps, "AAA", 1) == Some("BBB");
    assert Walk(net, steps, "AAA", 2) == Some("AAA");
    assert Walk(net, steps, "AAA", 3) == Some("BBB");
    assert Walk(net, steps, "AAA", 4) == Some("AAA");
    assert Walk(net, steps, "AAA", 5) == Some("BBB");
    assert Walk(net, steps, "AAA", 6) == Some("ZZZ");
    FirstGoalUnique(net, steps, ExampleGoal, "AAA", 1, 6);
  }

  /** The example navigation from AAA to ZZZ takes six steps. */
  method NavigateExample() returns (r: Option<nat>)
    ensures r == Some(6)
  {
    var order := ["AAA", "BBB", "ZZZ"];
    assert Starts(order, ExampleStart) == ["AAA"];
    ExampleWalk();
    r := Navigate(ExampleNetwork, order, ExampleStart, ExampleGoal, ExampleSteps);
  }
}
