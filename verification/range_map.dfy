/**
 * `RangeMap` of 2023/day-5/src/main.rs: one "X-to-Y map" of the almanac, i.e.
 * a list of rules, each sending a source range onto a target range of the same
 * length by a fixed offset, plus the interval tree built from those rules.
 *
 * `ValueFor` maps one number (first containing rule wins, unmapped numbers
 * pass through); `RangesFor` maps a whole range by searching the tree,
 * sorting the pieces found by source start and filling the gaps between them
 * with identity ranges. Its reference definition is `Split`.
 */
module RangeMaps {
  import opened Wrappers
  import opened Intervals
  import opened RangeTree

  /** The eight categories of the almanac, in chain order. */
  datatype ValueKind = Seed | Soil | Fertilizer | Water | Light | Temperature | Humidity | Location

  /** A number tagged with the category it belongs to. */
  datatype Value = Value(kind: ValueKind, number: nat)

  // ---------------------------------------------------------------------------
  // Single values: `iter().find(|p| p.source.contains(n))`

  /** Index of the first rule whose source contains `n`, if any. */
  function FirstContaining(rs: seq<RangePair>, n: nat): (r: Option<nat>)
    ensures r.Some? ==> r.value < |rs| && rs[r.value].source.Contains(n)
    ensures r.Some? ==> forall j | 0 <= j < r.value :: !rs[j].source.Contains(n)
    ensures r.None? <==> forall j | 0 <= j < |rs| :: !rs[j].source.Contains(n)
  {
    if rs == [] then None
    else if rs[0].source.Contains(n) then Some(0)
    else match FirstContaining(rs[1..], n)
      case None => None
      case Some(k) => Some(k + 1)
  }

  /** Where a rule sends a number of its source: same offset from the target start. */
  function Offset(p: RangePair, n: nat): nat
    requires p.source.start <= n
  {
    p.target.start + (n - p.source.start)
  }

  // ---------------------------------------------------------------------------
  // Sorting the pieces: `sort_by_key(|r| r.source.start)`, a stable sort

  ghost predicate SortedByStart(ps: seq<RangePair>) {
    forall i, j | 0 <= i < j < |ps| :: ps[i].source.start <= ps[j].source.start
  }

  /** Inserts `x` before the first element that does not start before it. */
  function InsertByStart(x: RangePair, ps: seq<RangePair>): (r: seq<RangePair>)
    requires SortedByStart(ps)
    ensures SortedByStart(r)
    ensures multiset(r) == multiset(ps) + multiset{x}
  {
    if ps == [] || x.source.start <= ps[0].source.start then [x] + ps
    else
      var rest := InsertByStart(x, ps[1..]);
      InsertBehind(ps, x, rest);
      [ps[0]] + rest
  }

  /** Putting the head of a sorted list back in front of the sorted insertion into its tail. */
  lemma InsertBehind(ps: seq<RangePair>, x: RangePair, rest: seq<RangePair>)
    requires ps != [] && SortedByStart(ps) && ps[0].source.start < x.source.start
    requires SortedByStart(rest) && multiset(rest) == multiset(ps[1..]) + multiset{x}
    ensures SortedByStart([ps[0]] + rest)
    ensures multiset([ps[0]] + rest) == multiset(ps) + multiset{x}
  {
    assert ps == [ps[0]] + ps[1..];
    forall y | y in rest
      ensures ps[0].source.start <= y.source.start
    {
      assert y in multiset(rest);
      if y != x {
        assert y in multiset(ps[1..]);
      }
    }
  }

  /** The elements of `ps` whose source starts at `s`, in their order in `ps`. */
  function WithStart(ps: seq<RangePair>, s: nat): (r: seq<RangePair>)
    ensures |r| <= |ps|
  {
    if ps == [] then []
    else (if ps[0].source.start == s then [ps[0]] else []) + WithStart(ps[1..], s)
  }

  /** Inserting `x` puts it ahead of the elements that start where it does, and moves no other. */
  lemma {:induction false} InsertKeepsOrder(x: RangePair, ps: seq<RangePair>)
    requires SortedByStart(ps)
    ensures forall s: nat :: WithStart(InsertByStart(x, ps), s) ==
                             (if x.source.start == s then [x] else []) + WithStart(ps, s)
  {
    var r := InsertByStart(x, ps);
    if ps == [] || x.source.start <= ps[0].source.start {
      assert r[1..] == ps;
    } else {
      var rest := InsertByStart(x, ps[1..]);
      assert r == [ps[0]] + rest && r[1..] == rest;
      InsertKeepsOrder(x, ps[1..]);
    }
  }

  /**
   * Insertion sort by source start, a stable sort: the result is sorted, a
   * permutation, and the elements of each start keep their order.
   */
  function SortByStart(ps: seq<RangePair>): (r: seq<RangePair>)
    ensures SortedByStart(r)
    ensures multiset(r) == multiset(ps)
    ensures forall s: nat :: WithStart(r, s) == WithStart(ps, s)
  {
    if ps == [] then []
    else
      assert ps == [ps[0]] + ps[1..];
      var tail := SortByStart(ps[1..]);
      InsertKeepsOrder(ps[0], tail);
      InsertByStart(ps[0], tail)
  }

  // ---------------------------------------------------------------------------
  // Filling a query from its sorted pieces

  /** The identity range `a.source.end..b.source.start` when the two pieces leave a gap. */
  function Gap(a: RangePair, b: RangePair): seq<Range> {
    if a.source.end < b.source.start then [Range(a.source.end, b.source.start)] else []
  }

  /** What the peekable walk over `ps` has pushed after its first `n` steps. */
  function Emitted(ps: seq<RangePair>, n: nat): seq<Range>
    requires n <= |ps|
  {
    if n == 0 then []
    else Emitted(ps, n - 1) + [ps[n - 1].target] + (if n < |ps| then Gap(ps[n - 1], ps[n]) else [])
  }

  /** Identity range before the first piece, if the query starts earlier. */
  function Leading(q: Range, first: RangePair): seq<Range> {
    if first.source.start > q.start then [Range(q.start, first.source.start)] else []
  }

  /** Identity range after the last piece, if the query ends later. */
  function Trailing(last: RangePair, q: Range): seq<Range> {
    if last.source.end < q.end then [Range(last.source.end, q.end)] else []
  }

  function Fill(q: Range, ps: seq<RangePair>): seq<Range>
    requires ps != []
  {
    Leading(q, ps[0]) + Emitted(ps, |ps|) + Trailing(ps[|ps| - 1], q)
  }

  /** The pieces `ranges_for` works on: the search result of tree `t`, sorted by source start. */
  function Retrieved(t: Tree, q: Range): seq<RangePair>
    requires WellFormed(t) && q.Valid()
  {
    SortByStart(Pieces(PreOrder(t), q))
  }

  /**
   * Reference definition of `ranges_for`, as written, for a map whose tree is
   * `t` (`Build` of its rules; `Empty` when it has none).
   */
  function Split(t: Tree, q: Range): seq<Range>
    requires WellFormed(t) && q.Valid()
  {
    if t.Empty? then []
    else
      var ps := Retrieved(t, q);
      if ps == [] then [] else Fill(q, ps)
  }

  /** The tail of `ranges_for`: the leading gap, the walk over the pieces, then the trailing gap. */
  method FillPieces(q: Range, ps: seq<RangePair>) returns (out: seq<Range>)
    requires ps != []
    ensures out == Fill(q, ps)
  {
    var first := ps[0];
    out := Leading(q, first);
    var walked := WalkPieces(ps);
    out := out + walked;
    var last := ps[|ps| - 1];
    out := out + Trailing(last, q);
  }

  /** The peekable walk of `ranges_for`: each piece's target, then the gap up to the next piece. */
  method WalkPieces(ps: seq<RangePair>) returns (out: seq<Range>)
    ensures out == Emitted(ps, |ps|)
  {
    out := [];
    var i := 0;
    while i < |ps|
      invariant 0 <= i <= |ps|
      invariant out == Emitted(ps, i)
    {
      var intersection := ps[i];
      out := out + [intersection.target];
      i := i + 1;
      if i < |ps| {
        var next := ps[i];
        if intersection.source.end < next.source.start {
          out := out + [Range(intersection.source.end, next.source.start)];
        }
      }
    }
  }

  // ---------------------------------------------------------------------------
  // The mutable map

  class RangeMap {
    const sourceKind: ValueKind
    const targetKind: ValueKind
    const ranges: seq<RangePair>
    /** The tree the rules build, as a value. */
    ghost const shape: Tree
    var tree: RangeTreeNode?
    ghost var Repr: set<object>

    /** The tree is present exactly when there are rules, and it is the tree built from them. */
    ghost predicate Valid()
      reads this, Repr
    {
      && this in Repr
      && SourcesValid(ranges) && shape == Build(ranges) && WellFormed(shape)
      && (tree == null <==> ranges == [])
      && (tree != null ==>
            && tree in Repr && tree.Repr <= Repr && this !in tree.Repr
            && tree.Valid() && tree.Shape == shape)
    }

    /** `RangeMap::new`: inserts the rules one by one into a fresh tree. */
    constructor (sourceKind: ValueKind, targetKind: ValueKind, ranges: seq<RangePair>)
      requires SourcesValid(ranges)
      ensures Valid() && fresh(Repr)
      ensures this.sourceKind == sourceKind && this.targetKind == targetKind && this.ranges == ranges
    {
      var rangeTree: RangeTreeNode? := null;
      for i := 0 to |ranges|
        invariant rangeTree == null <==> i == 0
        invariant rangeTree != null ==>
                    rangeTree.Valid() && fresh(rangeTree.Repr) && rangeTree.Shape == Build(ranges[..i])
      {
        assert ranges[..i + 1][..i] == ranges[..i];
        assert ranges[i] in ranges;
        if rangeTree != null {
          rangeTree.Insert(ranges[i]);
        } else {
          rangeTree := new RangeTreeNode(ranges[i]);
        }
      }
      assert ranges[..|ranges|] == ranges;
      this.sourceKind := sourceKind;
      this.targetKind := targetKind;
      this.ranges := ranges;
      this.shape := Build(ranges);
      this.tree := rangeTree;
      BuildWellFormed(ranges);
      Repr := {this} + (if rangeTree == null then {} else rangeTree.Repr);
    }

    /**
     * `RangeMap::value_for`: no result for a value of another category;
     * otherwise the first rule containing the number moves it by the rule's
     * offset, and a number no rule contains keeps its value.
     */
    function ValueFor(value: Value): (r: Option<Value>)
      ensures r.None? <==> value.kind != sourceKind
      ensures r.Some? ==> r.value.kind == targetKind
    {
      if value.kind != sourceKind then None
      else
        match FirstContaining(ranges, value.number)
        case Some(i) => Some(Value(targetKind, Offset(ranges[i], value.number)))
        case None => Some(Value(targetKind, value.number))
    }

    /** The number `value_for` gives: moved by the first rule that contains it, else unchanged. */
    lemma ValueForNumber(value: Value)
      requires value.kind == sourceKind
      ensures forall i | 0 <= i < |ranges| && ranges[i].source.Contains(value.number) &&
                         (forall j | 0 <= j < i :: !ranges[j].source.Contains(value.number)) ::
                ValueFor(value).value.number == Offset(ranges[i], value.number)
      ensures (forall i | 0 <= i < |ranges| :: !ranges[i].source.Contains(value.number)) ==>
                ValueFor(value).value.number == value.number
    {
    }

    /** `RangeMap::ranges_for`. */
    method RangesFor(q: Range) returns (out: seq<Range>)
      requires Valid() && q.Valid()
      ensures out == Split(shape, q)
    {
      if tree == null {
        assert shape == Empty;
        return [];
      }
      assert shape.Node?;
      var intersections := tree.FindIntersections(q);
      assert intersections == Pieces(PreOrder(shape), q);
      intersections := SortByStart(intersections);
      assert intersections == Retrieved(shape, q);
      if intersections == [] {
        assert Split(shape, q) == [];
        return [];
      }
      assert Split(shape, q) == Fill(q, intersections);
      out := FillPieces(q, intersections);
    }
  }

  // ---------------------------------------------------------------------------
  // Properties of the fill

  /** Consecutive pieces do not overlap: each ends no later than the next starts. */
  ghost predicate Chained(ps: seq<RangePair>) {
    forall i | 0 <= i < |ps| - 1 :: ps[i].source.end <= ps[i + 1].source.start
  }

  /** Pieces whose sources are well formed, lie in `q` and are as long as their targets. */
  ghost predicate PiecesOf(q: Range, ps: seq<RangePair>) {
    forall y | y in ps ::
      y.source.Valid() && y.source.Within(q) && y.target.Valid() &&
      y.target.Length() == y.source.Length()
  }

  /** After `n` steps the walk has covered the query up to the start of piece `n`. */
  lemma {:induction false} EmittedLength(ps: seq<RangePair>, n: nat)
    requires 1 <= n <= |ps| && Chained(ps)
    requires forall y | y in ps :: y.source.Valid() && y.target.Length() == y.source.Length()
    ensures TotalLength(Emitted(ps, n)) + ps[0].source.start ==
              if n < |ps| then ps[n].source.start else ps[n - 1].source.end
  {
    var gap := if n < |ps| then Gap(ps[n - 1], ps[n]) else [];
    StepLength(Emitted(ps, n - 1), ps[n - 1].target, gap);
    if n > 1 {
      EmittedLength(ps, n - 1);
    }
    assert ps[n - 1] in ps;
    if n < |ps| {
      GapLength(ps[n - 1], ps[n]);
    }
  }

  /** One step of the walk adds the target's length and the gap's. */
  lemma StepLength(prev: seq<Range>, t: Range, gap: seq<Range>)
    ensures TotalLength(prev + [t] + gap) == TotalLength(prev) + t.Length() + TotalLength(gap)
  {
    TotalLengthAppend(prev + [t], gap);
    TotalLengthAppend(prev, [t]);
    assert [t][..0] == [];
  }

  /** A gap covers exactly the values between two pieces that do not touch. */
  lemma GapLength(a: RangePair, b: RangePair)
    ensures TotalLength(Gap(a, b)) == if a.source.end < b.source.start then b.source.start - a.source.end else 0
  {
    if a.source.end < b.source.start {
      assert Gap(a, b)[..0] == [];
    }
  }

  /** Chained pieces inside `q` are filled to exactly the length of `q`. */
  lemma FillConserves(q: Range, ps: seq<RangePair>)
    requires q.Valid() && ps != [] && Chained(ps) && PiecesOf(q, ps)
    ensures TotalLength(Fill(q, ps)) == q.Length()
  {
    var first, last := ps[0], ps[|ps| - 1];
    assert first in ps && last in ps;
    EmittedLength(ps, |ps|);
    TotalLengthAppend(Leading(q, first) + Emitted(ps, |ps|), Trailing(last, q));
    TotalLengthAppend(Leading(q, first), Emitted(ps, |ps|));
    assert TotalLength(Leading(q, first)) == first.source.start - q.start by {
      if first.source.start > q.start {
        assert Leading(q, first)[..0] == [];
      }
    }
    assert TotalLength(Trailing(last, q)) == q.end - last.source.end by {
      if last.source.end < q.end {
        assert Trailing(last, q)[..0] == [];
      }
    }
  }

  lemma {:induction false} EmittedValid(ps: seq<RangePair>, n: nat)
    requires n <= |ps| && forall y | y in ps :: y.target.Valid()
    ensures AllValid(Emitted(ps, n))
  {
    if n > 0 {
      EmittedValid(ps, n - 1);
      assert ps[n - 1] in ps;
    }
  }

  /** Every range the fill produces is well formed. */
  lemma FillValid(q: Range, ps: seq<RangePair>)
    requires ps != [] && forall y | y in ps :: y.target.Valid()
    ensures AllValid(Fill(q, ps))
  {
    EmittedValid(ps, |ps|);
  }

  /** The sorted pieces carry the facts `PiecesFacts` proves of the search result. */
  lemma RetrievedFacts(t: Tree, q: Range)
    requires WellFormed(t) && q.Valid()
    ensures PiecesOf(q, Retrieved(t, q))
    ensures SortedByStart(Retrieved(t, q))
  {
    var found := Pieces(PreOrder(t), q);
    PiecesFacts(PreOrder(t), q);
    forall y | y in Retrieved(t, q) ensures y in found {
      assert y in multiset(SortByStart(found));
    }
  }

  /** `ranges_for` returns nothing exactly when no rule overlaps the query (or there are no rules). */
  lemma SplitEmptyIff(rules: seq<RangePair>, q: Range)
    requires SourcesValid(rules) && q.Valid()
    ensures WellFormed(Build(rules))
    ensures Split(Build(rules), q) == [] <==> forall x | x in rules :: !Overlaps(x.source, q)
  {
    BuildWellFormed(rules);
    if rules != [] {
      assert Build(rules).Node?;
      BuildMembers(rules);
      PiecesEmptyIff(PreOrder(Build(rules)), q);
      RetrievedEmptyIff(Build(rules), q);
    }
  }

  /** Sorting the search result leaves it empty exactly when it was empty. */
  lemma RetrievedEmptyIff(t: Tree, q: Range)
    requires WellFormed(t) && q.Valid()
    ensures Retrieved(t, q) == [] <==> Pieces(PreOrder(t), q) == []
  {
    assert |multiset(Retrieved(t, q))| == |multiset(Pieces(PreOrder(t), q))|;
  }

  /** Every range `ranges_for` produces is well formed. */
  lemma SplitValid(t: Tree, q: Range)
    requires WellFormed(t) && q.Valid()
    ensures AllValid(Split(t, q))
  {
    if t.Node? && Retrieved(t, q) != [] {
      RetrievedFacts(t, q);
      FillValid(q, Retrieved(t, q));
    }
  }

  /**
   * When the sorted pieces are non-empty and do not overlap, `ranges_for`
   * covers the query exactly: the output lengths sum to the query's length.
   */
  lemma SplitConserves(t: Tree, q: Range)
    requires WellFormed(t) && q.Valid()
    requires Retrieved(t, q) != []
    requires DisjointSources(Retrieved(t, q))
    requires forall y | y in Retrieved(t, q) :: y.source.start < y.source.end
    ensures TotalLength(Split(t, q)) == q.Length()
  {
    var ps := Retrieved(t, q);
    RetrievedFacts(t, q);
    SortedDisjointChained(ps);
    FillConserves(q, ps);
  }

  // ---------------------------------------------------------------------------
  // Disjoint rules

  /** Two ranges that share no point and do not meet inside one another. */
  predicate Apart(a: Range, b: Range) {
    a.end <= b.start || b.end <= a.start
  }

  /** The sources of any two different entries are apart. */
  ghost predicate DisjointSources(ps: seq<RangePair>) {
    forall i, j | 0 <= i < |ps| && 0 <= j < |ps| && i != j :: Apart(ps[i].source, ps[j].source)
  }

  lemma SortedDisjointChained(ps: seq<RangePair>)
    requires SortedByStart(ps) && DisjointSources(ps)
    requires forall y | y in ps :: y.source.start < y.source.end
    ensures Chained(ps)
  {
    forall i | 0 <= i < |ps| - 1 ensures ps[i].source.end <= ps[i + 1].source.start {
      assert ps[i + 1] in ps;
      assert Apart(ps[i].source, ps[i + 1].source);
    }
  }

  lemma {:induction false} TwoOccurrences<T>(x: T, s: seq<T>) returns (i: nat, j: nat)
    requires multiset(s)[x] >= 2
    ensures i < j < |s| && s[i] == x && s[j] == x
  {
    assert s == [s[0]] + s[1..];
    if s[0] == x {
      assert x in multiset(s[1..]);
      var k :| 0 <= k < |s[1..]| && s[1..][k] == x;
      i, j := 0, k + 1;
    } else {
      var i', j' := TwoOccurrences(x, s[1..]);
      i, j := i' + 1, j' + 1;
    }
  }

  lemma RepeatCounts<T>(s: seq<T>, i: nat, j: nat)
    requires i < j < |s| && s[i] == s[j]
    ensures multiset(s)[s[i]] >= 2
  {
    assert s == s[..j] + s[j..];
    assert s[i] == s[..j][i];
    assert s[j] == s[j..][0];
  }

  /** Disjointness depends only on the multiset of entries. */
  lemma DisjointPermutation(s: seq<RangePair>, t: seq<RangePair>)
    requires multiset(s) == multiset(t) && DisjointSources(s)
    ensures DisjointSources(t)
  {
    forall i, j | 0 <= i < |t| && 0 <= j < |t| && i != j
      ensures Apart(t[i].source, t[j].source)
    {
      if t[i] == t[j] {
        if i < j { RepeatCounts(t, i, j); } else { RepeatCounts(t, j, i); }
        var a, b := TwoOccurrences(t[i], s);
        assert Apart(s[a].source, s[b].source);
      } else {
        assert t[i] in multiset(s) && t[j] in multiset(s);
        var a :| 0 <= a < |s| && s[a] == t[i];
        var b :| 0 <= b < |s| && s[b] == t[j];
        assert Apart(s[a].source, s[b].source);
      }
    }
  }

  lemma DisjointCons(a: seq<RangePair>, b: seq<RangePair>)
    requires |a| <= 1 && DisjointSources(b)
    requires forall x, y | x in a && y in b :: Apart(x.source, y.source)
    ensures DisjointSources(a + b)
  {
    var ab := a + b;
    forall i, j | 0 <= i < |ab| && 0 <= j < |ab| && i != j
      ensures Apart(ab[i].source, ab[j].source)
    {
      if i < |a| {
        assert ab[j] == b[j - |a|];
      } else if j < |a| {
        assert ab[i] == b[i - |a|];
      } else {
        assert ab[i] == b[i - |a|] && ab[j] == b[j - |a|];
      }
    }
  }

  lemma DisjointTail(rs: seq<RangePair>)
    requires rs != [] && DisjointSources(rs)
    ensures DisjointSources(rs[1..])
  {
    forall i, j | 0 <= i < |rs[1..]| && 0 <= j < |rs[1..]| && i != j
      ensures Apart(rs[1..][i].source, rs[1..][j].source)
    {
      assert Apart(rs[i + 1].source, rs[j + 1].source);
    }
  }

  /** The pieces of disjoint rules are disjoint: each lies inside its own rule. */
  lemma {:induction false} PiecesDisjoint(rs: seq<RangePair>, q: Range)
    requires q.Valid() && SourcesValid(rs) && DisjointSources(rs)
    ensures DisjointSources(Pieces(rs, q))
  {
    if rs != [] {
      var rest := rs[1..];
      DisjointTail(rs);
      PiecesDisjoint(rest, q);
      PiecesFacts(rest, q);
      PieceIsIntersection(rs[0], q);
      forall x, y | x in Piece(rs[0], q) && y in Pieces(rest, q)
        ensures Apart(x.source, y.source)
      {
        var k :| 0 <= k < |rest| && y.source.Within(rest[k].source);
        assert Apart(rs[0].source, rs[k + 1].source);
      }
      DisjointCons(Piece(rs[0], q), Pieces(rest, q));
    }
  }

  // ---------------------------------------------------------------------------
  // Corrected fill

  /** Drops the zero-length pieces that rules merely touching the query produce. */
  function NonEmptyPieces(ps: seq<RangePair>): (r: seq<RangePair>)
    ensures forall y | y in r :: y in ps && y.source.start < y.source.end
    ensures forall y | y in ps && y.source.start < y.source.end :: y in r
  {
    if ps == [] then []
    else
      assert forall y | y in ps :: y == ps[0] || y in ps[1..];
      (if ps[0].source.start < ps[0].source.end then [ps[0]] else []) + NonEmptyPieces(ps[1..])
  }

  lemma {:induction false} NonEmptyDisjoint(ps: seq<RangePair>)
    requires DisjointSources(ps)
    ensures DisjointSources(NonEmptyPieces(ps))
  {
    if ps != [] {
      DisjointTail(ps);
      NonEmptyDisjoint(ps[1..]);
      var head := if ps[0].source.start < ps[0].source.end then [ps[0]] else [];
      forall x, y | x in head && y in NonEmptyPieces(ps[1..])
        ensures Apart(x.source, y.source)
      {
        var k :| 0 <= k < |ps[1..]| && ps[1..][k] == y;
        assert Apart(ps[0].source, ps[k + 1].source);
      }
      DisjointCons(head, NonEmptyPieces(ps[1..]));
    }
  }

  /**
   * `ranges_for` as its comments describe it: a query no rule reaches maps to
   * itself, and pieces of zero length are not part of the fill.
   */
  function SplitFixed(t: Tree, q: Range): seq<Range>
    requires WellFormed(t) && q.Valid()
  {
    var ps := SortByStart(NonEmptyPieces(Pieces(PreOrder(t), q)));
    if ps == [] then [q] else Fill(q, ps)
  }

  /** With rules whose sources are pairwise apart, the corrected fill covers the query exactly. */
  lemma SplitFixedConserves(rules: seq<RangePair>, q: Range)
    requires SourcesValid(rules) && q.Valid() && DisjointSources(rules)
    ensures WellFormed(Build(rules))
    ensures AllValid(SplitFixed(Build(rules), q))
    ensures TotalLength(SplitFixed(Build(rules), q)) == q.Length()
  {
    FoundDisjoint(rules, q);
    var found := Pieces(PreOrder(Build(rules)), q);
    KeptChained(found, q);
    var ps := SortByStart(NonEmptyPieces(found));
    if ps == [] {
      assert [q][..0] == [];
    } else {
      FillConserves(q, ps);
      FillValid(q, ps);
    }
  }

  /** The search over a tree of pairwise-apart rules finds pairwise-apart pieces inside the query. */
  lemma FoundDisjoint(rules: seq<RangePair>, q: Range)
    requires SourcesValid(rules) && q.Valid() && DisjointSources(rules)
    ensures WellFormed(Build(rules))
    ensures DisjointSources(Pieces(PreOrder(Build(rules)), q)) && PiecesOf(q, Pieces(PreOrder(Build(rules)), q))
  {
    BuildWellFormed(rules);
    BuildStoresRules(rules);
    var stored := PreOrder(Build(rules));
    DisjointPermutation(rules, stored);
    PiecesDisjoint(stored, q);
    PiecesFacts(stored, q);
  }

  /** Pairwise-apart pieces, emptied of zero-length ones and sorted, are chained. */
  lemma KeptChained(found: seq<RangePair>, q: Range)
    requires DisjointSources(found) && PiecesOf(q, found)
    ensures PiecesOf(q, SortByStart(NonEmptyPieces(found)))
    ensures Chained(SortByStart(NonEmptyPieces(found)))
  {
    var kept := NonEmptyPieces(found);
    NonEmptyDisjoint(found);
    var ps := SortByStart(kept);
    DisjointPermutation(kept, ps);
    forall y | y in ps ensures y in kept {
      assert y in multiset(ps);
    }
    SortedDisjointChained(ps);
  }

  // ---------------------------------------------------------------------------
  // Worked examples

  /** `range_map_test`: seed 1 under the rule 1..2 -> 4..6 becomes soil 4. */
  method RangeMapExample() returns (soil: Option<Value>)
    ensures soil == Some(Value(Soil, 4))
  {
    var m := new RangeMap(Seed, Soil, [RangePair(Range(1, 2), Range(4, 6))]);
    soil := m.ValueFor(Value(Seed, 1));
    assert FirstContaining(m.ranges, 1) == Some(0);
  }

  /** A query that no rule reaches comes back empty instead of mapped to itself. */
  lemma SplitDropsUnreachedQuery()
    ensures WellFormed(Build([RangePair(Range(0, 5), Range(50, 55))]))
    ensures Split(Build([RangePair(Range(0, 5), Range(50, 55))]), Range(10, 20)) == []
    ensures Range(10, 20).Length() == 10
  {
    SplitEmptyIff([RangePair(Range(0, 5), Range(50, 55))], Range(10, 20));
  }

  /** The corrected fill maps the same query to itself. */
  lemma SplitFixedKeepsUnreachedQuery()
    ensures WellFormed(Build([RangePair(Range(0, 5), Range(50, 55))]))
    ensures SplitFixed(Build([RangePair(Range(0, 5), Range(50, 55))]), Range(10, 20)) == [Range(10, 20)]
  {
    var one := [RangePair(Range(0, 5), Range(50, 55))];
    assert Build(one) == Node(one[0], 5, Empty, Empty);
    assert PreOrder(Build(one)) == one;
    assert Piece(one[0], Range(10, 20)) == [];
    assert Pieces(PreOrder(Build(one)), Range(10, 20)) == [];
  }

  /** Two rules with adjacent sources, the later-starting one listed (and inserted) first. */
  const touchingRules := [RangePair(Range(5, 10), Range(100, 105)), RangePair(Range(0, 5), Range(50, 55))]

  /** The tree `RangeMap::new` builds from `touchingRules`. */
  const touchingTree := Node(touchingRules[0], 10, Node(touchingRules[1], 5, Empty, Empty), Empty)

  lemma TouchingTree()
    ensures Build(touchingRules) == touchingTree && WellFormed(touchingTree) && DisjointSources(touchingRules)
  {
    assert PreOrder(touchingTree) == touchingRules;
  }

  /** The pieces of `touchingTree` for the query 5..7: the real one, then an empty one. */
  lemma TouchingPieces()
    ensures WellFormed(touchingTree)
    ensures Pieces(PreOrder(touchingTree), Range(5, 7)) ==
              [RangePair(Range(5, 7), Range(100, 102)), RangePair(Range(5, 5), Range(55, 55))]
  {
    var rules := touchingRules;
    assert PreOrder(touchingTree) == rules;
    assert Intersection(rules[0].source, Range(5, 7)) == Some(Range(5, 7));
    assert Intersection(rules[1].source, Range(5, 7)) == Some(Range(5, 5));
    assert Pieces(rules[1..], Range(5, 7)) == [RangePair(Range(5, 5), Range(55, 55))];
  }

  lemma TouchingRetrieved()
    ensures WellFormed(touchingTree)
    ensures Retrieved(touchingTree, Range(5, 7)) ==
              [RangePair(Range(5, 7), Range(100, 102)), RangePair(Range(5, 5), Range(55, 55))]
  {
    var b', a' := RangePair(Range(5, 7), Range(100, 102)), RangePair(Range(5, 5), Range(55, 55));
    TouchingPieces();
    assert SortByStart([a']) == [a'];
    assert SortByStart([b', a']) == InsertByStart(b', [a']);
  }

  lemma TouchingFill()
    ensures Fill(Range(5, 7), [RangePair(Range(5, 7), Range(100, 102)), RangePair(Range(5, 5), Range(55, 55))])
              == [Range(100, 102), Range(55, 55), Range(5, 7)]
  {
    var ps := [RangePair(Range(5, 7), Range(100, 102)), RangePair(Range(5, 5), Range(55, 55))];
    assert Emitted(ps, 1) == [Range(100, 102)];
    assert Emitted(ps, 2) == [Range(100, 102), Range(55, 55)];
  }

  lemma SplitOfRetrieved(t: Tree, q: Range, ps: seq<RangePair>)
    requires WellFormed(t) && q.Valid() && t.Node?
    requires Retrieved(t, q) == ps && ps != []
    ensures Split(t, q) == Fill(q, ps)
  {
  }

  lemma DoubleCoverLength()
    ensures TotalLength([Range(100, 102), Range(55, 55), Range(5, 7)]) == 4
  {
    var out := [Range(100, 102), Range(55, 55), Range(5, 7)];
    assert out[..2] == [Range(100, 102), Range(55, 55)];
    assert out[..2][..1] == [Range(100, 102)];
    assert out[..2][..1][..0] == [];
    assert TotalLength(out[..2][..1]) == 2;
    assert TotalLength(out[..2]) == 2;
  }

  /**
   * The earlier rule only touches the query, yields the empty piece 5..5, sorts
   * last, and the trailing gap is measured from it, so 5..7 is covered twice
   * although the two rules' sources are apart.
   */
  lemma SplitCountsTouchingRuleTwice()
    ensures Build(touchingRules) == touchingTree && WellFormed(touchingTree)
    ensures DisjointSources(touchingRules)
    ensures Split(touchingTree, Range(5, 7)) == [Range(100, 102), Range(55, 55), Range(5, 7)]
    ensures TotalLength(Split(touchingTree, Range(5, 7))) == 4
  {
    var b', a' := RangePair(Range(5, 7), Range(100, 102)), RangePair(Range(5, 5), Range(55, 55));
    TouchingTree();
    TouchingRetrieved();
    SplitOfRetrieved(touchingTree, Range(5, 7), [b', a']);
    TouchingFill();
    DoubleCoverLength();
  }

  /** The corrected fill covers the same query once. */
  lemma SplitFixedCountsOnce()
    ensures WellFormed(touchingTree)
    ensures SplitFixed(touchingTree, Range(5, 7)) == [Range(100, 102)]
  {
    var b', a' := RangePair(Range(5, 7), Range(100, 102)), RangePair(Range(5, 5), Range(55, 55));
    TouchingPieces();
    assert NonEmptyPieces([a']) == [];
    assert NonEmptyPieces([b', a']) == [b'];
    assert SortByStart([b']) == [b'];
    assert Emitted([b'], 1) == [Range(100, 102)];
  }
}
