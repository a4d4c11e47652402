/**
 * `NumberMapper` of 2023/day-5/src/main.rs: the almanac's tables keyed by
 * their source category, and the two walks along the chain of categories.
 * `Map` carries one value hop by hop, `MapRange` a working set of ranges; the
 * `find_smallest_location*` functions take the least location reached.
 *
 * The walks need not stop (a category with no table stops `map` with no value
 * but makes `map_range` spin forever), so each walk is specified by a bounded
 * reference walk, and the methods take a ghost bound within which the walk is
 * required to settle.
 */
module NumberMappers {
  import opened Wrappers
  import opened Intervals
  import opened RangeTree
  import opened RangeMaps

  /** Tables keyed by their own source category, with well-formed rules. */
  ghost predicate Registered(ms: map<ValueKind, RangeMap>) {
    forall k | k in ms :: ms[k].sourceKind == k && WellFormed(ms[k].shape)
  }

  // ---------------------------------------------------------------------------
  // Walking one value

  /** A walk of `map` is over once the value is gone or has the target category. */
  predicate Settled(v: Option<Value>, target: ValueKind) {
    v.None? || v.value.kind == target
  }

  /** `map` with at most `hops` applications of `value_for`. */
  function WalkValue(ms: map<ValueKind, RangeMap>, v: Option<Value>, target: ValueKind, hops: nat): Option<Value>
    decreases hops
  {
    if hops == 0 || Settled(v, target) then v
    else if v.value.kind in ms then WalkValue(ms, ms[v.value.kind].ValueFor(v.value), target, hops - 1)
    else None
  }

  /** The walk stands at a value of another category that has no table. */
  predicate Stuck(ms: map<ValueKind, RangeMap>, v: Option<Value>, target: ValueKind) {
    v.Some? && v.value.kind != target && v.value.kind !in ms
  }

  /** A settled walk stays put. */
  lemma {:induction false} WalkValueSettled(ms: map<ValueKind, RangeMap>, v: Option<Value>, target: ValueKind, hops: nat)
    requires Settled(v, target)
    ensures WalkValue(ms, v, target, hops) == v
  {
  }

  /** Once the walk has settled, a larger bound gives the same result. */
  lemma {:induction false} WalkValueBound(ms: map<ValueKind, RangeMap>, v: Option<Value>, target: ValueKind, n: nat, m: nat)
    requires n <= m && Settled(WalkValue(ms, v, target, n), target)
    ensures WalkValue(ms, v, target, m) == WalkValue(ms, v, target, n)
    decreases n
  {
    if n == 0 {
      WalkValueSettled(ms, v, target, m);
    } else if !Settled(v, target) && v.value.kind in ms {
      WalkValueBound(ms, ms[v.value.kind].ValueFor(v.value), target, n - 1, m - 1);
    }
  }

  /** A walk that stands at a category with no table within the bound ends with no value. */
  lemma {:induction false} StuckGivesNone(ms: map<ValueKind, RangeMap>, v: Value, target: ValueKind, hops: nat, i: nat)
    requires i < hops && Stuck(ms, WalkValue(ms, Some(v), target, i), target)
    ensures WalkValue(ms, Some(v), target, hops) == None
    decreases i
  {
    if i > 0 {
      if v.kind == target {
        WalkValueSettled(ms, Some(v), target, i);
        assert false;
      }
      var w := ms[v.kind].ValueFor(v);
      WalkValueShift(ms, v, target, i - 1);
      StuckGivesNone(ms, w.value, target, hops - 1, i - 1);
    }
  }

  /** A walk that ends with no value stood, within the bound, at a category with no table. */
  lemma {:induction false} NoneWasStuck(ms: map<ValueKind, RangeMap>, v: Value, target: ValueKind, hops: nat) returns (i: nat)
    requires Registered(ms) && WalkValue(ms, Some(v), target, hops) == None
    ensures i < hops && Stuck(ms, WalkValue(ms, Some(v), target, i), target)
    decreases hops
  {
    if v.kind in ms {
      var w := ms[v.kind].ValueFor(v);
      assert w.Some?;
      i := NoneWasStuck(ms, w.value, target, hops - 1);
      WalkValueShift(ms, v, target, i);
      i := i + 1;
    } else {
      i := 0;
    }
  }

  /**
   * With every table keyed by its source category, `map` yields nothing exactly
   * when, within the bound, the walk reaches a category with no table before
   * reaching the target.
   */
  lemma WalkValueNoneIff(ms: map<ValueKind, RangeMap>, v: Value, target: ValueKind, hops: nat)
    requires Registered(ms)
    ensures WalkValue(ms, Some(v), target, hops) == None <==>
              exists i | 0 <= i < hops :: Stuck(ms, WalkValue(ms, Some(v), target, i), target)
  {
    if WalkValue(ms, Some(v), target, hops) == None {
      var i := NoneWasStuck(ms, v, target, hops);
      assert exists j | 0 <= j < hops :: Stuck(ms, WalkValue(ms, Some(v), target, j), target);
    } else {
      forall i | 0 <= i < hops ensures !Stuck(ms, WalkValue(ms, Some(v), target, i), target) {
        if Stuck(ms, WalkValue(ms, Some(v), target, i), target) {
          StuckGivesNone(ms, v, target, hops, i);
        }
      }
    }
  }

  /** One hop from a value with a table. */
  lemma WalkValueShift(ms: map<ValueKind, RangeMap>, v: Value, target: ValueKind, i: nat)
    requires v.kind != target && v.kind in ms
    ensures WalkValue(ms, Some(v), target, i + 1) == WalkValue(ms, ms[v.kind].ValueFor(v), target, i)
  {
  }

  // ---------------------------------------------------------------------------
  // Walking a set of ranges

  /** The state of `map_range`'s loop: the working set and its category. */
  datatype RangeWalk = RangeWalk(ranges: seq<Range>, kind: ValueKind)

  /** One hop: every range of the set through the table, the results concatenated in order. */
  ghost function Hop(m: RangeMap, rs: seq<Range>): (r: seq<Range>)
    requires WellFormed(m.shape) && AllValid(rs)
    ensures AllValid(r)
  {
    if rs == [] then []
    else
      SplitValid(m.shape, rs[|rs| - 1]);
      Hop(m, rs[..|rs| - 1]) + Split(m.shape, rs[|rs| - 1])
  }

  lemma AllValidAppend(a: seq<Range>, b: seq<Range>)
    requires AllValid(a) && AllValid(b)
    ensures AllValid(a + b)
  {
    forall i | 0 <= i < |a + b| ensures (a + b)[i].Valid() {
      if i >= |a| {
        assert (a + b)[i] == b[i - |a|];
      }
    }
  }

  lemma HopSnoc(m: RangeMap, rs: seq<Range>, r: Range)
    requires WellFormed(m.shape) && AllValid(rs) && r.Valid()
    ensures AllValid(rs + [r]) && Hop(m, rs + [r]) == Hop(m, rs) + Split(m.shape, r)
  {
    AllValidAppend(rs, [r]);
    assert (rs + [r])[..|rs|] == rs;
  }

  /** A hop maps the parts of a set independently. */
  lemma {:induction false} HopAppend(m: RangeMap, a: seq<Range>, b: seq<Range>)
    requires WellFormed(m.shape) && AllValid(a) && AllValid(b)
    ensures AllValid(a + b) && Hop(m, a + b) == Hop(m, a) + Hop(m, b)
    decreases |b|
  {
    AllValidAppend(a, b);
    if b == [] {
      assert a + b == a;
    } else {
      var init, last := b[..|b| - 1], b[|b| - 1];
      assert AllValid(init);
      assert a + b == (a + init) + [last];
      assert b == init + [last];
      HopAppend(m, a, init);
      HopSnoc(m, a + init, last);
      HopSnoc(m, init, last);
    }
  }

  /** The iterator chain `map(ranges_for).flatten().collect()` over a working set. */
  method HopAll(m: RangeMap, rs: seq<Range>) returns (next: seq<Range>)
    requires m.Valid() && AllValid(rs)
    ensures next == Hop(m, rs)
  {
    next := [];
    for i := 0 to |rs|
      invariant AllValid(rs[..i])
      invariant next == Hop(m, rs[..i])
    {
      assert rs[..i + 1] == rs[..i] + [rs[i]];
      HopSnoc(m, rs[..i], rs[i]);
      var pieces := m.RangesFor(rs[i]);
      next := next + pieces;
    }
    assert rs[..|rs|] == rs;
  }

  /** One turn of `map_range`'s loop; without a table for the category nothing changes. */
  ghost function StepRanges(ms: map<ValueKind, RangeMap>, s: RangeWalk): (r: RangeWalk)
    requires Registered(ms) && AllValid(s.ranges)
    ensures AllValid(r.ranges)
  {
    if s.kind in ms then RangeWalk(Hop(ms[s.kind], s.ranges), ms[s.kind].targetKind) else s
  }

  /** The loop of `map_range` stops on an empty set or at the target category. */
  predicate RangesSettled(s: RangeWalk, target: ValueKind) {
    s.ranges == [] || s.kind == target
  }

  /** `map_range` with at most `hops` turns of its loop. */
  ghost function WalkRanges(ms: map<ValueKind, RangeMap>, s: RangeWalk, target: ValueKind, hops: nat): (r: RangeWalk)
    requires Registered(ms) && AllValid(s.ranges)
    ensures AllValid(r.ranges)
    decreases hops
  {
    if hops == 0 || RangesSettled(s, target) then s
    else WalkRanges(ms, StepRanges(ms, s), target, hops - 1)
  }

  /** The state of `map_range`'s loop with `left` turns to go, on the way to the settled `whole`. */
  ghost predicate RangeLoop(ms: map<ValueKind, RangeMap>, s: RangeWalk, left: nat, target: ValueKind, whole: RangeWalk) {
    Registered(ms) && AllValid(s.ranges) && WalkRanges(ms, s, target, left) == whole && RangesSettled(whole, target)
  }

  /** A turn of the loop keeps it on the way to `whole`; a settled state is `whole` itself. */
  lemma RangeLoopStep(ms: map<ValueKind, RangeMap>, s: RangeWalk, left: nat, target: ValueKind, whole: RangeWalk)
    requires RangeLoop(ms, s, left, target, whole)
    ensures RangesSettled(s, target) ==> s == whole
    ensures !RangesSettled(s, target) ==> 0 < left && RangeLoop(ms, StepRanges(ms, s), left - 1, target, whole)
  {
  }

  /** A turn through the table `m` of the current category keeps the loop on the way to `whole`. */
  lemma RangeLoopHop(ms: map<ValueKind, RangeMap>, s: RangeWalk, left: nat, target: ValueKind, whole: RangeWalk,
                     m: RangeMap, next: seq<Range>)
    requires RangeLoop(ms, s, left, target, whole) && !RangesSettled(s, target)
    requires s.kind in ms && ms[s.kind] == m && next == Hop(m, s.ranges)
    ensures 0 < left && RangeLoop(ms, RangeWalk(next, m.targetKind), left - 1, target, whole)
  {
    RangeLoopStep(ms, s, left, target, whole);
  }

  /** Without a table for the current category a turn changes nothing. */
  lemma RangeLoopSpin(ms: map<ValueKind, RangeMap>, s: RangeWalk, left: nat, target: ValueKind, whole: RangeWalk)
    requires RangeLoop(ms, s, left, target, whole) && !RangesSettled(s, target) && s.kind !in ms
    ensures 0 < left && RangeLoop(ms, s, left - 1, target, whole)
  {
    RangeLoopStep(ms, s, left, target, whole);
  }

  /** A category with no table stops the walk for good: `map_range` never returns. */
  lemma {:induction false} MissingTableSpins(ms: map<ValueKind, RangeMap>, s: RangeWalk, target: ValueKind, hops: nat)
    requires Registered(ms) && AllValid(s.ranges)
    requires s.kind !in ms && !RangesSettled(s, target)
    ensures WalkRanges(ms, s, target, hops) == s
    ensures !RangesSettled(WalkRanges(ms, s, target, hops), target)
    decreases hops
  {
    if hops > 0 {
      MissingTableSpins(ms, s, target, hops - 1);
    }
  }

  // ---------------------------------------------------------------------------
  // Corrected range walk

  /** A table whose tree was built from its rules and whose rules' sources are pairwise apart. */
  ghost predicate RulesApart(m: RangeMap) {
    m.shape == Build(m.ranges) && SourcesValid(m.ranges) && DisjointSources(m.ranges)
  }

  ghost predicate TablesApart(ms: map<ValueKind, RangeMap>) {
    forall k | k in ms :: RulesApart(ms[k])
  }

  /** A turn of the corrected loop: every range is split by the corrected fill; lengths are kept. */
  ghost function HopFixed(m: RangeMap, rs: seq<Range>): (r: seq<Range>)
    requires RulesApart(m) && AllValid(rs)
    ensures AllValid(r) && TotalLength(r) == TotalLength(rs)
  {
    if rs == [] then []
    else
      var last := rs[|rs| - 1];
      SplitFixedConserves(m.ranges, last);
      var front := HopFixed(m, rs[..|rs| - 1]);
      TotalLengthAppend(front, SplitFixed(m.shape, last));
      AllValidAppend(front, SplitFixed(m.shape, last));
      front + SplitFixed(m.shape, last)
  }

  /** A turn of the corrected loop; a category with no table maps nothing further. */
  ghost function StepRangesFixed(ms: map<ValueKind, RangeMap>, s: RangeWalk): (r: RangeWalk)
    requires TablesApart(ms) && AllValid(s.ranges)
    ensures AllValid(r.ranges)
    ensures s.kind in ms ==> TotalLength(r.ranges) == TotalLength(s.ranges)
    ensures s.kind !in ms ==> r.ranges == []
  {
    if s.kind in ms then RangeWalk(HopFixed(ms[s.kind], s.ranges), ms[s.kind].targetKind)
    else RangeWalk([], s.kind)
  }

  /**
   * `map_range` as intended: the walk either loses every range at a category
   * with no table, or keeps the total length of the ranges it carries.
   */
  ghost function WalkRangesFixed(ms: map<ValueKind, RangeMap>, s: RangeWalk, target: ValueKind, hops: nat): (r: RangeWalk)
    requires TablesApart(ms) && AllValid(s.ranges)
    ensures AllValid(r.ranges)
    ensures r.ranges == [] || TotalLength(r.ranges) == TotalLength(s.ranges)
    decreases hops
  {
    if hops == 0 || RangesSettled(s, target) then s
    else WalkRangesFixed(ms, StepRangesFixed(ms, s), target, hops - 1)
  }

  /** Where the source spins forever, the corrected walk stops at once with nothing. */
  lemma MissingTableStops(ms: map<ValueKind, RangeMap>, s: RangeWalk, target: ValueKind, hops: nat)
    requires TablesApart(ms) && AllValid(s.ranges)
    requires s.kind !in ms && !RangesSettled(s, target) && hops > 0
    ensures WalkRangesFixed(ms, s, target, hops) == RangeWalk([], s.kind)
    ensures RangesSettled(WalkRangesFixed(ms, s, target, hops), target)
  {
    assert WalkRangesFixed(ms, s, target, hops) == WalkRangesFixed(ms, RangeWalk([], s.kind), target, hops - 1);
  }

  // ---------------------------------------------------------------------------
  // Minimum of an iterator: `.min()`

  function MinOf(xs: seq<nat>): (r: Option<nat>)
    ensures r.None? <==> xs == []
    ensures r.Some? ==> r.value in xs && forall x | x in xs :: r.value <= x
  {
    if xs == [] then None
    else
      assert forall x | x in xs :: x == xs[0] || x in xs[1..];
      match MinOf(xs[1..])
      case None => Some(xs[0])
      case Some(m) => if m < xs[0] then Some(m) else Some(xs[0])
  }

  /** The locations `find_smallest_location` compares: seeds whose walk yields a value. */
  function Locations(ms: map<ValueKind, RangeMap>, seeds: seq<nat>, hops: nat): seq<nat> {
    if seeds == [] then []
    else
      var rest := Locations(ms, seeds[..|seeds| - 1], hops);
      match WalkValue(ms, Some(Value(Seed, seeds[|seeds| - 1])), Location, hops)
      case Some(v) => rest + [v.number]
      case None => rest
  }

  /** The location ranges `find_smallest_location_ranges` flattens. */
  ghost function LocationRanges(ms: map<ValueKind, RangeMap>, seedRanges: seq<Range>, hops: nat): seq<Range>
    requires Registered(ms) && AllValid(seedRanges)
  {
    if seedRanges == [] then []
    else
      var last := seedRanges[|seedRanges| - 1];
      LocationRanges(ms, seedRanges[..|seedRanges| - 1], hops) +
      WalkRanges(ms, RangeWalk([last], Seed), Location, hops).ranges
  }

  function Starts(rs: seq<Range>): (r: seq<nat>)
    ensures |r| == |rs| && forall i | 0 <= i < |rs| :: r[i] == rs[i].start
  {
    if rs == [] then [] else Starts(rs[..|rs| - 1]) + [rs[|rs| - 1].start]
  }

  // ---------------------------------------------------------------------------
  // The mutable mapper

  class NumberMapper {
    var maps: map<ValueKind, RangeMap>
    ghost var Repr: set<object>

    /** Every table is well formed and filed under its own source category. */
    ghost predicate Valid()
      reads this, Repr
    {
      && this in Repr
      && forall k | k in maps ::
           && maps[k] in Repr && maps[k].Repr <= Repr && this !in maps[k].Repr
           && maps[k].Valid() && maps[k].sourceKind == k
    }

    lemma ValidRegistered()
      requires Valid()
      ensures Registered(maps)
    {
    }

    /** `NumberMapper::default`: no tables. */
    constructor ()
      ensures Valid() && fresh(Repr) && maps == map[]
    {
      maps := map[];
      Repr := {this};
    }

    /** `NumberMapper::insert`: files the table under its source category, replacing any earlier one. */
    method Insert(m: RangeMap)
      requires Valid() && m.Valid() && this !in m.Repr
      modifies this
      ensures Valid() && maps == old(maps)[m.sourceKind := m]
      ensures Repr == old(Repr) + m.Repr
    {
      maps := maps[m.sourceKind := m];
      Repr := Repr + m.Repr;
    }

    /** `NumberMapper::map`, for a value whose walk settles within `hops` hops. */
    method Map(value: Value, targetKind: ValueKind, ghost hops: nat) returns (r: Option<Value>)
      requires Valid() && Settled(WalkValue(maps, Some(value), targetKind, hops), targetKind)
      ensures r == WalkValue(maps, Some(value), targetKind, hops)
    {
      var mapped := Some(value);
      ghost var left := hops;
      while mapped != None && mapped.value.kind != targetKind
        invariant WalkValue(maps, mapped, targetKind, left) == WalkValue(maps, Some(value), targetKind, hops)
        invariant Settled(WalkValue(maps, mapped, targetKind, left), targetKind)
        decreases left
      {
        var mappedVal := mapped.value;
        if mappedVal.kind in maps {
          mapped := maps[mappedVal.kind].ValueFor(mappedVal);
        } else {
          mapped := None;
          break;
        }
        left := left - 1;
      }
      r := mapped;
    }

    /**
     * A turn of `map_range`'s loop through the table of category `kind`: the
     * working set is hopped through it, which keeps the loop on the way to
     * `whole` in the table's target category.
     */
    method HopTurn(kind: ValueKind, rs: seq<Range>, ghost left: nat, ghost target: ValueKind, ghost whole: RangeWalk)
      returns (next: seq<Range>, nextKind: ValueKind)
      requires Valid() && kind in maps
      requires RangeLoop(maps, RangeWalk(rs, kind), left, target, whole) && !RangesSettled(RangeWalk(rs, kind), target)
      ensures 0 < left && RangeLoop(maps, RangeWalk(next, nextKind), left - 1, target, whole)
    {
      var rangeMap := maps[kind];
      next := HopAll(rangeMap, rs);
      nextKind := rangeMap.targetKind;
      RangeLoopHop(maps, RangeWalk(rs, kind), left, target, whole, rangeMap, next);
    }

    /** `NumberMapper::map_range`, for a walk that settles within `hops` turns. */
    method MapRange(q: Range, sourceKind: ValueKind, targetKind: ValueKind, ghost hops: nat) returns (out: seq<Range>)
      requires Valid() && q.Valid()
      requires RangesSettled(WalkRanges(maps, RangeWalk([q], sourceKind), targetKind, hops), targetKind)
      ensures out == WalkRanges(maps, RangeWalk([q], sourceKind), targetKind, hops).ranges
    {
      ValidRegistered();
      var currentKind := sourceKind;
      var mappedRanges := [q];
      ghost var left := hops;
      ghost var whole := WalkRanges(maps, RangeWalk([q], sourceKind), targetKind, hops);
      while mappedRanges != [] && currentKind != targetKind
        invariant RangeLoop(maps, RangeWalk(mappedRanges, currentKind), left, targetKind, whole)
        decreases left
      {
        if currentKind !in maps {
          // the source's `continue`: the state does not change
          RangeLoopSpin(maps, RangeWalk(mappedRanges, currentKind), left, targetKind, whole);
          left := left - 1;
          continue;
        }
        mappedRanges, currentKind := HopTurn(currentKind, mappedRanges, left, targetKind, whole);
        left := left - 1;
      }
      RangeLoopStep(maps, RangeWalk(mappedRanges, currentKind), left, targetKind, whole);
      out := mappedRanges;
    }

    /** `find_smallest_location`: the least location any seed reaches. */
    method FindSmallestLocation(seeds: seq<nat>, ghost hops: nat) returns (r: Option<nat>)
      requires Valid()
      requires forall s | s in seeds :: Settled(WalkValue(maps, Some(Value(Seed, s)), Location, hops), Location)
      ensures r == MinOf(Locations(maps, seeds, hops))
    {
      var locations: seq<nat> := [];
      for i := 0 to |seeds|
        invariant locations == Locations(maps, seeds[..i], hops)
      {
        assert seeds[..i + 1][..i] == seeds[..i];
        var result := Map(Value(Seed, seeds[i]), Location, hops);
        if result.Some? {
          locations := locations + [result.value.number];
        }
      }
      assert seeds[..|seeds|] == seeds;
      r := MinOf(locations);
    }

    /** `find_smallest_location_ranges`: the least start of any location range reached. */
    method FindSmallestLocationRanges(seedRanges: seq<Range>, ghost hops: nat) returns (r: Option<nat>)
      requires Valid() && AllValid(seedRanges)
      requires forall i | 0 <= i < |seedRanges| ::
                 RangesSettled(WalkRanges(maps, RangeWalk([seedRanges[i]], Seed), Location, hops), Location)
      ensures Registered(maps)
      ensures r == MinOf(Starts(LocationRanges(maps, seedRanges, hops)))
    {
      ValidRegistered();
      var locations: seq<Range> := [];
      for i := 0 to |seedRanges|
        invariant AllValid(seedRanges[..i])
        invariant locations == LocationRanges(maps, seedRanges[..i], hops)
      {
        assert seedRanges[..i + 1][..i] == seedRanges[..i];
        var mapped := MapRange(seedRanges[i], Seed, Location, hops);
        locations := locations + mapped;
      }
      assert seedRanges[..|seedRanges|] == seedRanges;
      r := MinOf(Starts(locations));
    }
  }

  // ---------------------------------------------------------------------------
  // Worked example

  /** The walks of the example, one hop at a time. */
  lemma ExampleWalks(ms: map<ValueKind, RangeMap>, seedToSoil: RangeMap, soilToHumidity: RangeMap)
    requires seedToSoil.sourceKind == Seed && seedToSoil.targetKind == Soil
    requires seedToSoil.ranges == seedToSoilRules
    requires soilToHumidity.sourceKind == Soil && soilToHumidity.targetKind == Humidity
    requires soilToHumidity.ranges == soilToHumidityRules
    requires ms == map[Seed := seedToSoil, Soil := soilToHumidity]
    ensures WalkValue(ms, Some(Value(Seed, 1)), Humidity, 2) == Some(Value(Humidity, 9))
    ensures WalkValue(ms, Some(Value(Seed, 5)), Soil, 1) == Some(Value(Soil, 7))
  {
    assert FirstContaining(seedToSoil.ranges, 1) == Some(0);
    assert seedToSoil.ValueFor(Value(Seed, 1)) == Some(Value(Soil, 4));
    assert FirstContaining(soilToHumidity.ranges, 4) == Some(0);
    assert soilToHumidity.ValueFor(Value(Soil, 4)) == Some(Value(Humidity, 9));
    assert WalkValue(ms, Some(Value(Soil, 4)), Humidity, 1) == Some(Value(Humidity, 9));
    assert FirstContaining(seedToSoil.ranges, 5) == Some(1);
    assert seedToSoil.ValueFor(Value(Seed, 5)) == Some(Value(Soil, 7));
  }

  const seedToSoilRules := [RangePair(Range(1, 2), Range(4, 6)), RangePair(Range(5, 7), Range(7, 9))]
  const soilToHumidityRules := [RangePair(Range(4, 6), Range(9, 10))]

  /** A new table built from `rules`, filed in `mapper`. */
  method FileTable(mapper: NumberMapper, source: ValueKind, target: ValueKind, rules: seq<RangePair>)
    returns (table: RangeMap)
    requires mapper.Valid() && SourcesValid(rules)
    modifies mapper
    ensures mapper.Valid() && mapper.maps == old(mapper.maps)[source := table]
    ensures table.sourceKind == source && table.targetKind == target && table.ranges == rules
  {
    table := new RangeMap(source, target, rules);
    mapper.Insert(table);
  }

  /** The two tables of `value_mapper_test`, filed in a fresh mapper. */
  method ExampleMapper() returns (mapper: NumberMapper, seedToSoil: RangeMap, soilToHumidity: RangeMap)
    ensures mapper.Valid()
    ensures seedToSoil.sourceKind == Seed && seedToSoil.targetKind == Soil && seedToSoil.ranges == seedToSoilRules
    ensures soilToHumidity.sourceKind == Soil && soilToHumidity.targetKind == Humidity
    ensures soilToHumidity.ranges == soilToHumidityRules
    ensures mapper.maps == map[Seed := seedToSoil, Soil := soilToHumidity]
  {
    mapper := new NumberMapper();
    assert SourcesValid(seedToSoilRules);
    seedToSoil := FileTable(mapper, Seed, Soil, seedToSoilRules);
    assert SourcesValid(soilToHumidityRules);
    soilToHumidity := FileTable(mapper, Soil, Humidity, soilToHumidityRules);
  }

  /**
   * `value_mapper_test`: seed 1 reaches humidity 9 through soil 4, and seed 5
   * reaches soil 7.
   */
  method MapperExample() returns (humidity: Option<Value>, soil: Option<Value>)
    ensures humidity == Some(Value(Humidity, 9))
    ensures soil == Some(Value(Soil, 7))
  {
    var mapper, seedToSoil, soilToHumidity := ExampleMapper();
    ExampleWalks(mapper.maps, seedToSoil, soilToHumidity);
    ghost var ms := mapper.maps;
    humidity := mapper.Map(Value(Seed, 1), Humidity, 2);
    assert mapper.Valid() && mapper.maps == ms;
    soil := mapper.Map(Value(Seed, 5), Soil, 1);
  }
}
