/**
 * Half-open ranges `[start, end)` over unsigned integers and the range pairs
 * (rules) of the almanac: a source range and a target range related by a
 * constant offset. Models `RangePair`, `ranges_overlap`, `range_intersection`
 * and `RangePair::subrange` of 2023/day-5/src/main.rs.
 *
 * Rust's `u64` is modelled as `nat`; additions that could overflow in the
 * source are unbounded here.
 */
module Intervals {
  import opened Wrappers

  /** A Rust `Range<u64>`; it is only meaningful when `start <= end`. */
  datatype Range = Range(start: nat, end: nat) {
    predicate Valid() { start <= end }

    /** Number of values in the range (0 for a malformed one). */
    function Length(): nat { if start <= end then end - start else 0 }

    /** `Range::contains`. */
    predicate Contains(n: nat) { start <= n < end }

    /** Every value of this range is in `outer`, bounds included. */
    predicate Within(outer: Range) { outer.start <= start && end <= outer.end }
  }

  /** A rule: values of `source` are moved by `target.start - source.start`. */
  datatype RangePair = RangePair(source: Range, target: Range)

  /**
   * `ranges_overlap`: ranges that merely touch (`r1.end == r2.start`) count as
   * overlapping, so their intersection is an empty range.
   */
  predicate Overlaps(r1: Range, r2: Range) {
    r1.start <= r2.end && r2.start <= r1.end
  }

  function Max(a: nat, b: nat): nat { if a < b then b else a }
  function Min(a: nat, b: nat): nat { if a < b then a else b }

  /** `range_intersection` */
  function Intersection(r1: Range, r2: Range): (r: Option<Range>)
    ensures r.Some? <==> Overlaps(r1, r2)
    ensures r.Some? && r1.Valid() && r2.Valid() ==>
              r.value.Valid() && r.value.Within(r1) && r.value.Within(r2)
    ensures r.Some? ==> forall n: nat :: r.value.Contains(n) <==> r1.Contains(n) && r2.Contains(n)
  {
    if Overlaps(r1, r2) then Some(Range(Max(r1.start, r2.start), Min(r1.end, r2.end))) else None
  }

  /**
   * `RangePair::subrange`: the part of the rule that covers `req`, with the
   * rule's offset applied to it; nothing when `req` is not inside the source.
   * A malformed request inside the source underflows `req.end - req.start` in
   * the source, hence the precondition.
   */
  function Subrange(p: RangePair, req: Range): (r: Option<RangePair>)
    requires req.Valid()
    ensures r.Some? <==> req.Within(p.source)
    ensures r.Some? ==> r.value.source == req
    ensures r.Some? ==> r.value.target.start == p.target.start + (req.start - p.source.start)
    ensures r.Some? ==> r.value.target.Valid() && r.value.target.Length() == req.Length()
    ensures r.Some? ==> forall n: nat :: req.Contains(n) ==>
              r.value.target.Contains(p.target.start + (n - p.source.start))
  {
    if p.source.start <= req.start && p.source.end >= req.end then
      var startOffset := req.start - p.source.start;
      var rangeLength := req.end - req.start;
      var targetStart := p.target.start + startOffset;
      Some(RangePair(req, Range(targetStart, targetStart + rangeLength)))
    else
      None
  }

  /** Sum of the lengths of a list of ranges. */
  function TotalLength(rs: seq<Range>): nat {
    if rs == [] then 0 else TotalLength(rs[..|rs| - 1]) + rs[|rs| - 1].Length()
  }

  lemma {:induction false} TotalLengthAppend(a: seq<Range>, b: seq<Range>)
    ensures TotalLength(a + b) == TotalLength(a) + TotalLength(b)
    decreases |b|
  {
    if b == [] {
      assert a + b == a;
    } else {
      assert (a + b)[..|a + b| - 1] == a + b[..|b| - 1];
      TotalLengthAppend(a, b[..|b| - 1]);
    }
  }

  /** Every rule of the list has a well-formed source range. */
  predicate SourcesValid(rs: seq<RangePair>) {
    forall x | x in rs :: x.source.Valid()
  }

  predicate AllValid(rs: seq<Range>) {
    forall i :: 0 <= i < |rs| ==> rs[i].Valid()
  }
}
