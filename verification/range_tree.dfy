/**
 * The augmented, unbalanced binary interval tree of 2023/day-5/src/main.rs
 * (`RangeTreeNode`): every node owns one rule, orders rules by source start
 * (strictly smaller starts to the left, equal or larger to the right) and keeps
 * in `max` the largest source end of its subtree, which lets the search skip a
 * subtree that ends before the query starts.
 *
 * The class `RangeTreeNode` is the mutable tree; its ghost field `Shape` is the
 * tree as a value (`Tree`), about which the properties are proved.
 */
module RangeTree {
  import opened Wrappers
  import opened Intervals

  datatype Tree = Empty | Node(pair: RangePair, max: nat, left: Tree, right: Tree)

  /** The rules of a tree in the order `find_intersections` visits them: node, left, right. */
  function PreOrder(t: Tree): seq<RangePair> {
    match t
    case Empty => []
    case Node(p, _, l, r) => [p] + PreOrder(l) + PreOrder(r)
  }

  /** Largest source end stored in `t` (0 for the empty tree). */
  function SubtreeMax(t: Tree): nat {
    match t
    case Empty => 0
    case Node(p, _, l, r) => Max(p.source.end, Max(SubtreeMax(l), SubtreeMax(r)))
  }

  /** Every node's `max` is the largest source end of its subtree. */
  ghost predicate Augmented(t: Tree) {
    match t
    case Empty => true
    case Node(_, m, l, r) => m == SubtreeMax(t) && Augmented(l) && Augmented(r)
  }

  /** Search-tree order by source start: smaller starts left, equal or larger starts right. */
  ghost predicate Ordered(t: Tree) {
    match t
    case Empty => true
    case Node(p, _, l, r) =>
      && (forall x | x in PreOrder(l) :: x.source.start < p.source.start)
      && (forall x | x in PreOrder(r) :: p.source.start <= x.source.start)
      && Ordered(l) && Ordered(r)
  }

  /** Every stored rule has a well-formed source range. */
  ghost predicate WellFormed(t: Tree) {
    SourcesValid(PreOrder(t))
  }

  /**
   * `RangeTreeNode::insert` (and `RangeTreeNode::new` for an empty slot): raise
   * `max` on the way down and hang the rule as a new leaf.
   */
  function TreeInsert(t: Tree, p: RangePair): Tree {
    match t
    case Empty => Node(p, p.source.end, Empty, Empty)
    case Node(n, m, l, r) =>
      var m' := if m < p.source.end then p.source.end else m;
      if p.source.start < n.source.start then Node(n, m', TreeInsert(l, p), r)
      else Node(n, m', l, TreeInsert(r, p))
  }

  /** The tree `RangeMap::new` builds: the rules inserted one by one in list order. */
  function Build(rs: seq<RangePair>): Tree {
    if rs == [] then Empty else TreeInsert(Build(rs[..|rs| - 1]), rs[|rs| - 1])
  }

  /**
   * The piece `find_intersections` contributes for one rule: the rule
   * restricted to its intersection with `q`, or nothing.
   */
  function Piece(p: RangePair, q: Range): seq<RangePair>
    requires p.source.Valid() && q.Valid()
  {
    match Intersection(p.source, q)
    case None => []
    case Some(i) =>
      match Subrange(p, i)
      case None => []
      case Some(s) => [s]
  }

  /** Reference result of a search: the pieces of the rules, in the given order. */
  function Pieces(rs: seq<RangePair>, q: Range): seq<RangePair>
    requires q.Valid() && SourcesValid(rs)
  {
    if rs == [] then [] else Piece(rs[0], q) + Pieces(rs[1..], q)
  }

  // ---------------------------------------------------------------------------
  // Interval arithmetic facts about one piece

  /** A rule yields exactly one piece iff its source overlaps the query; that piece is the intersection. */
  lemma PieceIsIntersection(p: RangePair, q: Range)
    requires p.source.Valid() && q.Valid()
    ensures |Piece(p, q)| == (if Overlaps(p.source, q) then 1 else 0)
    ensures Overlaps(p.source, q) ==>
              Piece(p, q)[0].source == Intersection(p.source, q).value &&
              Piece(p, q)[0].source.Valid() && Piece(p, q)[0].source.Within(q) &&
              Piece(p, q)[0].source.Within(p.source) && Piece(p, q)[0].target.Valid() &&
              Piece(p, q)[0].target.Length() == Piece(p, q)[0].source.Length()
  {
    if Overlaps(p.source, q) {
      var i := Intersection(p.source, q).value;
      assert i.Within(p.source);
      assert Subrange(p, i).Some?;
    }
  }

  lemma {:induction false} PiecesAppend(a: seq<RangePair>, b: seq<RangePair>, q: Range)
    requires q.Valid() && SourcesValid(a) && SourcesValid(b)
    ensures Pieces(a + b, q) == Pieces(a, q) + Pieces(b, q)
  {
    if a == [] {
      assert a + b == b;
    } else {
      assert (a + b)[1..] == a[1..] + b;
      PiecesAppend(a[1..], b, q);
    }
  }

  /** Rules that all end before the query starts yield no piece. */
  lemma {:induction false} PiecesNone(rs: seq<RangePair>, q: Range)
    requires q.Valid() && SourcesValid(rs)
    requires forall x | x in rs :: x.source.end < q.start
    ensures Pieces(rs, q) == []
  {
    if rs != [] {
      PieceIsIntersection(rs[0], q);
      PiecesNone(rs[1..], q);
    }
  }

  /**
   * Every piece is a well-formed part of the query, lies inside the source of
   * one of the rules, and its target has the length of its source.
   */
  lemma {:induction false} PiecesFacts(rs: seq<RangePair>, q: Range)
    requires q.Valid() && SourcesValid(rs)
    ensures forall y | y in Pieces(rs, q) ::
              y.source.Valid() && y.source.Within(q) && y.target.Valid() &&
              y.target.Length() == y.source.Length()
    ensures forall y | y in Pieces(rs, q) :: exists k | 0 <= k < |rs| :: y.source.Within(rs[k].source)
  {
    if rs != [] {
      PieceIsIntersection(rs[0], q);
      PiecesFacts(rs[1..], q);
      forall y | y in Pieces(rs, q)
        ensures exists k | 0 <= k < |rs| :: y.source.Within(rs[k].source)
      {
        if y in Piece(rs[0], q) {
          assert y.source.Within(rs[0].source);
        } else {
          assert y in Pieces(rs[1..], q);
          var k :| 0 <= k < |rs[1..]| && y.source.Within(rs[1..][k].source);
          assert y.source.Within(rs[k + 1].source);
        }
      }
    }
  }

  /** A search finds nothing exactly when no rule's source overlaps the query. */
  lemma {:induction false} PiecesEmptyIff(rs: seq<RangePair>, q: Range)
    requires q.Valid() && SourcesValid(rs)
    ensures Pieces(rs, q) == [] <==> forall x | x in rs :: !Overlaps(x.source, q)
  {
    if rs != [] {
      PieceIsIntersection(rs[0], q);
      PiecesEmptyIff(rs[1..], q);
      assert forall x | x in rs :: x == rs[0] || x in rs[1..];
    }
  }

  // ---------------------------------------------------------------------------
  // The `max` augmentation

  lemma {:induction false} SubtreeMaxBounds(t: Tree)
    ensures forall x | x in PreOrder(t) :: x.source.end <= SubtreeMax(t)
    ensures t.Node? ==> exists x | x in PreOrder(t) :: x.source.end == SubtreeMax(t)
  {
    if t.Node? {
      SubtreeMaxBounds(t.left);
      SubtreeMaxBounds(t.right);
      assert t.pair in PreOrder(t);
      forall x | x in PreOrder(t.left) ensures x in PreOrder(t) {}
      forall x | x in PreOrder(t.right) ensures x in PreOrder(t) {}
    }
  }

  /**
   * Pruning soundness: a subtree whose `max` lies before the query start holds
   * no rule that overlaps the query, so skipping it loses no piece.
   */
  lemma PruneSound(t: Tree, q: Range)
    requires q.Valid() && WellFormed(t) && Augmented(t) && t.Node? && t.max < q.start
    ensures Pieces(PreOrder(t), q) == []
  {
    SubtreeMaxBounds(t);
    PiecesNone(PreOrder(t), q);
  }

  // ---------------------------------------------------------------------------
  // Insertion

  lemma {:induction false} TreeInsertMax(t: Tree, p: RangePair)
    ensures SubtreeMax(TreeInsert(t, p)) == Max(SubtreeMax(t), p.source.end)
  {
    match t
    case Empty =>
    case Node(n, m, l, r) =>
      if p.source.start < n.source.start { TreeInsertMax(l, p); } else { TreeInsertMax(r, p); }
  }

  /**
   * Insertion adds the new rule and nothing else: the pre-order of the old
   * tree, with the new rule slotted in at position `k`. No stored rule changes
   * or moves relative to the others.
   */
  lemma {:induction false} TreeInsertPosition(t: Tree, p: RangePair) returns (k: nat)
    ensures k <= |PreOrder(t)|
    ensures PreOrder(TreeInsert(t, p)) == PreOrder(t)[..k] + [p] + PreOrder(t)[k..]
  {
    match t
    case Empty =>
      k := 0;
    case Node(n, m, l, r) =>
      if p.source.start < n.source.start {
        var j := TreeInsertPosition(l, p);
        k := j + 1;
        SlotLeft(n, PreOrder(l), PreOrder(r), j, p);
      } else {
        var j := TreeInsertPosition(r, p);
        k := 1 + |PreOrder(l)| + j;
        SlotRight(n, PreOrder(l), PreOrder(r), j, p);
      }
  }

  /** Slotting `p` into the left part of `[n] + a + b` is slotting it into the whole. */
  lemma SlotLeft<T>(n: T, a: seq<T>, b: seq<T>, j: nat, p: T)
    requires j <= |a|
    ensures [n] + (a[..j] + [p] + a[j..]) + b == ([n] + a + b)[..j + 1] + [p] + ([n] + a + b)[j + 1..]
  {
    var w := [n] + a + b;
    assert w[..j + 1] == [n] + a[..j];
    assert w[j + 1..] == a[j..] + b;
  }

  /** Slotting `p` into the right part of `[n] + a + b` is slotting it into the whole. */
  lemma SlotRight<T>(n: T, a: seq<T>, b: seq<T>, j: nat, p: T)
    requires j <= |b|
    ensures [n] + a + (b[..j] + [p] + b[j..]) == ([n] + a + b)[..1 + |a| + j] + [p] + ([n] + a + b)[1 + |a| + j..]
  {
    var w := [n] + a + b;
    assert w[..1 + |a| + j] == [n] + a + b[..j];
    assert w[1 + |a| + j..] == b[j..];
  }

  /** Insertion stores each old rule as often as before, plus the new one. */
  lemma TreeInsertMultiset(t: Tree, p: RangePair)
    ensures multiset(PreOrder(TreeInsert(t, p))) == multiset(PreOrder(t)) + multiset{p}
  {
    var k := TreeInsertPosition(t, p);
    var s := PreOrder(t);
    assert s == s[..k] + s[k..];
    calc {
      multiset(PreOrder(TreeInsert(t, p)));
      multiset(s[..k] + [p] + s[k..]);
      multiset(s[..k]) + multiset{p} + multiset(s[k..]);
      multiset(s) + multiset{p};
    }
  }

  lemma TreeInsertMembers(t: Tree, p: RangePair)
    ensures forall x :: x in PreOrder(TreeInsert(t, p)) <==> x in PreOrder(t) || x == p
  {
    TreeInsertMultiset(t, p);
    forall x ensures x in PreOrder(TreeInsert(t, p)) <==> x in PreOrder(t) || x == p {
      assert x in PreOrder(TreeInsert(t, p)) <==> x in multiset(PreOrder(TreeInsert(t, p)));
      assert x in PreOrder(t) <==> x in multiset(PreOrder(t));
    }
  }

  /** Insertion keeps every `max` equal to the largest source end below it. */
  lemma {:induction false} TreeInsertAugmented(t: Tree, p: RangePair)
    requires Augmented(t)
    ensures Augmented(TreeInsert(t, p))
  {
    TreeInsertMax(t, p);
    match t
    case Empty =>
    case Node(n, m, l, r) =>
      if p.source.start < n.source.start {
        TreeInsertAugmented(l, p);
        TreeInsertMax(l, p);
      } else {
        TreeInsertAugmented(r, p);
        TreeInsertMax(r, p);
      }
  }

  /** Insertion keeps the search-tree order by source start. */
  lemma {:induction false} TreeInsertOrdered(t: Tree, p: RangePair)
    requires Ordered(t)
    ensures Ordered(TreeInsert(t, p))
  {
    match t
    case Empty =>
    case Node(n, m, l, r) =>
      if p.source.start < n.source.start {
        TreeInsertOrdered(l, p);
        TreeInsertMembers(l, p);
      } else {
        TreeInsertOrdered(r, p);
        TreeInsertMembers(r, p);
      }
  }

  lemma TreeInsertWellFormed(t: Tree, p: RangePair)
    requires WellFormed(t) && p.source.Valid()
    ensures WellFormed(TreeInsert(t, p))
  {
    TreeInsertMembers(t, p);
  }

  /** The tree built from a rule list is ordered and augmented. */
  lemma {:induction false} BuildSearchTree(rs: seq<RangePair>)
    ensures Ordered(Build(rs)) && Augmented(Build(rs))
  {
    if rs != [] {
      BuildSearchTree(rs[..|rs| - 1]);
      TreeInsertOrdered(Build(rs[..|rs| - 1]), rs[|rs| - 1]);
      TreeInsertAugmented(Build(rs[..|rs| - 1]), rs[|rs| - 1]);
    }
  }

  /** The tree built from a rule list stores exactly its rules, each as often as listed. */
  lemma {:induction false} BuildStoresRules(rs: seq<RangePair>)
    ensures multiset(PreOrder(Build(rs))) == multiset(rs)
  {
    if rs != [] {
      var init, last := rs[..|rs| - 1], rs[|rs| - 1];
      assert rs == init + [last];
      BuildStoresRules(init);
      TreeInsertMultiset(Build(init), last);
    }
  }

  /** The built tree stores a rule iff the list holds it. */
  lemma BuildMembers(rs: seq<RangePair>)
    ensures forall x :: x in PreOrder(Build(rs)) <==> x in rs
  {
    BuildStoresRules(rs);
    forall x ensures x in PreOrder(Build(rs)) <==> x in rs {
      assert x in PreOrder(Build(rs)) <==> x in multiset(PreOrder(Build(rs)));
    }
  }

  lemma BuildWellFormed(rs: seq<RangePair>)
    requires SourcesValid(rs)
    ensures WellFormed(Build(rs))
  {
    BuildStoresRules(rs);
    forall x | x in PreOrder(Build(rs)) ensures x.source.Valid() {
      assert x in multiset(PreOrder(Build(rs)));
    }
  }

  // ---------------------------------------------------------------------------
  // The overlap search of `find_overlapping`, on values

  /**
   * In an ordered, augmented tree, if the left subtree reaches the query start
   * but holds no overlapping rule, the right subtree holds none either: every
   * rule on the right starts after some left rule that starts after the query.
   */
  lemma LeftMissImpliesRightMiss(t: Tree, q: Range)
    requires t.Node? && t.left.Node? && Ordered(t) && Augmented(t)
    requires t.left.max >= q.start
    requires forall x | x in PreOrder(t.left) :: !Overlaps(x.source, q)
    ensures forall x | x in PreOrder(t.right) :: !Overlaps(x.source, q)
  {
    SubtreeMaxBounds(t.left);
    var l :| l in PreOrder(t.left) && l.source.end == SubtreeMax(t.left);
    assert l.source.start > q.end;
  }

  // ---------------------------------------------------------------------------
  // The mutable tree

  class RangeTreeNode {
    var range: RangePair
    var max: nat
    var left: RangeTreeNode?
    var right: RangeTreeNode?
    ghost var Shape: Tree
    ghost var Repr: set<object>

    static ghost function ShapeOf(n: RangeTreeNode?): Tree
      reads n
    {
      if n == null then Empty else n.Shape
    }

    /** The node owns its children exclusively and `Shape` is the tree it heads. */
    ghost predicate Linked()
      reads this, Repr
      decreases Repr
    {
      && this in Repr
      && (left != null ==>
            left in Repr && left.Repr <= Repr && this !in left.Repr && left.Linked())
      && (right != null ==>
            right in Repr && right.Repr <= Repr && this !in right.Repr && right.Linked())
      && (left != null && right != null ==> left.Repr !! right.Repr)
      && Shape == Node(range, max, ShapeOf(left), ShapeOf(right))
    }

    /** A linked tree that is well formed, augmented and ordered. */
    ghost predicate Valid()
      reads this, Repr
    {
      Linked() && WellFormed(Shape) && Augmented(Shape) && Ordered(Shape)
    }

    /** One unfolding of `Linked` for this node and its children. */
    lemma ShapeFacts()
      requires Linked()
      ensures Shape == Node(range, max, ShapeOf(left), ShapeOf(right))
      ensures left != null ==> left.Linked() && left.Shape.Node? && left.Shape.max == left.max
      ensures right != null ==> right.Linked() && right.Shape.Node? && right.Shape.max == right.max
    {
      if left != null { assert left.Linked(); }
      if right != null { assert right.Linked(); }
    }

    /** The children of a valid node are valid trees themselves. */
    lemma ChildrenValid()
      requires Valid()
      ensures left != null ==> left.Valid()
      ensures right != null ==> right.Valid()
    {
      ShapeFacts();
      if left != null {
        forall x | x in PreOrder(left.Shape) ensures x in PreOrder(Shape) {}
      }
      if right != null {
        forall x | x in PreOrder(right.Shape) ensures x in PreOrder(Shape) {}
      }
    }

    /** `RangeTreeNode::new`: a leaf whose `max` is the rule's source end. */
    constructor (p: RangePair)
      requires p.source.Valid()
      ensures Valid() && fresh(Repr)
      ensures Shape == TreeInsert(Empty, p)
    {
      range := p;
      max := p.source.end;
      left := null;
      right := null;
      Shape := Node(p, p.source.end, Empty, Empty);
      Repr := {this};
    }

    /** `RangeTreeNode::insert`, in place. */
    method Insert(p: RangePair)
      requires Valid() && p.source.Valid()
      modifies Repr
      ensures Valid() && fresh(Repr - old(Repr))
      ensures Shape == TreeInsert(old(Shape), p)
      decreases Repr, 1
    {
      ChildrenValid();
      ghost var before := Shape;
      if max < p.source.end {
        max := p.source.end;
        Shape := Shape.(max := max);
      }
      if p.source.start < range.source.start {
        InsertLeft(p);
      } else {
        InsertRight(p);
      }
      TreeInsertAugmented(before, p);
      TreeInsertOrdered(before, p);
      TreeInsertWellFormed(before, p);
    }

    method InsertLeft(p: RangePair)
      requires Linked() && p.source.Valid()
      requires left != null ==> left.Valid()
      modifies Repr
      ensures Linked() && fresh(Repr - old(Repr))
      ensures Shape == old(Shape).(left := TreeInsert(old(Shape).left, p))
      decreases Repr, 0
    {
      left := InsertBelow(left, p);
      Repr := Repr + left.Repr;
      Shape := Node(range, max, ShapeOf(left), ShapeOf(right));
    }

    method InsertRight(p: RangePair)
      requires Linked() && p.source.Valid()
      requires right != null ==> right.Valid()
      modifies Repr
      ensures Linked() && fresh(Repr - old(Repr))
      ensures Shape == old(Shape).(right := TreeInsert(old(Shape).right, p))
      decreases Repr, 0
    {
      right := InsertBelow(right, p);
      Repr := Repr + right.Repr;
      Shape := Node(range, max, ShapeOf(left), ShapeOf(right));
    }

    /**
     * One child slot of `insert`: recurse into the child when there is one,
     * otherwise hang a new leaf (`Some(Box::new(RangeTreeNode::new(range)))`).
     */
    static method InsertBelow(child: RangeTreeNode?, p: RangePair) returns (c: RangeTreeNode)
      requires child != null ==> child.Valid()
      requires p.source.Valid()
      modifies if child == null then {} else child.Repr
      ensures c.Valid() && c.Shape == TreeInsert(old(ShapeOf(child)), p)
      ensures child != null ==> c == child && fresh(c.Repr - old(child.Repr))
      ensures child == null ==> fresh(c.Repr)
      decreases if child == null then {} else child.Repr, 2
    {
      if child != null {
        child.Insert(p);
        c := child;
      } else {
        c := new RangeTreeNode(p);
      }
    }

    /** The facts `FindIntersections` needs: its result splits along the pre-order, and pruned children yield nothing. */
    lemma SearchFacts(q: Range)
      requires Valid() && q.Valid()
      ensures Pieces(PreOrder(Shape), q) ==
                Piece(range, q) + Pieces(PreOrder(ShapeOf(left)), q) + Pieces(PreOrder(ShapeOf(right)), q)
      ensures left != null && left.max < q.start ==> Pieces(PreOrder(left.Shape), q) == []
      ensures right != null && right.max < q.start ==> Pieces(PreOrder(right.Shape), q) == []
    {
      ShapeFacts();
      PiecesAppend([range] + PreOrder(ShapeOf(left)), PreOrder(ShapeOf(right)), q);
      PiecesAppend([range], PreOrder(ShapeOf(left)), q);
      assert Pieces([range], q) == Piece(range, q);
      if left != null && left.max < q.start { PruneSound(left.Shape, q); }
      if right != null && right.max < q.start { PruneSound(right.Shape, q); }
    }

    /** The facts `FindOverlapping` needs about the single child it descends into. */
    lemma OverlapFacts(q: Range)
      requires Valid()
      ensures left != null && left.max >= q.start &&
              (forall x | x in PreOrder(left.Shape) :: !Overlaps(x.source, q)) ==>
                forall x | x in PreOrder(ShapeOf(right)) :: !Overlaps(x.source, q)
      ensures left != null && left.max < q.start ==>
                forall x | x in PreOrder(left.Shape) :: !Overlaps(x.source, q)
    {
      ShapeFacts();
      if left != null {
        ChildrenValid();
        assert left.max == SubtreeMax(left.Shape);
        SubtreeMaxBounds(left.Shape);
        if left.max >= q.start && forall x | x in PreOrder(left.Shape) :: !Overlaps(x.source, q) {
          LeftMissImpliesRightMiss(Shape, q);
        }
      }
    }

    /**
     * `RangeTreeNode::find_intersections`: one piece for every stored rule
     * whose source overlaps `q`, in pre-order, and none for any other rule,
     * although subtrees with `max < q.start` are never visited.
     */
    function FindIntersections(q: Range): (r: seq<RangePair>)
      requires Valid() && q.Valid()
      reads this, Repr
      ensures r == Pieces(PreOrder(Shape), q)
      decreases Repr
    {
      SearchFacts(q);
      ChildrenValid();
      var own := Piece(range, q);
      var fromLeft := if left != null && left.max >= q.start then left.FindIntersections(q) else [];
      var fromRight := if right != null && right.max >= q.start then right.FindIntersections(q) else [];
      own + fromLeft + fromRight
    }

    /**
     * `RangeTreeNode::find_overlapping`: some stored rule whose source overlaps
     * the query's source, and nothing only when no stored rule does, although
     * the search descends into a single child.
     */
    function FindOverlapping(query: RangePair): (r: Option<RangePair>)
      requires Valid()
      reads this, Repr
      ensures r.Some? ==> r.value in PreOrder(Shape) && Overlaps(r.value.source, query.source)
      ensures r.None? <==> forall x | x in PreOrder(Shape) :: !Overlaps(x.source, query.source)
      decreases Repr
    {
      OverlapFacts(query.source);
      ChildrenValid();
      if Overlaps(range.source, query.source) then
        Some(range)
      else if left != null && left.max >= query.source.start then
        left.FindOverlapping(query)
      else if right != null then
        right.FindOverlapping(query)
      else
        None
    }
  }

  // ---------------------------------------------------------------------------
  // Worked example: `interval_tree_test`

  const exampleRules := [
    RangePair(Range(100, 200), Range(50, 150)),
    RangePair(Range(32, 48), Range(62, 78)),
    RangePair(Range(10, 20), Range(90, 100)),
    RangePair(Range(255, 260), Range(100, 105)),
    RangePair(Range(400, 420), Range(800, 820))
  ]

  /** The tree the five example rules build, written out. */
  const exampleTree :=
    Node(exampleRules[0], 420,
      Node(exampleRules[1], 48, Node(exampleRules[2], 20, Empty, Empty), Empty),
      Node(exampleRules[3], 420, Empty, Node(exampleRules[4], 420, Empty, Empty)))

  lemma ExampleSearch()
    ensures Pieces(PreOrder(exampleTree), Range(120, 300)) ==
              [RangePair(Range(120, 200), Range(70, 150)), RangePair(Range(255, 260), Range(100, 105))]
  {
    var rs := PreOrder(exampleTree);
    var q := Range(120, 300);
    assert rs == [exampleRules[0], exampleRules[1], exampleRules[2], exampleRules[3], exampleRules[4]];
    assert Piece(rs[0], q) == [RangePair(Range(120, 200), Range(70, 150))];
    assert Piece(rs[1], q) == [] && Piece(rs[2], q) == [];
    assert Piece(rs[3], q) == [RangePair(Range(255, 260), Range(100, 105))];
    assert Piece(rs[4], q) == [];
    assert Pieces(rs[4..], q) == [] by { assert rs[4..][1..] == []; }
    assert rs[3..][1..] == rs[4..] && rs[2..][1..] == rs[3..] && rs[1..][1..] == rs[2..];
  }

  /**
   * `interval_tree_test`: the five rules inserted in order, then searched for
   * 120..300, give the parts of 100..200 and 255..260 inside the query.
   */
  method IntervalTreeExample() returns (found: seq<RangePair>)
    ensures found == [RangePair(Range(120, 200), Range(70, 150)), RangePair(Range(255, 260), Range(100, 105))]
  {
    var root := ExampleTree();
    found := root.FindIntersections(Range(120, 300));
    ExampleSearch();
  }

  /** The tree of `interval_tree_test`: its five rules inserted in order into a new tree. */
  method ExampleTree() returns (root: RangeTreeNode)
    ensures root.Valid() && root.Shape == exampleTree
  {
    root := new RangeTreeNode(exampleRules[0]);
    root.Insert(exampleRules[1]);
    root.Insert(exampleRules[2]);
    root.Insert(exampleRules[3]);
    root.Insert(exampleRules[4]);
  }
}
