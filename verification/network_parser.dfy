/**
 * Reading the day-8 input of 2023/day-8/src/main.rs: a first line of L/R
 * steps, then one node per line written `AAA = (BBB, CCC)`, read by fixed
 * three-character slices around the `=` and the parentheses.
 */
module NetworkParser {
  import opened Wrappers
  import opened Chars
  import opened Networks

  // ---------------------------------------------------------------------------
  // parse_steps

  /** The `filter_map` closure of `parse_steps`: 'L' and 'R' name a step, nothing else does. */
  function StepOf(c: char): (r: Option<Step>)
    ensures r == Some(Left) <==> c == 'L'
    ensures r == Some(Right) <==> c == 'R'
  {
    match c
    case 'L' => Some(Left)
    case 'R' => Some(Right)
    case _ => None
  }

  /** `parse_steps`: 'L' and 'R' in order as Left and Right; every other character is dropped. */
  function ParseSteps(input: string): (r: seq<Step>)
    ensures |r| <= |input|
  {
    if input == [] then []
    else
      match StepOf(input[0])
      case Some(step) => [step] + ParseSteps(input[1..])
      case None => ParseSteps(input[1..])
  }

  /** The letter each step is written with. */
  function StepsText(steps: seq<Step>): (r: string)
    ensures |r| == |steps|
  {
    if steps == [] then []
    else [if steps[0] == Left then 'L' else 'R'] + StepsText(steps[1..])
  }

  /** Reading splits over concatenation: each character is read on its own. */
  lemma {:induction false} ParseStepsAppend(a: string, b: string)
    ensures ParseSteps(a + b) == ParseSteps(a) + ParseSteps(b)
  {
    if a != [] {
      var ab := a + b;
      assert ab[0] == a[0] && ab[1..] == a[1..] + b;
      ParseStepsAppend(a[1..], b);
      match StepOf(a[0]) {
        case None =>
        case Some(step) =>
          assert ParseSteps(ab) == [step] + ParseSteps(a[1..] + b);
          ConcatAssoc([step], ParseSteps(a[1..]), ParseSteps(b));
      }
    } else {
      assert a + b == b;
      EmptyConcat(ParseSteps(b));
    }
  }

  /** Written steps read back as the same steps. */
  lemma {:induction false} ParseStepsText(steps: seq<Step>)
    ensures ParseSteps(StepsText(steps)) == steps
  {
    if steps != [] {
      ParseStepsText(steps[1..]);
      assert StepsText(steps)[1..] == StepsText(steps[1..]);
    }
  }

  /** Characters other than 'L' and 'R' leave no step. */
  lemma {:induction false} ParseStepsIgnores(s: string)
    requires 'L' !in s && 'R' !in s
    ensures ParseSteps(s) == []
  {
    if s != [] {
      ParseStepsIgnores(s[1..]);
    }
  }

  // ---------------------------------------------------------------------------
  // parse_map_line

  /** The position of the first `c` in `s`: `char_indices().find(..)` on ASCII text. */
  function FindChar(s: string, c: char): (r: Option<nat>)
    ensures r.None? <==> c !in s
    ensures r.Some? ==> r.value < |s| && s[r.value] == c && c !in s[..r.value]
  {
    if s == [] then None
    else if s[0] == c then Some(0)
    else
      match FindChar(s[1..], c)
      case None => None
      case Some(i) =>
        assert s[..i + 1] == [s[0]] + s[1..][..i];
        Some(i + 1)
  }

  /** The text after the first '=' up to any second '=': `split("=")`'s second piece. */
  function Pointers(input: string): (r: Option<string>)
    ensures r.None? <==> '=' !in input
  {
    var pieces := SplitOn(input, '=');
    if |pieces| < 2 then None else Some(pieces[1])
  }

  /**
   * The slices `parse_map_line` takes are in bounds: three characters before
   * the '=', three after the '(' and three before the ')'. Outside them the
   * source panics.
   */
  predicate MapLineFits(input: string) {
    match Pointers(input)
    case None => true
    case Some(pointers) =>
      match (FindChar(pointers, '('), FindChar(pointers, ')'))
      case (Some(open), Some(close)) =>
        3 <= |SplitOn(input, '=')[0]| && open + 4 <= |pointers| && 3 <= close
      case _ => true
  }

  /**
   * `parse_map_line`: None without a '=' or without a '(' or ')' after it;
   * otherwise the node is the first three characters, left the three after
   * the first '(' and right the three before the first ')'.
   */
  function ParseMapLine(input: string): (r: Option<(string, (string, string))>)
    requires MapLineFits(input)
    ensures r.None? <==>
              Pointers(input).None? || '(' !in Pointers(input).value || ')' !in Pointers(input).value
    ensures r.Some? ==>
              var (start, (left, right)) := r.value;
              |start| == 3 && |left| == 3 && |right| == 3 && start == input[..3] && '=' !in start
    ensures r.Some? ==>
              var pointers := Pointers(input).value;
              FindChar(pointers, '(').Some? && FindChar(pointers, ')').Some? &&
              var open, close := FindChar(pointers, '(').value, FindChar(pointers, ')').value;
              r.value.1 == (pointers[open + 1..open + 4], pointers[close - 3..close])
  {
    var startSplit := SplitOn(input, '=')[0];
    match Pointers(input)
    case None => None
    case Some(pointers) =>
      match (FindChar(pointers, '('), FindChar(pointers, ')'))
      case (Some(open), Some(close)) =>
        var start := startSplit[0..3];
        assert start == input[..3];
        Some((start, (pointers[open + 1..open + 4], pointers[close - 3..close])))
      case _ => None
  }

  /** A node name as the input writes it: three characters, none of them `=()`. */
  predicate NodeName(n: string) {
    |n| == 3 && '=' !in n && '(' !in n && ')' !in n
  }

  /** The line that describes a node. */
  function MapLineText(node: string, left: string, right: string): string {
    node + " = (" + left + ", " + right + ")"
  }

  lemma {:induction false} FindCharPrefix(x: string, c: char, y: string)
    requires c !in x && y != [] && y[0] == c
    ensures FindChar(x + y, c) == Some(|x|)
  {
    if x != [] {
      assert (x + y)[0] == x[0] && (x + y)[1..] == x[1..] + y;
      FindCharPrefix(x[1..], c, y);
    }
  }

  /** Where the parentheses of a written node line are. */
  lemma PointersText(left: string, right: string)
    requires NodeName(left) && NodeName(right)
    ensures FindChar(" (" + left + ", " + right + ")", '(') == Some(1)
    ensures FindChar(" (" + left + ", " + right + ")", ')') == Some(10)
  {
    var pointers := " (" + left + ", " + right + ")";
    assert " " + ("(" + left + ", " + right + ")") == pointers;
    FindCharPrefix(" ", '(', "(" + left + ", " + right + ")");
    assert (" (" + left + ", " + right) + ")" == pointers;
    FindCharPrefix(" (" + left + ", " + right, ')', ")");
  }

  /** A written node line is the name and a space, the '=', then the parenthesised pair. */
  lemma MapLineTextParts(node: string, left: string, right: string)
    ensures MapLineText(node, left, right) == (node + " ") + ['='] + (" (" + left + ", " + right + ")")
  {
  }

  /** `split("=")` of a written node line: the name and a space, then the pair. */
  lemma MapLineTextSplit(node: string, left: string, right: string)
    requires NodeName(node) && NodeName(left) && NodeName(right)
    ensures SplitOn(MapLineText(node, left, right), '=') == [node + " ", " (" + left + ", " + right + ")"]
  {
    var pointers := " (" + left + ", " + right + ")";
    MapLineTextParts(node, left, right);
    SplitOnJoin(node + " ", '=', pointers);
    SplitOnNone(pointers, '=');
  }

  /** A written node line reads back as the node and its two successors. */
  lemma ParseMapLineText(node: string, left: string, right: string)
    requires NodeName(node) && NodeName(left) && NodeName(right)
    ensures MapLineFits(MapLineText(node, left, right))
    ensures ParseMapLine(MapLineText(node, left, right)) == Some((node, (left, right)))
  {
    var pointers := " (" + left + ", " + right + ")";
    MapLineTextSplit(node, left, right);
    PointersText(left, right);
    assert pointers[2..5] == left;
    assert pointers[7..10] == right;
    assert (node + " ")[0..3] == node;
  }

  // ---------------------------------------------------------------------------
  // parse_network_and_steps

  lemma SingleLine(s: string)
    ensures '\n' !in s ==> SplitOn(s, '\n') == [s]
  {
    if '\n' !in s {
      SplitOnNone(s, '\n');
    }
  }

  /**
   * `str::lines`: the pieces between '\n's, without the empty piece that
   * follows a final '\n'; the empty text has no lines.
   */
  function Lines(s: string): (r: seq<string>)
    ensures r == [] <==> s == []
  {
    var pieces := SplitOn(s, '\n');
    SingleLine(s);
    if pieces[|pieces| - 1] == [] then pieces[..|pieces| - 1] else pieces
  }

  /** Every node line may be read without a slice out of bounds. */
  predicate LinesFit(lines: seq<string>) {
    forall i | 0 <= i < |lines| :: MapLineFits(lines[i])
  }

  /** A line read as a node: its name and its (left, right) successors. */
  type Entry = (string, (string, string))

  /** Every line read by `parse_map_line`. */
  function ParsedLines(lines: seq<string>): (r: seq<Option<Entry>>)
    requires LinesFit(lines)
    ensures |r| == |lines|
    ensures forall i | 0 <= i < |lines| :: r[i] == ParseMapLine(lines[i])
  {
    if lines == [] then [] else ParsedLines(lines[..|lines| - 1]) + [ParseMapLine(lines[|lines| - 1])]
  }

  /** The node map the read lines build: each node is inserted, later over earlier. */
  function NodesFrom(entries: seq<Option<Entry>>): map<string, (string, string)>
  {
    if entries == [] then map[]
    else
      var nodes := NodesFrom(entries[..|entries| - 1]);
      match entries[|entries| - 1]
      case None => nodes
      case Some((start, paths)) => nodes[start := paths]
  }

  /** The node map of the lines. */
  function NodesOf(lines: seq<string>): map<string, (string, string)>
    requires LinesFit(lines)
  {
    NodesFrom(ParsedLines(lines))
  }

  /** Entry `e` describes node `k`. */
  predicate Describes(e: Option<Entry>, k: string) {
    e.Some? && e.value.0 == k
  }

  /** A node is in the map exactly when some entry describes it. */
  lemma {:induction false} NodesFromKeys(entries: seq<Option<Entry>>, k: string)
    ensures k in NodesFrom(entries) <==> exists i | 0 <= i < |entries| :: Describes(entries[i], k)
  {
    if entries != [] {
      var front, n := entries[..|entries| - 1], |entries| - 1;
      NodesFromKeys(front, k);
      if k in NodesFrom(front) {
        var i :| 0 <= i < |front| && Describes(front[i], k);
        assert entries[i] == front[i];
      }
      if exists i | 0 <= i < |entries| :: Describes(entries[i], k) {
        var i :| 0 <= i < |entries| && Describes(entries[i], k);
        if i < n {
          assert front[i] == entries[i];
        }
      }
    }
  }

  /** A node's entry is what the last entry describing it says. */
  lemma {:induction false} NodesFromLast(entries: seq<Option<Entry>>, k: string)
    requires k in NodesFrom(entries)
    ensures exists i | 0 <= i < |entries| ::
              entries[i] == Some((k, NodesFrom(entries)[k])) &&
              forall j | i < j < |entries| :: !Describes(entries[j], k)
  {
    var front, n := entries[..|entries| - 1], |entries| - 1;
    if Describes(entries[n], k) {
      assert entries[n] == Some((k, NodesFrom(entries)[k]));
    } else {
      NodesFromLast(front, k);
      var i :| 0 <= i < |front| && front[i] == Some((k, NodesFrom(front)[k])) &&
               forall j | i < j < |front| :: !Describes(front[j], k);
      assert entries[i] == front[i];
      forall j | i < j < |entries| ensures !Describes(entries[j], k) {
        if j < n {
          assert entries[j] == front[j];
        }
      }
    }
  }

  /** One more line read extends the node map by what it describes. */
  lemma NodesOfStep(lines: seq<string>, i: nat)
    requires LinesFit(lines) && i < |lines|
    ensures LinesFit(lines[..i]) && LinesFit(lines[..i + 1])
    ensures NodesOf(lines[..i + 1]) ==
              match ParseMapLine(lines[i])
              case None => NodesOf(lines[..i])
              case Some((start, paths)) => NodesOf(lines[..i])[start := paths]
  {
    assert lines[..i + 1][..i] == lines[..i];
    assert ParsedLines(lines[..i + 1])[..i] == ParsedLines(lines[..i]);
  }

  /** The `while let` loop of `parse_network_and_steps`: insert each node line that reads. */
  method InsertNodes(lines: seq<string>) returns (networkMap: map<string, (string, string)>)
    requires LinesFit(lines)
    ensures networkMap == NodesOf(lines)
  {
    networkMap := map[];
    var i := 0;
    while i < |lines|
      invariant i <= |lines| && LinesFit(lines[..i])
      invariant networkMap == NodesOf(lines[..i])
    {
      NodesOfStep(lines, i);
      var mapLine := ParseMapLine(lines[i]);
      if mapLine.Some? {
        networkMap := networkMap[mapLine.value.0 := mapLine.value.1];
      }
      i := i + 1;
    }
    assert lines[..i] == lines;
  }

  /**
   * `parse_network_and_steps`: None when the input has no lines; otherwise
   * the first line's steps and the network built from every later line.
   */
  method ParseNetworkAndSteps(input: string) returns (r: Option<(Network, seq<Step>)>)
    requires Lines(input) != [] ==> LinesFit(Lines(input)[1..])
    ensures r.None? <==> input == []
    ensures r.Some? ==> r.value.1 == ParseSteps(Lines(input)[0])
    ensures r.Some? ==> r.value.0.nodes == NodesOf(Lines(input)[1..])
  {
    var lines := Lines(input);
    if lines == [] {
      return None;
    }
    var steps := ParseSteps(lines[0]);
    var networkMap := InsertNodes(lines[1..]);
    r := Some((Network(networkMap), steps));
  }
}
