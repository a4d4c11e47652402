/**
 * The almanac parser (day 5). It reads the token stream of `AlmanacLexer`
 * through a peekable iterator, modelled here as the sequence of tokens not
 * yet consumed: every parse method takes what is left and returns what is
 * left after it. Each method is proved equal to a function on that suffix,
 * and the functions are proved to read back what the almanac text says.
 */
module AlmanacParser {
  import opened Wrappers
  import opened Chars
  import opened Intervals
  import opened RangeMaps
  import opened NumberMappers
  import opened AlmanacLexer

  // ---------------------------------------------------------------------------
  // The seeds line

  /**
   * `while let Some(Number(n)) = iter.next()`: the numbers up to the first
   * other token, which is consumed as well.
   */
  function NumbersFrom(ts: seq<Token>): (r: (seq<nat>, seq<Token>))
    ensures |r.1| <= |ts| && (ts != [] ==> |r.1| < |ts|)
  {
    if ts == [] then ([], [])
    else if ts[0].Number? then
      var (xs, rest) := NumbersFrom(ts[1..]);
      ([ts[0].n] + xs, rest)
    else ([], ts[1..])
  }

  /** `parse_seeds`: a `Seeds` token, then its numbers; any other first token is consumed and yields none. */
  function SeedsFrom(ts: seq<Token>): (r: (seq<nat>, seq<Token>))
    ensures |r.1| <= |ts| && (ts != [] ==> |r.1| < |ts|)
  {
    if ts == [] then ([], [])
    else if ts[0] == Seeds then NumbersFrom(ts[1..])
    else ([], ts[1..])
  }

  /** The numbers read back from their tokens, the non-number after them consumed. */
  lemma {:induction false} NumbersFromTokens(xs: seq<nat>, t: Token, rest: seq<Token>)
    requires !t.Number?
    ensures NumbersFrom(NumberTokens(xs) + [t] + rest) == (xs, rest)
  {
    var ts := NumberTokens(xs) + [t] + rest;
    if xs == [] {
      assert ts == [t] + rest;
      assert ts[1..] == rest;
    } else {
      var tail := NumberTokens(xs[1..]) + [t] + rest;
      assert ts == [Number(xs[0])] + tail by {
        ConcatAssoc([Number(xs[0])], NumberTokens(xs[1..]), [t]);
        ConcatAssoc([Number(xs[0])], NumberTokens(xs[1..]) + [t], rest);
      }
      NumbersFromCons(xs[0], tail);
      NumbersFromTokens(xs[1..], t, rest);
      assert [xs[0]] + xs[1..] == xs;
    }
  }

  /** A leading number is read and the numbers after it follow. */
  lemma NumbersFromCons(n: nat, tail: seq<Token>)
    ensures NumbersFrom([Number(n)] + tail) == ([n] + NumbersFrom(tail).0, NumbersFrom(tail).1)
  {
    assert ([Number(n)] + tail)[1..] == tail;
  }

  /** One turn of the numbers loop. */
  lemma NumbersStep(ts: seq<Token>)
    requires ts != []
    ensures ts[0].Number? ==> NumbersFrom(ts) == ([ts[0].n] + NumbersFrom(ts[1..]).0, NumbersFrom(ts[1..]).1)
    ensures !ts[0].Number? ==> NumbersFrom(ts) == ([], ts[1..])
  {
  }

  method ParseSeeds(iter: seq<Token>) returns (seeds: seq<nat>, rest: seq<Token>)
    ensures (seeds, rest) == SeedsFrom(iter)
  {
    seeds := [];
    rest := iter;
    if rest == [] {
      return;
    }
    var first := rest[0];
    rest := rest[1..];
    if first == Seeds {
      assert [] + NumbersFrom(rest).0 == NumbersFrom(rest).0;
      while true
        invariant NumbersFrom(iter[1..]) == (seeds + NumbersFrom(rest).0, NumbersFrom(rest).1)
        decreases |rest|
      {
        if rest == [] {
          assert seeds + [] == seeds;
          break;
        }
        var token := rest[0];
        NumbersStep(rest);
        rest := rest[1..];
        if !token.Number? {
          assert seeds + [] == seeds;
          break;
        }
        ConcatAssoc(seeds, [token.n], NumbersFrom(rest).0);
        seeds := seeds + [token.n];
      }
    }
  }

  /** `parse_seed_ranges`' reading of the numbers: each start is paired with the length after it; an unpaired last number is dropped. */
  function Pairs(xs: seq<nat>): (r: seq<Range>)
    ensures |r| == |xs| / 2
  {
    if |xs| < 2 then [] else [Range(xs[0], xs[0] + xs[1])] + Pairs(xs[2..])
  }

  /** The `k`th range starts at the `2k`th number and is as long as the number after it. */
  lemma {:induction false} PairsAt(xs: seq<nat>, k: nat)
    requires k < |xs| / 2
    ensures Pairs(xs)[k] == Range(xs[2 * k], xs[2 * k] + xs[2 * k + 1])
    ensures Pairs(xs)[k].Valid() && Pairs(xs)[k].Length() == xs[2 * k + 1]
  {
    if k > 0 {
      PairsAt(xs[2..], k - 1);
      assert xs[2..][2 * (k - 1)] == xs[2 * k];
      assert xs[2..][2 * (k - 1) + 1] == xs[2 * k + 1];
    }
  }

  /** Two more numbers add one more range at the end. */
  lemma {:induction false} PairsSnoc(xs: seq<nat>, a: nat, b: nat)
    requires |xs| % 2 == 0
    ensures Pairs(xs + [a, b]) == Pairs(xs) + [Range(a, a + b)]
  {
    if xs == [] {
      assert [] + [a, b] == [a, b];
      assert [a, b][2..] == [];
    } else {
      assert (xs + [a, b])[2..] == xs[2..] + [a, b];
      PairsSnoc(xs[2..], a, b);
      ConcatAssoc([Range(xs[0], xs[0] + xs[1])], Pairs(xs[2..]), [Range(a, a + b)]);
    }
  }

  /** One more number with none pending waits for its partner. */
  lemma {:induction false} PairsPending(xs: seq<nat>, a: nat)
    requires |xs| % 2 == 0
    ensures Pairs(xs + [a]) == Pairs(xs)
  {
    if xs != [] {
      assert (xs + [a])[2..] == xs[2..] + [a];
      PairsPending(xs[2..], a);
    }
  }

  /**
   * `parse_seed_ranges`: the seeds line read as ranges, with the pending
   * start held in `rangeStart` between the two numbers of a pair.
   */
  method ParseSeedRanges(iter: seq<Token>) returns (seedRanges: seq<Range>, rest: seq<Token>)
    ensures seedRanges == Pairs(SeedsFrom(iter).0) && rest == SeedsFrom(iter).1
  {
    seedRanges := [];
    rest := iter;
    if rest == [] {
      return;
    }
    var first := rest[0];
    rest := rest[1..];
    if first == Seeds {
      var rangeStart: Option<nat> := None;
      ghost var read: seq<nat> := [];
      ghost var paired: seq<nat> := [];
      assert [] + NumbersFrom(rest).0 == NumbersFrom(rest).0;
      while true
        invariant NumbersFrom(iter[1..]) == (read + NumbersFrom(rest).0, NumbersFrom(rest).1)
        invariant |paired| % 2 == 0 && seedRanges == Pairs(paired)
        invariant read == if rangeStart.Some? then paired + [rangeStart.value] else paired
        decreases |rest|
      {
        if rest == [] {
          assert read + [] == read;
          break;
        }
        var token := rest[0];
        NumbersStep(rest);
        rest := rest[1..];
        if !token.Number? {
          assert read + [] == read;
          break;
        }
        var num := token.n;
        ConcatAssoc(read, [num], NumbersFrom(rest).0);
        match rangeStart {
          case None =>
            rangeStart := Some(num);
          case Some(start) =>
            PairsSnoc(paired, start, num);
            assert paired + [start] + [num] == paired + [start, num];
            paired := paired + [start, num];
            seedRanges := seedRanges + [Range(start, start + num)];
            rangeStart := None;
        }
        read := read + [num];
      }
      if rangeStart.Some? {
        PairsPending(paired, rangeStart.value);
      }
    }
  }

  // ---------------------------------------------------------------------------
  // Tables

  /** The rule a line `<target start> <source start> <length>` stands for. */
  function RuleOf(targetStart: nat, sourceStart: nat, length: nat): (p: RangePair)
    ensures Encodable(p) && p.source.Length() == length
    ensures p.source.start == sourceStart && p.target.start == targetStart
  {
    RangePair(Range(sourceStart, sourceStart + length), Range(targetStart, targetStart + length))
  }

  /** A rule the text can carry is read back from its own line's three numbers. */
  lemma RuleOfEncodable(p: RangePair)
    requires Encodable(p)
    ensures RuleOf(p.target.start, p.source.start, p.source.Length()) == p
  {
  }

  /** Rules read so far put in front of what the rest of the table yields. */
  function Prepend(ps: seq<RangePair>, r: (Option<seq<RangePair>>, seq<Token>)): (Option<seq<RangePair>>, seq<Token>) {
    (if r.0.Some? then Some(ps + r.0.value) else None, r.1)
  }

  /**
   * `parse_range_map`: rule lines until a token that is neither a number nor
   * a line break, which is left in place. A rule line cut short by the end of
   * the tokens or by a non-number fails the whole table; the offending token
   * is consumed.
   */
  function RulesFrom(ts: seq<Token>): (r: (Option<seq<RangePair>>, seq<Token>))
    ensures |r.1| <= |ts|
  {
    if ts == [] then (Some([]), [])
    else
      match ts[0]
      case Number(t) =>
        if |ts| == 1 then (None, [])
        else if !ts[1].Number? then (None, ts[2..])
        else if |ts| == 2 then (None, [])
        else if !ts[2].Number? then (None, ts[3..])
        else Prepend([RuleOf(t, ts[1].n, ts[2].n)], RulesFrom(ts[3..]))
      case Newline => RulesFrom(ts[1..])
      case _ => (Some([]), ts)
  }

  lemma PrependEmpty(r: (Option<seq<RangePair>>, seq<Token>))
    ensures Prepend([], r) == r
  {
    if r.0.Some? {
      assert [] + r.0.value == r.0.value;
    }
  }

  lemma PrependNone(ps: seq<RangePair>, rest: seq<Token>)
    ensures Prepend(ps, (None, rest)) == (None, rest)
  {
  }

  lemma PrependPrepend(ps: seq<RangePair>, qs: seq<RangePair>, r: (Option<seq<RangePair>>, seq<Token>))
    ensures Prepend(ps, Prepend(qs, r)) == Prepend(ps + qs, r)
  {
    if r.0.Some? {
      assert ps + (qs + r.0.value) == ps + qs + r.0.value;
    }
  }

  /** The rule lines of a table read back as its rules, ahead of whatever follows. */
  lemma {:induction false} RulesFromTokens(ps: seq<RangePair>, rest: seq<Token>)
    requires forall p | p in ps :: Encodable(p)
    ensures RulesFrom(RulesTokens(ps) + rest) == Prepend(ps, RulesFrom(rest))
  {
    if ps == [] {
      assert RulesTokens(ps) + rest == rest;
      PrependEmpty(RulesFrom(rest));
    } else {
      var p := ps[0];
      var ts := RulesTokens(ps) + rest;
      var after := RulesTokens(ps[1..]) + rest;
      assert ts == RuleTokens(p) + after;
      assert ts[3..] == [Newline] + after;
      assert ts[3..][1..] == after;
      RuleOfEncodable(p);
      RulesFromTokens(ps[1..], rest);
      PrependPrepend([p], ps[1..], RulesFrom(rest));
      assert [p] + ps[1..] == ps;
    }
  }

  /** After the last rule line, a blank line and the next header stop the table. */
  lemma RulesFromTables(ts: seq<Table>)
    ensures RulesFrom(TablesTokens(ts)) == (Some([]), if ts == [] then [] else TablesTokens(ts)[1..])
  {
    if ts != [] {
      var tt := TablesTokens(ts);
      assert tt[0] == Newline && tt[1] == Map(ts[0].source, ts[0].target);
      assert tt[1..][0] == tt[1];
    }
  }

  /**
   * `parse_number_mapper`: at every `Map` header, skip it and the token after
   * it and read a table; a table that fails is dropped. Every other token is
   * skipped. The result lists the tables read, in order; it reads to the end.
   */
  function TablesFrom(ts: seq<Token>): seq<Table>
    decreases |ts|
  {
    if ts == [] then []
    else if ts[0].Map? then
      var body := if |ts| >= 2 then ts[2..] else [];
      var (rules, rest) := RulesFrom(body);
      (if rules.Some? then [Table(ts[0].source, ts[0].target, rules.value)] else []) + TablesFrom(rest)
    else TablesFrom(ts[1..])
  }

  /** The tables of an almanac read back as themselves. */
  lemma {:induction false} TablesFromTokens(ts: seq<Table>)
    requires forall t, p | t in ts && p in t.rules :: Encodable(p)
    ensures TablesFrom(TablesTokens(ts)) == ts
  {
    if ts != [] {
      var t, more := ts[0], TablesTokens(ts[1..]);
      RulesFromTables(ts[1..]);
      TableRead(t, more);
      TablesFromTokens(ts[1..]);
      if ts[1..] != [] {
        assert more[0] == Newline;
      }
      assert [t] + ts[1..] == ts;
    }
  }

  /** A table's tokens read back as the table, when the tokens after it end its rules at once. */
  lemma TableRead(t: Table, more: seq<Token>)
    requires forall p | p in t.rules :: Encodable(p)
    requires RulesFrom(more).0 == Some([])
    ensures TablesFrom(TableTokens(t) + more) == [t] + TablesFrom(RulesFrom(more).1)
  {
    ConcatAssoc([Newline, Map(t.source, t.target), Newline], RulesTokens(t.rules), more);
    TablesFromHeader(t.source, t.target, RulesTokens(t.rules) + more);
    RulesFromTokens(t.rules, more);
    assert t.rules + [] == t.rules;
  }

  /** A header line and a blank line, then the table read from what follows. */
  lemma TablesFromHeader(source: ValueKind, target: ValueKind, body: seq<Token>)
    ensures TablesFrom([Newline, Map(source, target), Newline] + body) ==
      (if RulesFrom(body).0.Some? then [Table(source, target, RulesFrom(body).0.value)] else []) +
      TablesFrom(RulesFrom(body).1)
  {
    var tt := [Newline, Map(source, target), Newline] + body;
    assert tt[1..][2..] == body;
    assert tt[1..][0] == Map(source, target);
  }

  /** The tables filed by source category, a later table replacing an earlier one. */
  function Filed(tables: seq<Table>): (r: map<ValueKind, Table>)
    ensures forall k | k in r :: r[k].source == k
  {
    if tables == [] then map[]
    else
      var last := tables[|tables| - 1];
      Filed(tables[..|tables| - 1])[last.source := last]
  }

  /**
   * A category is filed exactly when some table has it as source, and then
   * under the last such table.
   */
  lemma {:induction false} FiledIsLast(tables: seq<Table>, k: ValueKind)
    ensures k in Filed(tables) <==> exists i | 0 <= i < |tables| :: tables[i].source == k
    ensures k in Filed(tables) ==>
              exists i | 0 <= i < |tables| :: Filed(tables)[k] == tables[i] &&
                forall j | i < j < |tables| :: tables[j].source != k
  {
    if tables != [] {
      var n := |tables| - 1;
      var front := tables[..n];
      FiledIsLast(front, k);
      if tables[n].source != k {
        if k in Filed(tables) {
          var i :| 0 <= i < |front| && Filed(front)[k] == front[i] &&
                   forall j | i < j < |front| :: front[j].source != k;
          assert tables[i] == front[i];
          forall j | i < j < |tables| ensures tables[j].source != k {
            if j < n {
              assert tables[j] == front[j];
            }
          }
        }
        if exists i | 0 <= i < |tables| :: tables[i].source == k {
          var i :| 0 <= i < |tables| && tables[i].source == k;
          assert front[i] == tables[i];
        }
      }
    }
  }

  /** Filing one more table replaces the entry of its source category. */
  lemma FiledSnoc(tables: seq<Table>, t: Table)
    ensures Filed(tables + [t]) == Filed(tables)[t.source := t]
  {
    assert (tables + [t])[..|tables|] == tables;
  }

  /** The tables a mapper holds are the filed tables: same categories, same targets, same rules. */
  predicate Holds(maps: map<ValueKind, RangeMap>, filed: map<ValueKind, Table>) {
    && maps.Keys == filed.Keys
    && forall k | k in maps ::
         maps[k].sourceKind == k && maps[k].targetKind == filed[k].target && maps[k].ranges == filed[k].rules
  }

  method ParseRangeMap(iter: seq<Token>, sourceKind: ValueKind, targetKind: ValueKind)
    returns (rangeMap: Option<RangeMap>, rest: seq<Token>)
    ensures rest == RulesFrom(iter).1
    ensures rangeMap.None? <==> RulesFrom(iter).0.None?
    ensures rangeMap.Some? ==>
              && fresh(rangeMap.value.Repr) && rangeMap.value.Valid()
              && rangeMap.value.sourceKind == sourceKind && rangeMap.value.targetKind == targetKind
              && rangeMap.value.ranges == RulesFrom(iter).0.value
  {
    var rangePairs: seq<RangePair> := [];
    rest := iter;
    PrependEmpty(RulesFrom(iter));
    while rest != []
      invariant RulesFrom(iter) == Prepend(rangePairs, RulesFrom(rest))
      invariant SourcesValid(rangePairs)
      decreases |rest|
    {
      match rest[0]
      case Number(targetStart) =>
        var before := rest;
        rest := rest[1..];
        if rest == [] {
          PrependNone(rangePairs, rest);
          return None, rest;
        }
        var second := rest[0];
        rest := rest[1..];
        if !second.Number? {
          PrependNone(rangePairs, rest);
          return None, rest;
        }
        if rest == [] {
          PrependNone(rangePairs, rest);
          return None, rest;
        }
        var third := rest[0];
        rest := rest[1..];
        if !third.Number? {
          PrependNone(rangePairs, rest);
          return None, rest;
        }
        var pair := RuleOf(targetStart, second.n, third.n);
        assert before[3..] == rest;
        PrependPrepend(rangePairs, [pair], RulesFrom(rest));
        rangePairs := rangePairs + [pair];
      case Newline =>
        rest := rest[1..];
      case _ =>
        break;
    }
    assert RulesFrom(iter) == Prepend(rangePairs, (Some([]), rest));
    assert rangePairs + [] == rangePairs;
    var m := new RangeMap(sourceKind, targetKind, rangePairs);
    rangeMap := Some(m);
  }

  method ParseNumberMapper(iter: seq<Token>) returns (mapper: NumberMapper, rest: seq<Token>)
    ensures fresh(mapper.Repr) && mapper.Valid() && rest == []
    ensures Holds(mapper.maps, Filed(TablesFrom(iter)))
  {
    mapper := new NumberMapper();
    rest := iter;
    ghost var read: seq<Table> := [];
    while rest != []
      invariant mapper.Valid() && fresh(mapper.Repr)
      invariant read + TablesFrom(rest) == TablesFrom(iter)
      invariant Holds(mapper.maps, Filed(read))
      decreases |rest|
    {
      var token := rest[0];
      if token.Map? {
        var before := rest;
        rest := rest[1..];
        if rest != [] {
          rest := rest[1..];
        }
        assert rest == if |before| >= 2 then before[2..] else [];
        TablesFromMap(before);
        var rangeMap;
        rangeMap, rest := ParseRangeMap(rest, token.source, token.target);
        if rangeMap.Some? {
          var m := rangeMap.value;
          var table := Table(token.source, token.target, m.ranges);
          HoldsFile(mapper.maps, Filed(read), m, table);
          mapper.Insert(m);
          ConcatAssoc(read, [table], TablesFrom(rest));
          FiledSnoc(read, table);
          read := read + [table];
        } else {
          EmptyConcat(TablesFrom(rest));
        }
      } else {
        rest := rest[1..];
      }
    }
    assert read + [] == read;
  }

  /** At a header, the tables are the one read after it (if it reads) and those after that. */
  lemma TablesFromMap(ts: seq<Token>)
    requires ts != [] && ts[0].Map?
    ensures var body := if |ts| >= 2 then ts[2..] else [];
      TablesFrom(ts) ==
        (if RulesFrom(body).0.Some? then [Table(ts[0].source, ts[0].target, RulesFrom(body).0.value)] else []) +
        TablesFrom(RulesFrom(body).1)
  {
  }

  /** Filing a map for a table keeps a mapper holding the filed tables. */
  lemma HoldsFile(maps: map<ValueKind, RangeMap>, filed: map<ValueKind, Table>, m: RangeMap, t: Table)
    requires Holds(maps, filed)
    requires m.sourceKind == t.source && m.targetKind == t.target && m.ranges == t.rules
    ensures Holds(maps[t.source := m], filed[t.source := t])
  {
  }

  // ---------------------------------------------------------------------------
  // Whole almanacs

  /**
   * `parse_contents`' loop: a `Seeds` token starts the seeds line (a later
   * one replaces an earlier one); a `Map` header starts the tables, which
   * read to the end; every other token is skipped.
   */
  function ContentsFrom(ts: seq<Token>, seeds: Option<seq<nat>>, tables: Option<seq<Table>>)
    : (r: (Option<seq<nat>>, Option<seq<Table>>))
    decreases |ts|
  {
    if ts == [] then (seeds, tables)
    else if ts[0] == Seeds then
      var (xs, rest) := SeedsFrom(ts);
      ContentsFrom(rest, Some(xs), tables)
    else if ts[0].Map? then (seeds, Some(TablesFrom(ts)))
    else ContentsFrom(ts[1..], seeds, tables)
  }

  /** `parse_contents`: the seeds and the tables, or None when either is missing. */
  function Contents(ts: seq<Token>): Option<(seq<nat>, seq<Table>)> {
    var (seeds, tables) := ContentsFrom(ts, None, None);
    if seeds.Some? && tables.Some? then Some((seeds.value, tables.value)) else None
  }

  /** The seeds line is read, then the loop goes on after its line break. */
  lemma ContentsFromSeeds(seeds: seq<nat>, tt: seq<Token>)
    ensures ContentsFrom([Seeds] + NumberTokens(seeds) + [Newline] + tt, None, None) ==
            ContentsFrom(tt, Some(seeds), None)
  {
    var all := [Seeds] + NumberTokens(seeds) + [Newline] + tt;
    assert all[1..] == NumberTokens(seeds) + [Newline] + tt;
    NumbersFromTokens(seeds, Newline, tt);
  }

  /** The tables' tokens, met after the seeds, make the mapper and end the loop. */
  lemma ContentsFromTables(seeds: Option<seq<nat>>, ts: seq<Table>)
    requires ts != []
    ensures ContentsFrom(TablesTokens(ts), seeds, None) == (seeds, Some(TablesFrom(TablesTokens(ts))))
  {
    var tt := TablesTokens(ts);
    assert tt[0] == Newline;
    assert tt[1..][0] == Map(ts[0].source, ts[0].target);
  }

  /** The tokens of an almanac read back as its seeds and tables. */
  lemma ContentsOfTokens(seeds: seq<nat>, ts: seq<Table>)
    requires ts != []
    requires forall t, p | t in ts && p in t.rules :: Encodable(p)
    ensures Contents([Seeds] + NumberTokens(seeds) + [Newline] + TablesTokens(ts)) == Some((seeds, ts))
  {
    ContentsFromSeeds(seeds, TablesTokens(ts));
    ContentsFromTables(Some(seeds), ts);
    TablesFromTokens(ts);
  }

  /**
   * Reading an almanac text gives back its seeds and its tables, whenever
   * there is at least one table and every rule is one the text can carry.
   */
  lemma ContentsRoundTrip(seeds: seq<nat>, ts: seq<Table>)
    requires ts != []
    requires forall t, p | t in ts && p in t.rules :: Encodable(p)
    ensures Contents(Lex(AlmanacText(seeds, ts))) == Some((seeds, ts))
  {
    LexAlmanac(seeds, ts);
    ContentsOfTokens(seeds, ts);
  }

  /** An almanac with no table reads as nothing: the mapper is missing. */
  lemma ContentsWithoutTables(seeds: seq<nat>)
    ensures Contents(Lex(AlmanacText(seeds, []))) == None
  {
    LexAlmanac(seeds, []);
    ContentsFromSeeds(seeds, []);
    assert TablesTokens([]) == [];
    assert ContentsFrom([], Some(seeds), None) == (Some(seeds), None);
  }

  /** `parse_contents`: lex the text, then run the loop over the tokens. */
  method ParseContents(contents: string) returns (r: Option<(seq<nat>, NumberMapper)>)
    ensures r.None? <==> Contents(Lex(contents)).None?
    ensures r.Some? ==>
              && r.value.0 == Contents(Lex(contents)).value.0
              && r.value.1.Valid()
              && Holds(r.value.1.maps, Filed(Contents(Lex(contents)).value.1))
  {
    var tokens := LexContents(contents);
    var iter := tokens;
    var seeds: Option<seq<nat>> := None;
    var numberMapper: Option<NumberMapper> := None;
    ghost var tables: Option<seq<Table>> := None;
    while iter != []
      invariant ContentsFrom(iter, seeds, tables) == ContentsFrom(tokens, None, None)
      invariant tables.Some? <==> numberMapper.Some?
      invariant numberMapper.Some? ==>
                  numberMapper.value.Valid() && Holds(numberMapper.value.maps, Filed(tables.value))
      decreases |iter|
    {
      var token := iter[0];
      if token == Seeds {
        var xs;
        xs, iter := ParseSeeds(iter);
        seeds := Some(xs);
      } else if token.Map? {
        var mapper;
        tables := Some(TablesFrom(iter));
        mapper, iter := ParseNumberMapper(iter);
        numberMapper := Some(mapper);
      } else {
        iter := iter[1..];
      }
    }
    if seeds.Some? && numberMapper.Some? {
      r := Some((seeds.value, numberMapper.value));
    } else {
      r := None;
    }
  }

  /** `parse_content_ranges`: as `parse_contents`, with the seeds line read as ranges. */
  method ParseContentRanges(contents: string) returns (r: Option<(seq<Range>, NumberMapper)>)
    ensures r.None? <==> Contents(Lex(contents)).None?
    ensures r.Some? ==>
              && r.value.0 == Pairs(Contents(Lex(contents)).value.0)
              && r.value.1.Valid()
              && Holds(r.value.1.maps, Filed(Contents(Lex(contents)).value.1))
  {
    var tokens := LexContents(contents);
    var iter := tokens;
    var seedRanges: Option<seq<Range>> := None;
    var numberMapper: Option<NumberMapper> := None;
    ghost var seeds: Option<seq<nat>> := None;
    ghost var tables: Option<seq<Table>> := None;
    while iter != []
      invariant ContentsFrom(iter, seeds, tables) == ContentsFrom(tokens, None, None)
      invariant seeds.Some? <==> seedRanges.Some?
      invariant seeds.Some? ==> seedRanges.value == Pairs(seeds.value)
      invariant tables.Some? <==> numberMapper.Some?
      invariant numberMapper.Some? ==>
                  numberMapper.value.Valid() && Holds(numberMapper.value.maps, Filed(tables.value))
      decreases |iter|
    {
      var token := iter[0];
      if token == Seeds {
        seeds := Some(SeedsFrom(iter).0);
        var ranges;
        ranges, iter := ParseSeedRanges(iter);
        seedRanges := Some(ranges);
      } else if token.Map? {
        var mapper;
        tables := Some(TablesFrom(iter));
        mapper, iter := ParseNumberMapper(iter);
        numberMapper := Some(mapper);
      } else {
        iter := iter[1..];
      }
    }
    if seedRanges.Some? && numberMapper.Some? {
      r := Some((seedRanges.value, numberMapper.value));
    } else {
      r := None;
    }
  }
}
