/**
 * The almanac lexer (day 5): the text becomes `Seeds`, `Number`,
 * `Map(source, target)` and `Newline` tokens. A lower-case letter starts a
 * word that runs over letters, spaces and dashes; a word holding "seeds" is
 * the `Seeds` token, a word holding "map" is a table header
 * `<source>-to-<target> map`; any other word, and every other character,
 * yields nothing.
 */
module AlmanacLexer {
  import opened Wrappers
  import opened Chars
  import opened Intervals
  import opened RangeMaps

  datatype Token = Seeds | Number(n: nat) | Map(source: ValueKind, target: ValueKind) | Newline

  /** The lower-case name `strum` derives for each category. */
  function KindName(k: ValueKind): string {
    match k
    case Seed => "seed"
    case Soil => "soil"
    case Fertilizer => "fertilizer"
    case Water => "water"
    case Light => "light"
    case Temperature => "temperature"
    case Humidity => "humidity"
    case Location => "location"
  }

  /** The eight categories, in declaration order. */
  const AllKinds := [Seed, Soil, Fertilizer, Water, Light, Temperature, Humidity, Location]

  /** `ValueKind::from_str`: exactly the eight lower-case names are accepted. */
  function KindNamed(s: string): (r: Option<ValueKind>)
    ensures r.Some? ==> KindName(r.value) == s
  {
    NamedAmongFacts(s, AllKinds);
    NamedAmong(s, AllKinds)
  }

  function NamedAmong(s: string, ks: seq<ValueKind>): Option<ValueKind> {
    if ks == [] then None
    else if KindName(ks[0]) == s then Some(ks[0])
    else NamedAmong(s, ks[1..])
  }

  lemma {:induction false} NamedAmongFacts(s: string, ks: seq<ValueKind>)
    ensures NamedAmong(s, ks).Some? ==> KindName(NamedAmong(s, ks).value) == s
    ensures NamedAmong(s, ks).None? ==> forall i | 0 <= i < |ks| :: KindName(ks[i]) != s
  {
    if ks != [] {
      NamedAmongFacts(s, ks[1..]);
      assert forall i | 1 <= i < |ks| :: ks[i] == ks[1..][i - 1];
    }
  }

  /** A name read back is the category with that name; no other text names one. */
  lemma KindNamedFacts(s: string)
    ensures KindNamed(s).Some? ==> KindName(KindNamed(s).value) == s
    ensures KindNamed(s).None? ==> forall k :: KindName(k) != s
  {
    NamedAmongFacts(s, AllKinds);
    if KindNamed(s).None? {
      forall k ensures KindName(k) != s {
        assert k == AllKinds[KindIndex(k)];
      }
    }
  }

  function KindIndex(k: ValueKind): (i: nat)
    ensures i < |AllKinds| && AllKinds[i] == k
  {
    match k
    case Seed => 0
    case Soil => 1
    case Fertilizer => 2
    case Water => 3
    case Light => 4
    case Temperature => 5
    case Humidity => 6
    case Location => 7
  }

  lemma KindNamedName(k: ValueKind)
    ensures KindNamed(KindName(k)) == Some(k)
  {
    KindNamedFacts(KindName(k));
    assert AllKinds[KindIndex(k)] == k;
    NamedAmongFacts(KindName(k), AllKinds);
  }

  predicate WordChar(c: char) {
    IsLetter(c) || c == ' ' || c == '-'
  }

  /** End of the run of word characters that starts at `i`. */
  function WordRun(s: string, i: nat): (j: nat)
    requires i <= |s|
    ensures i <= j <= |s|
    ensures forall k | i <= k < j :: WordChar(s[k])
    ensures j == |s| || !WordChar(s[j])
    decreases |s| - i
  {
    if i < |s| && WordChar(s[i]) then WordRun(s, i + 1) else i
  }

  /**
   * `lex_alphabetical`'s verdict on a word: "seeds" anywhere makes `Seeds`;
   * otherwise "map" anywhere makes a header, read from the text before the
   * first space as `<source>-<skipped>-<target>`; anything else is dropped.
   */
  function Classify(word: string): Option<Token> {
    if Contains(word, "seeds") then Some(Seeds)
    else if Contains(word, "map") then
      match HeaderNames(word)
      case None => None
      case Some((x, y)) =>
        match (KindNamed(x), KindNamed(y))
        case (Some(source), Some(target)) => Some(Map(source, target))
        case _ => None
    else None
  }

  /**
   * The first and third dash-separated parts of the text before the first
   * space, or None when there are fewer than three parts.
   */
  function HeaderNames(word: string): Option<(string, string)> {
    var parts := SplitOn(SplitOn(word, ' ')[0], '-');
    if |parts| < 3 then None else Some((parts[0], parts[2]))
  }

  function OptionSeq(t: Option<Token>): seq<Token> {
    if t.Some? then [t.value] else []
  }

  // ---------------------------------------------------------------------------
  // Scanning: the text cut into what each turn of `lex_contents` reads

  /**
   * What one turn of `lex_contents` reads: a word from a lower-case letter
   * on, a run of digits, or a line break. Other characters are skipped.
   */
  datatype Lexeme = Word(text: string) | Digits(text: string) | Break

  /** The lexemes of `s` from position `i` on, in reading order. */
  function ScanFrom(s: string, i: nat): seq<Lexeme>
    requires i <= |s|
    decreases |s| - i
  {
    if i == |s| then []
    else if 'a' <= s[i] <= 'z' then
      var j := WordRun(s, i + 1);
      [Word(s[i..j])] + ScanFrom(s, j)
    else if IsDigit(s[i]) then
      var j := RunEnd(s, i);
      [Digits(s[i..j])] + ScanFrom(s, j)
    else if s[i] == '\n' then [Break] + ScanFrom(s, i + 1)
    else ScanFrom(s, i + 1)
  }

  function Scan(s: string): seq<Lexeme> {
    ScanFrom(s, 0)
  }

  /** The token a lexeme pushes, if any. */
  function Verdict(l: Lexeme): seq<Token> {
    match l
    case Word(w) => OptionSeq(Classify(w))
    case Digits(d) => if AllDigits(d) then [Number(ValueOf(d))] else []
    case Break => [Newline]
  }

  function Verdicts(ls: seq<Lexeme>): seq<Token> {
    if ls == [] then [] else Verdict(ls[0]) + Verdicts(ls[1..])
  }

  /** The tokens `lex_contents` returns for `s`. */
  function Lex(s: string): seq<Token> {
    Verdicts(Scan(s))
  }

  lemma VerdictsCons(l: Lexeme, ls: seq<Lexeme>)
    ensures Verdicts([l] + ls) == Verdict(l) + Verdicts(ls)
  {
    assert ([l] + ls)[1..] == ls;
  }

  lemma {:induction false} VerdictsAppend(a: seq<Lexeme>, b: seq<Lexeme>)
    ensures Verdicts(a + b) == Verdicts(a) + Verdicts(b)
  {
    if a == [] {
      assert a + b == b;
    } else {
      assert (a + b)[0] == a[0];
      assert (a + b)[1..] == a[1..] + b;
      VerdictsAppend(a[1..], b);
    }
  }

  // ---------------------------------------------------------------------------
  // The scan only looks ahead: text before `i` does not matter

  lemma {:induction false} WordRunShift(p: string, s: string, i: nat)
    requires i <= |s|
    ensures WordRun(p + s, |p| + i) == |p| + WordRun(s, i)
    decreases |s| - i
  {
    if i < |s| {
      assert (p + s)[|p| + i] == s[i];
      WordRunShift(p, s, i + 1);
    }
  }

  lemma {:induction false} RunEndShift(p: string, s: string, i: nat)
    requires i <= |s|
    ensures RunEnd(p + s, |p| + i) == |p| + RunEnd(s, i)
    decreases |s| - i
  {
    if i < |s| {
      assert (p + s)[|p| + i] == s[i];
      RunEndShift(p, s, i + 1);
    }
  }

  /** One step of the scan at a letter. */
  lemma ScanWordStep(s: string, i: nat)
    requires i < |s| && 'a' <= s[i] <= 'z'
    ensures ScanFrom(s, i) == [Word(s[i..WordRun(s, i + 1)])] + ScanFrom(s, WordRun(s, i + 1))
  {
  }

  /** One step of the scan at a digit. */
  lemma ScanDigitStep(s: string, i: nat)
    requires i < |s| && IsDigit(s[i])
    ensures ScanFrom(s, i) == [Digits(s[i..RunEnd(s, i)])] + ScanFrom(s, RunEnd(s, i))
  {
  }

  /** One step of the scan at any other character. */
  lemma ScanOtherStep(s: string, i: nat)
    requires i < |s| && !('a' <= s[i] <= 'z') && !IsDigit(s[i])
    ensures ScanFrom(s, i) == (if s[i] == '\n' then [Break] else []) + ScanFrom(s, i + 1)
  {
  }

  lemma SliceShift(p: string, s: string, i: nat, j: nat)
    requires i <= j <= |s|
    ensures (p + s)[|p| + i..|p| + j] == s[i..j]
  {
  }

  lemma SlicePrefix(a: string, b: string, i: nat, j: nat)
    requires i <= j <= |a|
    ensures (a + b)[i..j] == a[i..j]
  {
  }

  lemma {:induction false} ScanShift(p: string, s: string, i: nat)
    requires i <= |s|
    ensures ScanFrom(p + s, |p| + i) == ScanFrom(s, i)
    decreases |s| - i, 1
  {
    if i < |s| {
      if 'a' <= s[i] <= 'z' {
        ScanShiftWord(p, s, i);
      } else if IsDigit(s[i]) {
        ScanShiftDigit(p, s, i);
      } else {
        ScanShiftOther(p, s, i);
      }
    }
  }

  lemma {:induction false} ScanShiftOther(p: string, s: string, i: nat)
    requires i < |s| && !('a' <= s[i] <= 'z') && !IsDigit(s[i])
    ensures ScanFrom(p + s, |p| + i) == ScanFrom(s, i)
    decreases |s| - i, 0
  {
    ScanShift(p, s, i + 1);
    var t := p + s;
    assert t[|p| + i] == s[i];
    ScanOtherStep(t, |p| + i);
    ScanOtherStep(s, i);
  }

  lemma {:induction false} ScanShiftDigit(p: string, s: string, i: nat)
    requires i < |s| && IsDigit(s[i])
    ensures ScanFrom(p + s, |p| + i) == ScanFrom(s, i)
    decreases |s| - i, 0
  {
    RunEndShift(p, s, i);
    ScanShift(p, s, RunEnd(s, i));
    ScanShiftDigitStep(p, s, i);
  }

  lemma ScanShiftDigitStep(p: string, s: string, i: nat)
    requires i < |s| && IsDigit(s[i])
    requires RunEnd(p + s, |p| + i) == |p| + RunEnd(s, i)
    requires ScanFrom(p + s, |p| + RunEnd(s, i)) == ScanFrom(s, RunEnd(s, i))
    ensures ScanFrom(p + s, |p| + i) == ScanFrom(s, i)
  {
    var t, j := p + s, RunEnd(s, i);
    assert ScanFrom(t, |p| + i) == [Digits(t[|p| + i..|p| + j])] + ScanFrom(t, |p| + j) by {
      assert t[|p| + i] == s[i];
      ScanDigitStep(t, |p| + i);
    }
    assert t[|p| + i..|p| + j] == s[i..j] by {
      SliceShift(p, s, i, j);
    }
    assert ScanFrom(s, i) == [Digits(s[i..j])] + ScanFrom(s, j) by {
      ScanDigitStep(s, i);
    }
  }

  lemma {:induction false} ScanShiftWord(p: string, s: string, i: nat)
    requires i < |s| && 'a' <= s[i] <= 'z'
    ensures ScanFrom(p + s, |p| + i) == ScanFrom(s, i)
    decreases |s| - i, 0
  {
    WordRunShift(p, s, i + 1);
    ScanShift(p, s, WordRun(s, i + 1));
    ScanShiftWordStep(p, s, i);
  }

  lemma ScanShiftWordStep(p: string, s: string, i: nat)
    requires i < |s| && 'a' <= s[i] <= 'z'
    requires WordRun(p + s, |p| + i + 1) == |p| + WordRun(s, i + 1)
    requires ScanFrom(p + s, |p| + WordRun(s, i + 1)) == ScanFrom(s, WordRun(s, i + 1))
    ensures ScanFrom(p + s, |p| + i) == ScanFrom(s, i)
  {
    var t, j := p + s, WordRun(s, i + 1);
    assert ScanFrom(t, |p| + i) == [Word(t[|p| + i..|p| + j])] + ScanFrom(t, |p| + j) by {
      assert t[|p| + i] == s[i];
      ScanWordStep(t, |p| + i);
    }
    assert t[|p| + i..|p| + j] == s[i..j] by {
      SliceShift(p, s, i, j);
    }
    assert ScanFrom(s, i) == [Word(s[i..j])] + ScanFrom(s, j) by {
      ScanWordStep(s, i);
    }
  }

  /** Scanning after a prefix is scanning the rest on its own. */
  lemma ScanAfter(p: string, s: string)
    ensures ScanFrom(p + s, |p|) == Scan(s)
  {
    ScanShift(p, s, 0);
  }

  // ---------------------------------------------------------------------------
  // A line break ends every lexeme: lines lex independently

  lemma {:induction false} WordRunStops(a: string, b: string, i: nat)
    requires i < |a| && a[|a| - 1] == '\n'
    ensures WordRun(a + b, i) == WordRun(a, i) < |a|
    decreases |a| - i
  {
    assert (a + b)[i] == a[i];
    if WordChar(a[i]) {
      WordRunStops(a, b, i + 1);
    }
  }

  lemma {:induction false} RunEndStops(a: string, b: string, i: nat)
    requires i < |a| && a[|a| - 1] == '\n'
    ensures RunEnd(a + b, i) == RunEnd(a, i) < |a|
    decreases |a| - i
  {
    assert (a + b)[i] == a[i];
    if IsDigit(a[i]) {
      RunEndStops(a, b, i + 1);
    }
  }

  lemma {:induction false} ScanSplitFrom(a: string, b: string, i: nat)
    requires i <= |a| && (a == [] || a[|a| - 1] == '\n')
    ensures ScanFrom(a + b, i) == ScanFrom(a, i) + Scan(b)
    decreases |a| - i
  {
    if i == |a| {
      ScanAfter(a, b);
    } else if 'a' <= a[i] <= 'z' {
      assert i + 1 < |a|;
      WordRunStops(a, b, i + 1);
      ScanSplitFrom(a, b, WordRun(a, i + 1));
      ScanSplitWordStep(a, b, i, Scan(b));
    } else if IsDigit(a[i]) {
      RunEndStops(a, b, i);
      ScanSplitFrom(a, b, RunEnd(a, i));
      ScanSplitDigitStep(a, b, i, Scan(b));
    } else {
      ScanSplitFrom(a, b, i + 1);
      ScanSplitOtherStep(a, b, i, Scan(b));
    }
  }

  lemma ScanSplitOtherStep(a: string, b: string, i: nat, tail: seq<Lexeme>)
    requires i < |a| && !('a' <= a[i] <= 'z') && !IsDigit(a[i])
    requires ScanFrom(a + b, i + 1) == ScanFrom(a, i + 1) + tail
    ensures ScanFrom(a + b, i) == ScanFrom(a, i) + tail
  {
    assert (a + b)[i] == a[i];
    ScanOtherStep(a + b, i);
    ScanOtherStep(a, i);
  }

  lemma ScanSplitWordStep(a: string, b: string, i: nat, tail: seq<Lexeme>)
    requires i < |a| && 'a' <= a[i] <= 'z'
    requires WordRun(a + b, i + 1) == WordRun(a, i + 1)
    requires ScanFrom(a + b, WordRun(a, i + 1)) == ScanFrom(a, WordRun(a, i + 1)) + tail
    ensures ScanFrom(a + b, i) == ScanFrom(a, i) + tail
  {
    var t, j := a + b, WordRun(a, i + 1);
    assert t[i] == a[i];
    ScanWordStep(t, i);
    ScanWordStep(a, i);
    SlicePrefix(a, b, i, j);
  }

  lemma ScanSplitDigitStep(a: string, b: string, i: nat, tail: seq<Lexeme>)
    requires i < |a| && IsDigit(a[i])
    requires RunEnd(a + b, i) == RunEnd(a, i)
    requires ScanFrom(a + b, RunEnd(a, i)) == ScanFrom(a, RunEnd(a, i)) + tail
    ensures ScanFrom(a + b, i) == ScanFrom(a, i) + tail
  {
    var t, j := a + b, RunEnd(a, i);
    assert t[i] == a[i];
    ScanDigitStep(t, i);
    ScanDigitStep(a, i);
    SlicePrefix(a, b, i, j);
  }

  /** Text that ends with a line break lexes apart from what follows it. */
  lemma LexSplit(a: string, b: string)
    requires a == [] || a[|a| - 1] == '\n'
    ensures Lex(a + b) == Lex(a) + Lex(b)
  {
    ScanSplitFrom(a, b, 0);
    VerdictsAppend(Scan(a), Scan(b));
  }

  // ---------------------------------------------------------------------------
  // Scanning the lines of an almanac

  lemma ScanNumberFirst(x: nat, rest: string)
    requires rest == [] || !IsDigit(rest[0])
    ensures Scan(Render(x) + rest) == [Digits(Render(x))] + Scan(rest)
  {
    var s := Render(x) + rest;
    assert s[0] == Render(x)[0];
    ScanDigitStep(s, 0);
    RunEndRender(x, rest);
    assert s[0..|Render(x)|] == Render(x);
    ScanAfter(Render(x), rest);
  }

  lemma ScanSkip(c: char, rest: string)
    requires !('a' <= c <= 'z') && !IsDigit(c) && c != '\n'
    ensures Scan([c] + rest) == Scan(rest)
  {
    ScanOtherStep([c] + rest, 0);
    ScanAfter([c], rest);
  }

  lemma ScanNewline(rest: string)
    ensures Scan("\n" + rest) == [Break] + Scan(rest)
  {
    ScanOtherStep("\n" + rest, 0);
    ScanAfter("\n", rest);
  }

  /** ` <n>` followed by a space, a line break or nothing. */
  lemma ScanSpaceNumber(x: nat, tail: string)
    requires tail == [] || !IsDigit(tail[0])
    ensures Scan(" " + Render(x) + tail) == [Digits(Render(x))] + Scan(tail)
  {
    ScanNumberFirst(x, tail);
    assert " " + Render(x) + tail == [' '] + (Render(x) + tail);
    ScanSkip(' ', Render(x) + tail);
  }

  /** A list of numbers written as ` 79 14 55`. */
  function NumbersText(xs: seq<nat>): string {
    if xs == [] then "" else " " + Render(xs[0]) + NumbersText(xs[1..])
  }

  function NumberLexemes(xs: seq<nat>): seq<Lexeme> {
    if xs == [] then [] else [Digits(Render(xs[0]))] + NumberLexemes(xs[1..])
  }

  /** Numbers text followed by a non-digit does not start with a digit. */
  lemma NumbersTextStart(xs: seq<nat>, rest: string)
    requires rest == [] || !IsDigit(rest[0])
    ensures var s := NumbersText(xs) + rest; s == [] || !IsDigit(s[0])
  {
    if xs != [] {
      assert (NumbersText(xs) + rest)[0] == ' ';
    }
  }

  lemma {:induction false} ScanNumbers(xs: seq<nat>, rest: string)
    requires rest == [] || !IsDigit(rest[0])
    ensures Scan(NumbersText(xs) + rest) == NumberLexemes(xs) + Scan(rest)
  {
    if xs == [] {
      assert NumbersText(xs) == [];
      EmptyConcat(rest);
    } else {
      var tail := NumbersText(xs[1..]) + rest;
      ScanNumbers(xs[1..], rest);
      NumbersTextStart(xs[1..], rest);
      ScanSpaceNumber(xs[0], tail);
      ConcatAssoc(" " + Render(xs[0]), NumbersText(xs[1..]), rest);
    }
  }

  /** The word run from `i` stops exactly at `m`. */
  lemma {:induction false} WordRunExact(s: string, i: nat, m: nat)
    requires i <= m < |s| && (forall k | i <= k < m :: WordChar(s[k])) && !WordChar(s[m])
    ensures WordRun(s, i) == m
    decreases m - i
  {
    if i < m {
      WordRunExact(s, i + 1, m);
    }
  }

  /** A word followed by a colon is one lexeme; the colon is skipped. */
  lemma ScanWord(w: string, rest: string)
    requires w != [] && 'a' <= w[0] <= 'z'
    requires forall k | 0 <= k < |w| :: WordChar(w[k])
    ensures Scan(w + ":" + rest) == [Word(w)] + Scan(rest)
  {
    var s := w + ":" + rest;
    assert s[|w|] == ':';
    WordRunExact(s, 1, |w|);
    assert s[0..|w|] == w;
    ScanWordStep(s, 0);
    ScanOtherStep(s, |w|);
    assert s == (w + ":") + rest;
    ScanAfter(w + ":", rest);
  }

  /** The first line of an almanac: `seeds: 79 14 55 13`. */
  function SeedsLine(xs: seq<nat>): string {
    "seeds:" + NumbersText(xs) + "\n"
  }

  lemma ScanSeedsLine(xs: seq<nat>, rest: string)
    ensures Scan(SeedsLine(xs) + rest) == [Word("seeds")] + NumberLexemes(xs) + [Break] + Scan(rest)
  {
    var tail := NumbersText(xs) + ("\n" + rest);
    assert SeedsLine(xs) + rest == "seeds" + ":" + tail;
    ScanWord("seeds", tail);
    ScanNumbers(xs, "\n" + rest);
    ScanNewline(rest);
  }

  /** The header word of a table: `<source>-to-<target> map`. */
  function HeaderWord(a: ValueKind, b: ValueKind): string {
    KindName(a) + ['-'] + "to" + ['-'] + KindName(b) + [' '] + "map"
  }

  lemma NameLetters(k: ValueKind)
    ensures |KindName(k)| >= 4
    ensures forall i | 0 <= i < |KindName(k)| :: 'a' <= KindName(k)[i] <= 'z'
  {
  }

  lemma NameNoSeeds(k: ValueKind)
    ensures !Contains(KindName(k), "seeds")
  {
    var n := KindName(k);
    if Contains(n, "seeds") {
      var j := ContainsWitness(n, "seeds", 0);
      SeedsLetters(n, j);
      assert false;
    }
  }

  lemma SeedsLetters(s: string, j: nat)
    requires OccursAt(s, "seeds", j)
    ensures s[j + 1] == 'e' && s[j + 2] == 'e'
  {
    OccursAtChar(s, "seeds", j, j + 1);
    OccursAtChar(s, "seeds", j, j + 2);
  }

  /** "seeds" holds no dash or space, so it could only sit inside one of the words. */
  lemma HeaderNoSeeds(a: ValueKind, b: ValueKind)
    ensures !Contains(HeaderWord(a, b), "seeds")
  {
    var na, nb := KindName(a), KindName(b);
    NameNoSeeds(a);
    NameNoSeeds(b);
    NotContainsJoin(na, '-', "to", "seeds");
    NotContainsJoin(na + ['-'] + "to", '-', nb, "seeds");
    NotContainsJoin(na + ['-'] + "to" + ['-'] + nb, ' ', "map", "seeds");
  }
  lemma HeaderWordChars(a: ValueKind, b: ValueKind)
    ensures 'a' <= HeaderWord(a, b)[0] <= 'z'
    ensures forall k | 0 <= k < |HeaderWord(a, b)| :: WordChar(HeaderWord(a, b)[k])
  {
    NameLetters(a);
    NameLetters(b);
    var w, na, nb := HeaderWord(a, b), KindName(a), KindName(b);
    forall k | 0 <= k < |w| ensures WordChar(w[k]) {
      if k < |na| {
        assert w[k] == na[k];
      } else if |na| + 4 <= k < |na| + 4 + |nb| {
        assert w[k] == nb[k - |na| - 4];
      }
    }
  }

  lemma HeaderHasNoSpace(x: string, y: string)
    requires ' ' !in x && ' ' !in y
    ensures ' ' !in x + ['-'] + ("to" + ['-'] + y)
  {
    var head := x + ['-'] + ("to" + ['-'] + y);
    forall k | 0 <= k < |head| ensures head[k] != ' ' {
      if k < |x| {
        assert head[k] == x[k];
      } else if |x| + 4 <= k {
        assert head[k] == y[k - |x| - 4];
      }
    }
  }

  /** The categories of a header are the pieces around its dashes. */
  lemma HeaderPieces(x: string, y: string)
    requires '-' !in x && '-' !in y
    ensures SplitOn(x + ['-'] + ("to" + ['-'] + y), '-') == [x, "to", y]
  {
    SplitOnNone(y, '-');
    SplitOnJoin("to", '-', y);
    SplitOnJoin(x, '-', "to" + ['-'] + y);
  }

  /** `x-to-y map` splits back into `x` and `y` when neither holds a dash or a space. */
  lemma HeaderNamesOf(x: string, y: string)
    requires '-' !in x && ' ' !in x && '-' !in y && ' ' !in y
    ensures HeaderNames(x + ['-'] + "to" + ['-'] + y + [' '] + "map") == Some((x, y))
  {
    var head := x + ['-'] + ("to" + ['-'] + y);
    assert x + ['-'] + "to" + ['-'] + y + [' '] + "map" == head + [' '] + "map";
    HeaderHasNoSpace(x, y);
    SplitOnJoin(head, ' ', "map");
    HeaderPieces(x, y);
  }

  lemma NameSeparators(k: ValueKind)
    ensures '-' !in KindName(k) && ' ' !in KindName(k)
  {
  }

  /** A header over any two category names is read back as the categories they name. */
  lemma ClassifyHeaderOf(x: string, y: string, a: ValueKind, b: ValueKind)
    requires '-' !in x && ' ' !in x && '-' !in y && ' ' !in y
    requires KindNamed(x) == Some(a) && KindNamed(y) == Some(b)
    requires !Contains(x + ['-'] + "to" + ['-'] + y + [' '] + "map", "seeds")
    ensures Classify(x + ['-'] + "to" + ['-'] + y + [' '] + "map") == Some(Map(a, b))
  {
    var w := x + ['-'] + "to" + ['-'] + y + [' '] + "map";
    assert w[|w| - 3..] == "map";
    ContainsAt(w, "map", 0, |w| - 3);
    HeaderNamesOf(x, y);
  }

  /** The header word names its two categories, read back by `Classify`. */
  lemma ClassifyHeader(a: ValueKind, b: ValueKind)
    ensures Classify(HeaderWord(a, b)) == Some(Map(a, b))
  {
    HeaderNoSeeds(a, b);
    NameSeparators(a);
    NameSeparators(b);
    KindNamedName(a);
    KindNamedName(b);
    ClassifyHeaderOf(KindName(a), KindName(b), a, b);
  }

  // ---------------------------------------------------------------------------
  // Rule lines, tables and whole almanacs

  /** A table as the almanac lists it: its two categories and its rules in order. */
  datatype Table = Table(source: ValueKind, target: ValueKind, rules: seq<RangePair>)

  /** A rule the text can carry: both ranges well formed and of one length. */
  predicate Encodable(p: RangePair) {
    p.source.Valid() && p.target.Valid() && p.target.Length() == p.source.Length()
  }

  /** A rule line `<target start> <source start> <length>`. */
  function RuleLine(p: RangePair): string {
    Render(p.target.start) + " " + Render(p.source.start) + " " + Render(p.source.Length()) + "\n"
  }

  function RuleLexemes(p: RangePair): seq<Lexeme> {
    [Digits(Render(p.target.start)), Digits(Render(p.source.start)), Digits(Render(p.source.Length())), Break]
  }

  lemma ScanRuleLine(p: RangePair, rest: string)
    ensures Scan(RuleLine(p) + rest) == RuleLexemes(p) + Scan(rest)
  {
    var t3 := "\n" + rest;
    var t2 := " " + Render(p.source.Length()) + t3;
    var t1 := " " + Render(p.source.start) + t2;
    assert RuleLine(p) + rest == Render(p.target.start) + t1;
    ScanNumberFirst(p.target.start, t1);
    ScanSpaceNumber(p.source.start, t2);
    ScanSpaceNumber(p.source.Length(), t3);
    ScanNewline(rest);
  }

  function RulesText(ps: seq<RangePair>): string {
    if ps == [] then "" else RuleLine(ps[0]) + RulesText(ps[1..])
  }

  function RulesLexemes(ps: seq<RangePair>): seq<Lexeme> {
    if ps == [] then [] else RuleLexemes(ps[0]) + RulesLexemes(ps[1..])
  }

  /** Two pieces that each scan on their own, ahead of any rest, scan together. */
  lemma ScanChain(x: string, y: string, rest: string, lx: seq<Lexeme>, ly: seq<Lexeme>)
    requires Scan(x + (y + rest)) == lx + Scan(y + rest)
    requires Scan(y + rest) == ly + Scan(rest)
    ensures Scan(x + y + rest) == lx + ly + Scan(rest)
  {
    assert x + y + rest == x + (y + rest);
  }

  lemma {:induction false} ScanRules(ps: seq<RangePair>, rest: string)
    ensures Scan(RulesText(ps) + rest) == RulesLexemes(ps) + Scan(rest)
  {
    if ps == [] {
      assert RulesText(ps) + rest == rest;
    } else {
      ScanRules(ps[1..], rest);
      ScanRuleLine(ps[0], RulesText(ps[1..]) + rest);
      ScanChain(RuleLine(ps[0]), RulesText(ps[1..]), rest, RuleLexemes(ps[0]), RulesLexemes(ps[1..]));
    }
  }

  /** A blank line, the header line, then the rule lines. */
  function TableText(t: Table): string {
    "\n" + HeaderWord(t.source, t.target) + ":\n" + RulesText(t.rules)
  }

  function TableLexemes(t: Table): seq<Lexeme> {
    [Break, Word(HeaderWord(t.source, t.target)), Break] + RulesLexemes(t.rules)
  }

  /** The table text regrouped the way it is scanned: blank line, header, rules. */
  lemma TableTextParts(t: Table)
    ensures TableText(t) == "\n" + (HeaderWord(t.source, t.target) + ":" + ("\n" + RulesText(t.rules)))
  {
  }

  /** A blank line, a header word with its colon, then rule lines. */
  lemma ScanTableOf(w: string, rs: string, rl: seq<Lexeme>, rest: string)
    requires w != [] && 'a' <= w[0] <= 'z'
    requires forall k | 0 <= k < |w| :: WordChar(w[k])
    requires Scan(rs + rest) == rl + Scan(rest)
    ensures Scan("\n" + (w + ":" + ("\n" + rs)) + rest) == [Break] + ([Word(w)] + ([Break] + rl)) + Scan(rest)
  {
    ScanNewline(rs + rest);
    ScanChain("\n", rs, rest, [Break], rl);
    ScanWord(w, "\n" + rs + rest);
    ScanChain(w + ":", "\n" + rs, rest, [Word(w)], [Break] + rl);
    ScanNewline(w + ":" + ("\n" + rs) + rest);
    ScanChain("\n", w + ":" + ("\n" + rs), rest, [Break], [Word(w)] + ([Break] + rl));
  }

  lemma ScanTable(t: Table, rest: string)
    ensures Scan(TableText(t) + rest) == TableLexemes(t) + Scan(rest)
  {
    var w, rs := HeaderWord(t.source, t.target), RulesText(t.rules);
    var rl := RulesLexemes(t.rules);
    HeaderWordChars(t.source, t.target);
    ScanRules(t.rules, rest);
    ScanTableOf(w, rs, rl, rest);
    TableTextParts(t);
    assert [Break] + ([Word(w)] + ([Break] + rl)) == TableLexemes(t);
  }

  function TablesText(ts: seq<Table>): string {
    if ts == [] then "" else TableText(ts[0]) + TablesText(ts[1..])
  }

  function TablesLexemes(ts: seq<Table>): seq<Lexeme> {
    if ts == [] then [] else TableLexemes(ts[0]) + TablesLexemes(ts[1..])
  }

  lemma {:induction false} ScanTables(ts: seq<Table>, rest: string)
    ensures Scan(TablesText(ts) + rest) == TablesLexemes(ts) + Scan(rest)
  {
    if ts == [] {
      assert TablesText(ts) + rest == rest;
    } else {
      ScanTables(ts[1..], rest);
      ScanTable(ts[0], TablesText(ts[1..]) + rest);
      ScanChain(TableText(ts[0]), TablesText(ts[1..]), rest, TableLexemes(ts[0]), TablesLexemes(ts[1..]));
    }
  }

  /** An almanac: the seeds line, then each table after a blank line. */
  function AlmanacText(seeds: seq<nat>, ts: seq<Table>): string {
    SeedsLine(seeds) + TablesText(ts)
  }

  // ---------------------------------------------------------------------------
  // The tokens of an almanac

  function NumberTokens(xs: seq<nat>): (r: seq<Token>)
    ensures |r| == |xs| && forall k | 0 <= k < |xs| :: r[k] == Number(xs[k])
  {
    if xs == [] then [] else [Number(xs[0])] + NumberTokens(xs[1..])
  }

  function RuleTokens(p: RangePair): seq<Token> {
    [Number(p.target.start), Number(p.source.start), Number(p.source.Length()), Newline]
  }

  function RulesTokens(ps: seq<RangePair>): seq<Token> {
    if ps == [] then [] else RuleTokens(ps[0]) + RulesTokens(ps[1..])
  }

  function TableTokens(t: Table): seq<Token> {
    [Newline, Map(t.source, t.target), Newline] + RulesTokens(t.rules)
  }

  function TablesTokens(ts: seq<Table>): seq<Token> {
    if ts == [] then [] else TableTokens(ts[0]) + TablesTokens(ts[1..])
  }

  /** A rendered number reads back as its own `Number` token. */
  lemma VerdictRender(x: nat)
    ensures Verdict(Digits(Render(x))) == [Number(x)]
  {
    ValueOfRender(x);
  }

  lemma {:induction false} VerdictsNumbers(xs: seq<nat>)
    ensures Verdicts(NumberLexemes(xs)) == NumberTokens(xs)
  {
    if xs != [] {
      VerdictsNumbers(xs[1..]);
      VerdictRender(xs[0]);
      VerdictsCons(Digits(Render(xs[0])), NumberLexemes(xs[1..]));
    }
  }

  lemma VerdictsRule(p: RangePair)
    ensures Verdicts(RuleLexemes(p)) == RuleTokens(p)
  {
    var a, b, c := Digits(Render(p.target.start)), Digits(Render(p.source.start)), Digits(Render(p.source.Length()));
    VerdictRender(p.target.start);
    VerdictRender(p.source.start);
    VerdictRender(p.source.Length());
    VerdictsCons(Break, []);
    VerdictsCons(c, [Break]);
    VerdictsCons(b, [c, Break]);
    VerdictsCons(a, [b, c, Break]);
  }

  lemma {:induction false} VerdictsRules(ps: seq<RangePair>)
    ensures Verdicts(RulesLexemes(ps)) == RulesTokens(ps)
  {
    if ps != [] {
      VerdictsRules(ps[1..]);
      VerdictsRule(ps[0]);
      VerdictsAppend(RuleLexemes(ps[0]), RulesLexemes(ps[1..]));
    }
  }

  /** The header line of a table reads as its `Map` token between line breaks. */
  lemma VerdictsHeader(a: ValueKind, b: ValueKind)
    ensures Verdicts([Break, Word(HeaderWord(a, b)), Break]) == [Newline, Map(a, b), Newline]
  {
    ClassifyHeader(a, b);
    VerdictsLine(Word(HeaderWord(a, b)), Map(a, b));
  }

  /** A lexeme that reads as one token, between two line breaks. */
  lemma VerdictsLine(w: Lexeme, t: Token)
    requires Verdict(w) == [t]
    ensures Verdicts([Break, w, Break]) == [Newline, t, Newline]
  {
    VerdictsCons(Break, []);
    VerdictsCons(w, [Break]);
    VerdictsCons(Break, [w, Break]);
  }

  lemma VerdictsTable(t: Table)
    ensures Verdicts(TableLexemes(t)) == TableTokens(t)
  {
    VerdictsHeader(t.source, t.target);
    VerdictsRules(t.rules);
    var w := Word(HeaderWord(t.source, t.target));
    VerdictsAppend([Break, w, Break], RulesLexemes(t.rules));
  }

  lemma {:induction false} VerdictsTables(ts: seq<Table>)
    ensures Verdicts(TablesLexemes(ts)) == TablesTokens(ts)
  {
    if ts != [] {
      VerdictsTables(ts[1..]);
      VerdictsTable(ts[0]);
      VerdictsAppend(TableLexemes(ts[0]), TablesLexemes(ts[1..]));
    }
  }

  /** The lexemes of an almanac: the seeds line's, then each table's. */
  lemma ScanAlmanac(seeds: seq<nat>, ts: seq<Table>)
    ensures Scan(AlmanacText(seeds, ts)) == SeedsLexemes(seeds) + TablesLexemes(ts)
  {
    ScanSeedsLine(seeds, TablesText(ts));
    ScanTables(ts, []);
    assert TablesText(ts) + [] == TablesText(ts);
    assert Scan([]) == [];
  }

  function SeedsLexemes(seeds: seq<nat>): seq<Lexeme> {
    [Word("seeds")] + NumberLexemes(seeds) + [Break]
  }

  lemma VerdictsSeeds(seeds: seq<nat>)
    ensures Verdicts(SeedsLexemes(seeds)) == [Seeds] + NumberTokens(seeds) + [Newline]
  {
    VerdictsAppend([Word("seeds")], NumberLexemes(seeds) + [Break]);
    VerdictsAppend(NumberLexemes(seeds), [Break]);
    ConcatAssoc([Word("seeds")], NumberLexemes(seeds), [Break]);
    ContainsAt("seeds", "seeds", 0, 0);
    assert Classify("seeds") == Some(Seeds);
    VerdictsNumbers(seeds);
  }

  /** The tokens of an almanac: the seeds line's, then each table's. */
  lemma LexAlmanac(seeds: seq<nat>, ts: seq<Table>)
    ensures Lex(AlmanacText(seeds, ts)) == [Seeds] + NumberTokens(seeds) + [Newline] + TablesTokens(ts)
  {
    ScanAlmanac(seeds, ts);
    VerdictsAppend(SeedsLexemes(seeds), TablesLexemes(ts));
    VerdictsSeeds(seeds);
    VerdictsTables(ts);
  }

  // ---------------------------------------------------------------------------
  // The lexer as the source runs it: one pass over the characters

  /**
   * `lex_alphabetical`: take the character at `i`, then every following
   * letter, space or dash, and classify the word. Returns where it stopped.
   */
  method LexAlphabetical(s: string, i: nat) returns (token: Option<Token>, j: nat)
    requires i <= |s|
    ensures i == |s| ==> token == None && j == i
    ensures i < |s| ==> j == WordRun(s, i + 1) && token == Classify(s[i..j])
  {
    if i == |s| {
      return None, i;
    }
    var word := [s[i]];
    j := i + 1;
    while j < |s| && WordChar(s[j])
      invariant i < j <= |s| && word == s[i..j]
      invariant WordRun(s, j) == WordRun(s, i + 1)
      decreases |s| - j
    {
      word := word + [s[j]];
      j := j + 1;
    }
    token := Classify(word);
  }

  /** `lex_number`: the digit run at `i` as a `Number` token. */
  method LexNumber(s: string, i: nat) returns (token: Option<Token>, j: nat)
    requires i <= |s|
    ensures i == |s| ==> token == None && j == i
    ensures i < |s| && !IsDigit(s[i]) ==> token == None && j == i + 1
    ensures i < |s| && IsDigit(s[i]) ==>
              j == RunEnd(s, i) && token == Some(Number(ValueOf(s[i..j])))
  {
    var n;
    n, j := ReadNumber(s, i);
    token := if n.Some? then Some(Number(n.value)) else None;
  }

  /** The tokens from a letter on: the word's verdict, then the rest. */
  lemma LexWordTurn(s: string, i: nat)
    requires i < |s| && 'a' <= s[i] <= 'z'
    ensures Verdicts(ScanFrom(s, i)) ==
            OptionSeq(Classify(s[i..WordRun(s, i + 1)])) + Verdicts(ScanFrom(s, WordRun(s, i + 1)))
  {
    var j := WordRun(s, i + 1);
    ScanWordStep(s, i);
    VerdictsCons(Word(s[i..j]), ScanFrom(s, j));
  }

  /** The tokens from a digit on: the run's number, then the rest. */
  lemma LexDigitTurn(s: string, i: nat)
    requires i < |s| && IsDigit(s[i])
    ensures AllDigits(s[i..RunEnd(s, i)])
    ensures Verdicts(ScanFrom(s, i)) ==
            [Number(ValueOf(s[i..RunEnd(s, i)]))] + Verdicts(ScanFrom(s, RunEnd(s, i)))
  {
    var j := RunEnd(s, i);
    ScanDigitStep(s, i);
    VerdictsCons(Digits(s[i..j]), ScanFrom(s, j));
  }

  /** The tokens from any other character on: a `Newline` for a line break, then the rest. */
  lemma LexOtherTurn(s: string, i: nat)
    requires i < |s| && !('a' <= s[i] <= 'z') && !IsDigit(s[i])
    ensures Verdicts(ScanFrom(s, i)) ==
            (if s[i] == '\n' then [Newline] else []) + Verdicts(ScanFrom(s, i + 1))
  {
    ScanOtherStep(s, i);
    if s[i] == '\n' {
      VerdictsCons(Break, ScanFrom(s, i + 1));
    }
  }

  /**
   * One turn of `lex_contents`' loop: dispatch on the character at `i`, push
   * what it yields and move past it.
   */
  method LexToken(contents: string, i: nat) returns (emitted: seq<Token>, j: nat)
    requires i < |contents|
    ensures i < j <= |contents|
    ensures Verdicts(ScanFrom(contents, i)) == emitted + Verdicts(ScanFrom(contents, j))
  {
    var c := contents[i];
    emitted := [];
    if 'a' <= c <= 'z' {
      var token;
      token, j := LexAlphabetical(contents, i);
      LexWordTurn(contents, i);
      if token.Some? {
        emitted := [token.value];
      }
    } else if '0' <= c <= '9' {
      var token;
      token, j := LexNumber(contents, i);
      LexDigitTurn(contents, i);
      emitted := [token.value];
    } else {
      LexOtherTurn(contents, i);
      if c == '\n' {
        emitted := [Newline];
      }
      j := i + 1;
    }
  }

  /** `lex_contents`: the whole text, character by character. */
  method LexContents(contents: string) returns (tokens: seq<Token>)
    ensures tokens == Lex(contents)
  {
    tokens := [];
    var i := 0;
    while i < |contents|
      invariant i <= |contents|
      invariant tokens + Verdicts(ScanFrom(contents, i)) == Lex(contents)
      decreases |contents| - i
    {
      var emitted, j := LexToken(contents, i);
      assert tokens + (emitted + Verdicts(ScanFrom(contents, j))) ==
             tokens + emitted + Verdicts(ScanFrom(contents, j));
      tokens := tokens + emitted;
      i := j;
    }
  }
}
