/**
 * The calibration digits of 2023/day-1/src/main.rs: the first and the last
 * digit of a line, written either as a digit or spelled out ("one" to
 * "nine"), read by a scan from each end and joined into a two-digit number.
 */
module Calibration {
  import opened Wrappers
  import opened Chars

  /** The spelled-out digits, "one" first; word `k` stands for `k + 1`. */
  const DigitNames: seq<string> := ["one", "two", "three", "four", "five", "six", "seven", "eight", "nine"]

  // ---------------------------------------------------------------------------
  // get_digit_by_name

  /**
   * The first word, from word `k` on, that occurs somewhere in `slice`, as
   * the digit it spells.
   */
  function FirstNamed(slice: string, k: nat): (r: Option<nat>)
    requires k <= |DigitNames|
    ensures r.Some? ==> k < r.value <= 9
    decreases |DigitNames| - k
  {
    if k == |DigitNames| then None
    else if Contains(slice, DigitNames[k]) then Some(k + 1)
    else FirstNamed(slice, k + 1)
  }

  /** The word found occurs, and no word before it does; when none is found, no word occurs. */
  lemma {:induction false} FirstNamedOccurs(slice: string, k: nat)
    requires k <= |DigitNames|
    ensures var r := FirstNamed(slice, k);
      r.Some? ==> (Contains(slice, DigitNames[r.value - 1]) &&
        forall m | k <= m < r.value - 1 :: !Contains(slice, DigitNames[m]))
    ensures FirstNamed(slice, k).None? <==> forall m | k <= m < |DigitNames| :: !Contains(slice, DigitNames[m])
    decreases |DigitNames| - k
  {
    if k < |DigitNames| && !Contains(slice, DigitNames[k]) {
      FirstNamedOccurs(slice, k + 1);
    }
  }

  /**
   * `get_digit_by_name`: try the words in order and return the digit of the
   * first one that occurs anywhere in `slice`; None when none does.
   */
  method DigitByName(slice: string) returns (r: Option<nat>)
    ensures r == FirstNamed(slice, 0)
  {
    var k := 0;
    while k < |DigitNames|
      invariant k <= |DigitNames| && FirstNamed(slice, k) == FirstNamed(slice, 0)
    {
      if Contains(slice, DigitNames[k]) {
        return Some(k + 1);
      }
      k := k + 1;
    }
    return None;
  }

  // ---------------------------------------------------------------------------
  // The two scans of get_digits

  /** What the front scan reads: a digit, nothing, or a slice past the end (a panic). */
  datatype Reading = Digit(value: nat) | NoDigit | OutOfBounds

  /**
   * The front scan from position `i`: a digit character there is the digit;
   * otherwise the prefix that reaches one character past `i`
   * (`line[0..=i]` after `i += 1`) is searched for a word. At the last
   * character that prefix runs past the end.
   */
  function FrontFrom(line: string, i: nat): (r: Reading)
    requires i <= |line|
    ensures r.Digit? ==> r.value <= 9
    decreases |line| - i
  {
    if i == |line| then NoDigit
    else if IsDigit(line[i]) then Digit(DigitValue(line[i]))
    else if i + 2 > |line| then OutOfBounds
    else
      match FirstNamed(line[..i + 2], 0)
      case Some(d) => Digit(d)
      case None => FrontFrom(line, i + 1)
  }

  /**
   * The back scan after `j` characters from the end: a digit character at
   * `|line| - 1 - j` is the digit; otherwise the suffix from there is
   * searched for a word.
   */
  function BackFrom(line: string, j: nat): (r: Option<nat>)
    requires j <= |line|
    ensures r.Some? ==> r.value <= 9
    decreases |line| - j
  {
    if j == |line| then None
    else
      var idx := |line| - 1 - j;
      if IsDigit(line[idx]) then Some(DigitValue(line[idx]))
      else
        match FirstNamed(line[idx..], 0)
        case Some(d) => Some(d)
        case None => BackFrom(line, j + 1)
  }

  function FrontDigit(line: string): nat
    requires !FrontFrom(line, 0).OutOfBounds?
  {
    if FrontFrom(line, 0).Digit? then FrontFrom(line, 0).value else 0
  }

  function BackDigit(line: string): nat {
    if BackFrom(line, 0).Some? then BackFrom(line, 0).value else 0
  }

  /**
   * `format!("{}{}", ...).parse::<u32>().unwrap_or(0)` of the two digits, 0
   * standing in for a side that found none.
   */
  method JoinDigits(first: Option<nat>, second: Option<nat>) returns (value: nat)
    requires first.Some? ==> first.value < 10
    requires second.Some? ==> second.value < 10
    ensures value == 10 * (if first.Some? then first.value else 0) + (if second.Some? then second.value else 0)
  {
    var a := if first.Some? then first.value else 0;
    var b := if second.Some? then second.value else 0;
    var text := Render(a) + Render(b);
    assert text == [DigitChar(a), DigitChar(b)];
    assert text[..1] == [DigitChar(a)] && text[..1][..0] == [];
    assert ValueOf(text[..1]) == a;
    value := ValueOf(text);
  }

  /**
   * The front half of a round of `get_digits`: the character at `i` is a
   * digit, or the prefix reaching one past it names one, or the scan moves on.
   */
  method FrontRound(line: string, i: nat) returns (found: Option<nat>)
    requires i < |line| && !FrontFrom(line, i).OutOfBounds?
    ensures found.Some? ==> FrontFrom(line, i) == Digit(found.value)
    ensures found.None? ==> FrontFrom(line, i) == FrontFrom(line, i + 1)
  {
    var c := line[i];
    if IsDigit(c) {
      found := Some(DigitValue(c));
    } else {
      found := DigitByName(line[..i + 2]);
    }
  }

  /**
   * The back half of a round of `get_digits`: the character `j` places from
   * the end is a digit, or the suffix starting there names one, or the scan
   * moves on.
   */
  method BackRound(line: string, j: nat) returns (found: Option<nat>)
    requires j < |line|
    ensures found.Some? ==> BackFrom(line, j) == found
    ensures found.None? ==> BackFrom(line, j) == BackFrom(line, j + 1)
  {
    var idx := |line| - 1 - j;
    var c := line[idx];
    if IsDigit(c) {
      found := Some(DigitValue(c));
    } else {
      found := DigitByName(line[idx..]);
    }
  }

  /** An empty line has no digit at either end. */
  lemma EmptyLineDigits()
    ensures !FrontFrom([], 0).OutOfBounds?
    ensures 10 * FrontDigit([]) + BackDigit([]) == 0
  {
  }

  /** A line of digits contributes its first and its last digit. */
  lemma DigitLineDigits(line: string)
    requires line != [] && AllDigits(line)
    ensures !FrontFrom(line, 0).OutOfBounds?
    ensures FrontDigit(line) == DigitValue(line[0])
    ensures BackDigit(line) == DigitValue(line[|line| - 1])
  {
  }

  /** The front scan has read up to `i` and found `first`, or still finds what it would from `i`. */
  ghost predicate FrontScanned(line: string, first: Option<nat>, i: nat) {
    i <= |line| &&
    match first
    case None => FrontFrom(line, i) == FrontFrom(line, 0)
    case Some(d) => FrontFrom(line, 0) == Digit(d)
  }

  /** The back scan has read `j` characters and found `second`, or still finds what it would from there. */
  ghost predicate BackScanned(line: string, second: Option<nat>, j: nat) {
    j <= |line| &&
    match second
    case None => BackFrom(line, j) == BackFrom(line, 0)
    case Some(d) => BackFrom(line, 0) == second
  }

  lemma FrontAdvance(line: string, found: Option<nat>, i: nat)
    requires i < |line| && FrontScanned(line, None, i)
    requires found.Some? ==> FrontFrom(line, i) == Digit(found.value)
    requires found.None? ==> FrontFrom(line, i) == FrontFrom(line, i + 1)
    ensures FrontScanned(line, found, i + 1)
  {
  }

  lemma BackAdvance(line: string, found: Option<nat>, j: nat)
    requires j < |line| && BackScanned(line, None, j)
    requires found.Some? ==> BackFrom(line, j) == found
    requires found.None? ==> BackFrom(line, j) == BackFrom(line, j + 1)
    ensures BackScanned(line, found, j + 1)
  {
  }

  /**
   * `get_digits`: run the front and the back scan side by side until both
   * have found a digit or one has run out of line, then join the two digits
   * (0 for a side that found none) into a number. The front slice must stay
   * in bounds. A scan still looking has read at least as far as the other,
   * so neither stops the other early.
   */
  method GetDigits(line: string) returns (value: nat)
    requires !FrontFrom(line, 0).OutOfBounds?
    ensures value == 10 * FrontDigit(line) + BackDigit(line)
    ensures value <= 99
  {
    var first: Option<nat> := None;
    var second: Option<nat> := None;
    var i, j := 0, 0;
    while (first.None? || second.None?) && i != |line| && j != |line|
      invariant FrontScanned(line, first, i) && BackScanned(line, second, j)
      invariant first.None? ==> j <= i
      invariant second.None? ==> i <= j
      decreases 2 * |line| - i - j
    {
      if first.None? {
        var found := FrontRound(line, i);
        FrontAdvance(line, found, i);
        first, i := found, i + 1;
      }
      if second.None? {
        var found := BackRound(line, j);
        BackAdvance(line, found, j);
        second, j := found, j + 1;
      }
    }
    value := JoinDigits(first, second);
  }

  // ---------------------------------------------------------------------------
  // What the front scan finds

  /**
   * The first digit in reading order: the leftmost position holding a digit
   * character or ending a spelled-out digit.
   */
  function Leftmost(line: string, e: nat): (r: Option<nat>)
    requires e <= |line|
    ensures r.Some? ==> r.value <= 9
    decreases |line| - e
  {
    if e == |line| then None
    else if IsDigit(line[e]) then Some(DigitValue(line[e]))
    else
      match FirstNamed(line[..e + 1], 0)
      case Some(d) => Some(d)
      case None => Leftmost(line, e + 1)
  }

  /** Every word has at least three letters and ends in a letter. */
  lemma NameShape(m: nat)
    requires m < |DigitNames|
    ensures |DigitNames[m]| >= 3 && !IsDigit(DigitNames[m][|DigitNames[m]| - 1])
  {
  }

  /** No word fits in fewer than three characters. */
  lemma ShortHasNoName(s: string)
    requires |s| < 3
    ensures FirstNamed(s, 0) == None
  {
    if FirstNamed(s, 0).Some? {
      var m := FirstNamed(s, 0).value - 1;
      FirstNamedOccurs(s, 0);
      NameShape(m);
      assert false;
    }
  }

  /** A word that appears only once `c` is added ends in `c`, so `c` is no digit. */
  lemma NewNameEndsInLetter(p: string, c: char)
    requires FirstNamed(p, 0).None? && FirstNamed(p + [c], 0).Some?
    ensures !IsDigit(c)
  {
    var s := p + [c];
    FirstNamedOccurs(p, 0);
    FirstNamedOccurs(s, 0);
    var m := FirstNamed(s, 0).value - 1;
    var w := DigitNames[m];
    var k := ContainsWitness(s, w, 0);
    if k + |w| <= |p| {
      assert p[k..k + |w|] == s[k..k + |w|];
      ContainsAt(p, w, 0, k);
      assert false;
    }
    NameShape(m);
    OccursAtChar(s, w, k, |p|);
  }

  /**
   * The front scan finds the first digit in reading order, and runs past the
   * end exactly when there is none left to find: searching one character
   * ahead only finds a word one step before its last letter, which is no
   * digit, and at the last character the prefix one past it does not exist.
   */
  lemma {:induction false} FrontIsLeftmost(line: string, i: nat)
    requires i <= |line|
    requires i < |line| ==> FirstNamed(line[..i + 1], 0).None?
    ensures FrontFrom(line, i) ==
      match Leftmost(line, i)
      case Some(d) => Digit(d)
      case None => if i < |line| then OutOfBounds else NoDigit
    decreases |line| - i
  {
    if i < |line| && !IsDigit(line[i]) && i + 2 <= |line| {
      assert line[..i + 2] == line[..i + 1] + [line[i + 1]];
      if FirstNamed(line[..i + 2], 0).Some? {
        NewNameEndsInLetter(line[..i + 1], line[i + 1]);
      } else {
        FrontIsLeftmost(line, i + 1);
      }
    }
  }

  /**
   * What `get_digits` reads at the front of a line: the first digit in
   * reading order, or, on a non-empty line without one, a slice past the end.
   */
  lemma FrontReading(line: string)
    ensures FrontFrom(line, 0) ==
      match Leftmost(line, 0)
      case Some(d) => Digit(d)
      case None => if line != [] then OutOfBounds else NoDigit
  {
    if line != [] {
      ShortHasNoName(line[..1]);
    }
    FrontIsLeftmost(line, 0);
  }

  // ---------------------------------------------------------------------------
  // What the back scan finds

  /** The first word, from word `k` on, that starts at position `p` of `line`, as the digit it spells. */
  function NamedAt(line: string, p: nat, k: nat): (r: Option<nat>)
    requires k <= |DigitNames|
    ensures r.Some? ==> k < r.value <= 9 && OccursAt(line, DigitNames[r.value - 1], p)
    decreases |DigitNames| - k
  {
    if k == |DigitNames| then None
    else if OccursAt(line, DigitNames[k], p) then Some(k + 1)
    else NamedAt(line, p, k + 1)
  }

  /**
   * The last digit in reading order: the rightmost position before `e`
   * holding a digit character or starting a spelled-out digit.
   */
  function Rightmost(line: string, e: nat): (r: Option<nat>)
    requires e <= |line|
    ensures r.Some? ==> r.value <= 9
  {
    if e == 0 then None
    else if IsDigit(line[e - 1]) then Some(DigitValue(line[e - 1]))
    else
      match NamedAt(line, e - 1, 0)
      case Some(d) => Some(d)
      case None => Rightmost(line, e - 1)
  }

  /** A word starts at `p` of `line` iff it starts the suffix from `p`. */
  lemma {:induction false} NamedAtSuffix(line: string, p: nat, k: nat)
    requires p <= |line| && k <= |DigitNames|
    ensures NamedAt(line[p..], 0, k) == NamedAt(line, p, k)
    decreases |DigitNames| - k
  {
    if k < |DigitNames| {
      OccursAtSuffix(line, DigitNames[k], p);
      NamedAtSuffix(line, p, k + 1);
    }
  }

  lemma OccursAtSuffix(line: string, w: string, p: nat)
    requires p <= |line|
    ensures OccursAt(line[p..], w, 0) == OccursAt(line, w, p)
  {
    if p + |w| <= |line| {
      assert line[p..][0..|w|] == line[p..p + |w|];
    }
  }

  /**
   * When no word occurs after the first character of `s`, the words that
   * occur in `s` are exactly those that start it.
   */
  lemma {:induction false} SuffixNamedAtStart(s: string, k: nat)
    requires s != [] && k <= |DigitNames| && FirstNamed(s[1..], 0).None?
    ensures FirstNamed(s, k) == NamedAt(s, 0, k)
    decreases |DigitNames| - k
  {
    if k < |DigitNames| {
      var w := DigitNames[k];
      assert Contains(s, w) <==> OccursAt(s, w, 0) by {
        if Contains(s, w) {
          var q := ContainsWitness(s, w, 0);
          if q > 0 {
            assert s[1..][q - 1..q - 1 + |w|] == s[q..q + |w|];
            ContainsAt(s[1..], w, 0, q - 1);
            FirstNamedOccurs(s[1..], 0);
            assert false;
          }
        }
        if OccursAt(s, w, 0) {
          ContainsAt(s, w, 0, 0);
        }
      }
      SuffixNamedAtStart(s, k + 1);
    }
  }

  /**
   * The back scan finds the last digit in reading order: every suffix it
   * searched before held no word, so a word in the current suffix starts at
   * its first character.
   */
  lemma {:induction false} BackIsRightmost(line: string, j: nat)
    requires j <= |line| && FirstNamed(line[|line| - j..], 0).None?
    ensures BackFrom(line, j) == Rightmost(line, |line| - j)
    decreases |line| - j
  {
    if j < |line| {
      var idx := |line| - 1 - j;
      if !IsDigit(line[idx]) {
        var s := line[idx..];
        assert s[1..] == line[|line| - j..];
        SuffixNamedAtStart(s, 0);
        NamedAtSuffix(line, idx, 0);
        if FirstNamed(s, 0).None? {
          BackIsRightmost(line, j + 1);
        }
      }
    }
  }

  /** What `get_digits` reads at the back of a line: the last digit in reading order, if any. */
  lemma BackReading(line: string)
    ensures BackFrom(line, 0) == Rightmost(line, |line|)
  {
    ShortHasNoName(line[|line|..]);
    BackIsRightmost(line, 0);
  }

  /**
   * The value a line is evidently meant to have: its first and its last
   * digit in reading order, 0 standing in for a missing one.
   */
  function CalibrationValue(line: string): (value: nat)
    ensures value <= 99
  {
    10 * (if Leftmost(line, 0).Some? then Leftmost(line, 0).value else 0) +
      (if Rightmost(line, |line|).Some? then Rightmost(line, |line|).value else 0)
  }

  /**
   * Where `get_digits` stays in bounds it computes the calibration value; it
   * leaves bounds on exactly the non-empty lines without a digit.
   */
  lemma GetDigitsValue(line: string)
    ensures FrontFrom(line, 0).OutOfBounds? <==> line != [] && Leftmost(line, 0).None?
    ensures !FrontFrom(line, 0).OutOfBounds? ==> 10 * FrontDigit(line) + BackDigit(line) == CalibrationValue(line)
  {
    FrontReading(line);
    BackReading(line);
  }

  /** A line without any digit sends the front slice past the end, where reading order finds nothing. */
  lemma NoDigitOverruns()
    ensures FrontFrom("x", 0) == OutOfBounds
    ensures Leftmost("x", 0) == None && CalibrationValue("x") == 0
  {
    ShortHasNoName("x"[..1]);
  }
}
