/**
 * Character-level helpers shared by the puzzle lexers: ASCII digits, the
 * base-10 value of a digit run, its shortest rendering, and substring search.
 */
module Chars {
  import opened Wrappers

  lemma ConcatAssoc<T>(a: seq<T>, b: seq<T>, c: seq<T>)
    ensures a + b + c == a + (b + c)
  {
  }

  lemma EmptyConcat<T>(a: seq<T>)
    ensures [] + a == a
  {
  }

  /** Slicing a sequence with one element appended. */
  lemma SnocSlices<T>(b: seq<T>, x: T, p: nat)
    requires p <= |b|
    ensures (b + [x])[..p] == b[..p] && (b + [x])[p..] == b[p..] + [x]
  {
  }

  /** The slices that run to either end of a sequence. */
  lemma WholeSlices<T>(s: seq<T>)
    ensures s[..|s|] == s && s[|s|..] == []
  {
  }

  /** The two halves of a concatenation. */
  lemma AppendSlices<T>(a: seq<T>, b: seq<T>)
    ensures (a + b)[..|a|] == a && (a + b)[|a|..] == b
  {
  }

  /** A slice grown by the next element. */
  lemma SliceSnoc<T>(s: seq<T>, i: nat, j: nat)
    requires i <= j < |s|
    ensures s[i..j + 1] == s[i..j] + [s[j]]
  {
  }

  /** A suffix of a suffix is a suffix of the whole. */
  lemma SuffixSuffix<T>(s: seq<T>, i: nat, j: nat)
    requires i <= j <= |s|
    ensures s[i..][j - i..] == s[j..]
  {
  }

  /** A slice of a suffix is a slice of the whole. */
  lemma SuffixSlice<T>(s: seq<T>, i: nat, a: nat, e: nat)
    requires i <= a <= e <= |s|
    ensures s[i..][a - i..e - i] == s[a..e]
  {
  }

  predicate IsDigit(c: char) {
    '0' <= c <= '9'
  }

  /** ASCII letters; the Rust code asks `char::is_alphabetic`, which also admits non-ASCII letters. */
  predicate IsLetter(c: char) {
    'a' <= c <= 'z' || 'A' <= c <= 'Z'
  }

  function DigitValue(c: char): (d: nat)
    requires IsDigit(c)
    ensures d < 10
  {
    (c as int) - ('0' as int)
  }

  function DigitChar(d: nat): (c: char)
    requires d < 10
    ensures IsDigit(c) && DigitValue(c) == d
  {
    (('0' as int) + d) as char
  }

  predicate AllDigits(s: string) {
    forall k | 0 <= k < |s| :: IsDigit(s[k])
  }

  /** The base-10 value of a digit string, most significant digit first. */
  function ValueOf(s: string): nat
    requires AllDigits(s)
  {
    if s == [] then 0 else ValueOf(s[..|s| - 1]) * 10 + DigitValue(s[|s| - 1])
  }

  /** The shortest decimal rendering of `n`: digits only, and no leading zero. */
  function Render(n: nat): (r: string)
    ensures AllDigits(r) && r != []
    ensures r[0] == '0' ==> r == "0"
  {
    if n < 10 then [DigitChar(n)] else Render(n / 10) + [DigitChar(n % 10)]
  }

  /** Reading back a rendered number gives the number. */
  lemma {:induction false} ValueOfRender(n: nat)
    ensures ValueOf(Render(n)) == n
  {
    if n >= 10 {
      ValueOfRender(n / 10);
      var r := Render(n);
      assert r[..|r| - 1] == Render(n / 10);
    }
  }

  /** End of the maximal digit run that starts at `i`. */
  function RunEnd(s: string, i: nat): (j: nat)
    requires i <= |s|
    ensures i <= j <= |s|
    ensures forall k | i <= k < j :: IsDigit(s[k])
    ensures j == |s| || !IsDigit(s[j])
    decreases |s| - i
  {
    if i < |s| && IsDigit(s[i]) then RunEnd(s, i + 1) else i
  }

  /** The run reaches past every digit that directly follows `i`. */
  lemma {:induction false} RunEndCovers(s: string, i: nat, m: nat)
    requires i <= m <= |s| && forall k | i <= k < m :: IsDigit(s[k])
    ensures m <= RunEnd(s, i)
    decreases m - i
  {
    if i < m {
      RunEndCovers(s, i + 1, m);
    }
  }

  /** Digit runs do not depend on what precedes them. */
  lemma RunEndSuffix(s: string, i: nat, p: nat)
    requires i <= p <= |s|
    ensures RunEnd(s[i..], p - i) == RunEnd(s, p) - i
  {
    var t := s[i..];
    RunEndCovers(s, p, RunEnd(t, p - i) + i);
    RunEndCovers(t, p - i, RunEnd(s, p) - i);
  }

  /** A rendered number followed by a non-digit is read as one whole run. */
  lemma RunEndRender(n: nat, rest: string)
    requires rest == [] || !IsDigit(rest[0])
    ensures RunEnd(Render(n) + rest, 0) == |Render(n)|
  {
    var s := Render(n) + rest;
    RunEndCovers(s, 0, |Render(n)|);
    if rest != [] {
      assert s[|Render(n)|] == rest[0];
    }
  }

  lemma ValueOfSnoc(s: string, i: nat, k: nat)
    requires i <= k < |s| && AllDigits(s[i..k + 1])
    ensures AllDigits(s[i..k])
    ensures ValueOf(s[i..k + 1]) == ValueOf(s[i..k]) * 10 + DigitValue(s[k])
  {
    assert s[i..k + 1][..k - i] == s[i..k];
  }

  /**
   * `get_number` (and the identical `lex_number`): take the next character,
   * fail unless it is a digit, then extend with every following digit as
   * `number * 10 + digit`. Returns the number and where reading stopped.
   */
  method ReadNumber(s: string, i: nat) returns (n: Option<nat>, j: nat)
    requires i <= |s|
    ensures i == |s| ==> n == None && j == i
    ensures i < |s| && !IsDigit(s[i]) ==> n == None && j == i + 1
    ensures i < |s| && IsDigit(s[i]) ==>
              j == RunEnd(s, i) && AllDigits(s[i..j]) && n == Some(ValueOf(s[i..j]))
  {
    if i == |s| {
      return None, i;
    }
    if !IsDigit(s[i]) {
      return None, i + 1;
    }
    var number := DigitValue(s[i]);
    j := i + 1;
    assert s[i..j][..0] == [];
    while j < |s| && IsDigit(s[j])
      invariant i < j <= |s| && RunEnd(s, j) == RunEnd(s, i)
      invariant AllDigits(s[i..j]) && number == ValueOf(s[i..j])
      decreases |s| - j
    {
      assert AllDigits(s[i..j + 1]);
      ValueOfSnoc(s, i, j);
      number := number * 10 + DigitValue(s[j]);
      j := j + 1;
    }
    n := Some(number);
  }

  /** `str::contains`: `w` occurs somewhere in `s`. */
  predicate Contains(s: string, w: string) {
    ContainsFrom(s, w, 0)
  }

  /** `w` occurs in `s` at `k` or later, scanning left to right. */
  predicate ContainsFrom(s: string, w: string, k: nat)
    decreases |s| - k
  {
    k + |w| <= |s| && (s[k..k + |w|] == w || ContainsFrom(s, w, k + 1))
  }

  predicate OccursAt(s: string, w: string, k: nat) {
    k + |w| <= |s| && s[k..k + |w|] == w
  }

  /** An occurrence at `m` is found by a scan that starts at or before `m`. */
  lemma {:induction false} ContainsAt(s: string, w: string, k: nat, m: nat)
    requires k <= m && OccursAt(s, w, m)
    ensures ContainsFrom(s, w, k)
    decreases m - k
  {
    if k < m {
      ContainsAt(s, w, k + 1, m);
    }
  }

  /** A successful scan names where `w` occurs. */
  lemma {:induction false} ContainsWitness(s: string, w: string, k: nat) returns (m: nat)
    requires ContainsFrom(s, w, k)
    ensures k <= m && OccursAt(s, w, m)
    decreases |s| - k
  {
    if s[k..k + |w|] == w {
      m := k;
    } else {
      m := ContainsWitness(s, w, k + 1);
    }
  }

  lemma OccursAtChar(s: string, w: string, k: nat, p: nat)
    requires OccursAt(s, w, k) && k <= p < k + |w|
    ensures s[p] == w[p - k]
  {
    assert s[p] == s[k..k + |w|][p - k];
  }

  /** A separator that `w` never uses splits every occurrence of `w` to one side. */
  lemma NotContainsJoin(x: string, c: char, y: string, w: string)
    requires c !in w && !Contains(x, w) && !Contains(y, w)
    ensures !Contains(x + [c] + y, w)
  {
    var s := x + [c] + y;
    if Contains(s, w) {
      var k := ContainsWitness(s, w, 0);
      if k + |w| <= |x| {
        assert x[k..k + |w|] == s[k..k + |w|];
        ContainsAt(x, w, 0, k);
      } else if k > |x| {
        assert y[k - |x| - 1..k - |x| - 1 + |w|] == s[k..k + |w|];
        ContainsAt(y, w, 0, k - |x| - 1);
      } else {
        OccursAtChar(s, w, k, |x|);
        assert false;
      }
    }
  }
  /**
   * `str::split`: the pieces of `s` between occurrences of `sep`. There is
   * always one; the first is the prefix before the first `sep`, and a second
   * exists exactly when `sep` occurs.
   */
  function SplitOn(s: string, sep: char): (r: seq<string>)
    ensures |r| >= 1
    ensures |r[0]| <= |s| && r[0] == s[..|r[0]|] && sep !in r[0]
    ensures |r[0]| < |s| ==> s[|r[0]|] == sep
    ensures |r| >= 2 <==> sep in s
  {
    if s == [] then [[]]
    else
      var rest := SplitOn(s[1..], sep);
      if s[0] == sep then [[]] + rest
      else
        assert s[..|rest[0]| + 1] == [s[0]] + s[1..][..|rest[0]|];
        [[s[0]] + rest[0]] + rest[1..]
  }

  /** Text without the separator is one piece. */
  lemma {:induction false} SplitOnNone(x: string, sep: char)
    requires sep !in x
    ensures SplitOn(x, sep) == [x]
  {
    if x != [] {
      SplitOnNone(x[1..], sep);
      assert [x[0]] + x[1..] == x;
    }
  }

  /** The first separator ends the first piece. */
  lemma {:induction false} SplitOnJoin(x: string, sep: char, y: string)
    requires sep !in x
    ensures SplitOn(x + [sep] + y, sep) == [x] + SplitOn(y, sep)
  {
    if x == [] {
      assert ([sep] + y)[1..] == y;
    } else {
      var s := x + [sep] + y;
      assert s[1..] == x[1..] + [sep] + y;
      SplitOnJoin(x[1..], sep, y);
      assert [x[0]] + x[1..] == x;
    }
  }
}
