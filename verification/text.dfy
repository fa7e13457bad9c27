/** String primitives the project reader relies on, with the .NET library
    behaviour they stand for reduced to ordinal, ASCII-only rules:
    `String.Split(char)`, `StartsWith`/`EndsWith`, `int.TryParse`,
    `ToUpper` and `Path.GetFileNameWithoutExtension`. */
module Text {
  import opened Wrappers

  // ---------------------------------------------------------------------------
  // Prefixes and suffixes
  // ---------------------------------------------------------------------------

  /** Ordinal `s.StartsWith(prefix)`. */
  predicate StartsWith(s: string, prefix: string) {
    prefix <= s
  }

  /** Ordinal `s.EndsWith(suffix)`. */
  predicate EndsWith(s: string, suffix: string) {
    |suffix| <= |s| && s[|s| - |suffix|..] == suffix
  }

  lemma {:induction false} EndsWithConcat(a: string, b: string)
    ensures EndsWith(a + b, b)
  {
    assert (a + b)[|a + b| - |b|..] == b;
  }

  /** When two suffixes of one string are given, the shorter is a suffix of the longer. */
  lemma {:induction false} EndsWithBoth(s: string, a: string, b: string)
    requires EndsWith(s, a) && EndsWith(s, b) && |a| <= |b|
    ensures EndsWith(b, a)
  {
    assert b[|b| - |a|..] == s[|s| - |a|..];
  }

  // ---------------------------------------------------------------------------
  // Splitting on a separator character
  // ---------------------------------------------------------------------------

  /** Number of occurrences of `c` in `s`. */
  function Count(s: string, c: char): (n: nat)
    ensures n == 0 <==> c !in s
  {
    if |s| == 0 then 0 else (if s[0] == c then 1 else 0) + Count(s[1..], c)
  }

  /** The pieces put back together with `sep` between them (`String.Join`). */
  function Join(parts: seq<string>, sep: char): string {
    if |parts| == 0 then ""
    else if |parts| == 1 then parts[0]
    else parts[0] + [sep] + Join(parts[1..], sep)
  }

  /** `s.Split(sep)`: the text between consecutive separators, empty pieces
      included, so there is always one piece more than there are separators. */
  function Split(s: string, sep: char): (parts: seq<string>)
    ensures |parts| == Count(s, sep) + 1
    ensures forall i :: 0 <= i < |parts| ==> sep !in parts[i]
    ensures Join(parts, sep) == s
  {
    if |s| == 0 then [""]
    else
      var rest := Split(s[1..], sep);
      if s[0] == sep then
        assert ([""] + rest)[1..] == rest;
        [""] + rest
      else
        var parts := [[s[0]] + rest[0]] + rest[1..];
        assert parts[1..] == rest[1..];
        assert s == [s[0]] + s[1..];
        parts
  }

  /** A string without the separator is its own single piece. */
  lemma {:induction false} SplitNoSeparator(a: string, sep: char)
    requires sep !in a
    ensures Split(a, sep) == [a]
  {
    if |a| > 0 {
      SplitNoSeparator(a[1..], sep);
      assert [a[0]] + a[1..] == a;
    }
  }

  /** The text before the first separator is the first piece; the rest is split on its own. */
  lemma {:induction false} SplitAtFirst(a: string, sep: char, rest: string)
    requires sep !in a
    ensures Split(a + [sep] + rest, sep) == [a] + Split(rest, sep)
  {
    var s := a + [sep] + rest;
    if |a| == 0 {
      assert s[1..] == rest;
    } else {
      assert s[1..] == a[1..] + [sep] + rest;
      SplitAtFirst(a[1..], sep, rest);
      assert [a[0]] + a[1..] == a;
    }
  }

  /** Splitting undoes joining pieces that do not contain the separator. */
  lemma {:induction false} SplitJoin(parts: seq<string>, sep: char)
    requires |parts| >= 1
    requires forall i :: 0 <= i < |parts| ==> sep !in parts[i]
    ensures Split(Join(parts, sep), sep) == parts
  {
    if |parts| == 1 {
      SplitNoSeparator(parts[0], sep);
    } else {
      SplitJoin(parts[1..], sep);
      SplitAtFirst(parts[0], sep, Join(parts[1..], sep));
      assert [parts[0]] + parts[1..] == parts;
    }
  }

  /** Joining two non-empty runs of pieces puts one separator between their joins. */
  lemma {:induction false} JoinAppend(a: seq<string>, b: seq<string>, sep: char)
    requires |a| >= 1 && |b| >= 1
    ensures Join(a + b, sep) == Join(a, sep) + [sep] + Join(b, sep)
  {
    if |a| > 1 {
      JoinAppend(a[1..], b, sep);
      assert (a + b)[1..] == a[1..] + b;
    }
  }

  /** The pieces of two texts joined by the separator are the pieces of each, in order. */
  lemma {:induction false} SplitAppend(a: string, b: string, sep: char)
    ensures Split(a + [sep] + b, sep) == Split(a, sep) + Split(b, sep)
  {
    var pa, pb := Split(a, sep), Split(b, sep);
    JoinAppend(pa, pb, sep);
    assert forall i :: 0 <= i < |pa + pb| ==> sep !in (pa + pb)[i] by {
      forall i | 0 <= i < |pa + pb| ensures sep !in (pa + pb)[i] {
        if i >= |pa| { assert (pa + pb)[i] == pb[i - |pa|]; }
      }
    }
    SplitJoin(pa + pb, sep);
  }

  // ---------------------------------------------------------------------------
  // Decimal integers (int.TryParse restricted to plain ASCII digits)
  // ---------------------------------------------------------------------------

  /** `int.MaxValue`: the largest value an `int` out-parameter can receive. */
  const MaxInt32: int := 0x7FFF_FFFF

  predicate IsDigit(c: char) {
    '0' <= c <= '9'
  }

  function DigitValue(c: char): (d: nat)
    requires IsDigit(c)
    ensures d < 10
  {
    c as int - '0' as int
  }

  function DigitChar(d: nat): (c: char)
    requires d < 10
    ensures IsDigit(c) && DigitValue(c) == d
  {
    ('0' as int + d) as char
  }

  predicate AllDigits(s: string) {
    forall i :: 0 <= i < |s| ==> IsDigit(s[i])
  }

  function Pow10(n: nat): (p: nat)
    ensures p >= 1
  {
    if n == 0 then 1 else 10 * Pow10(n - 1)
  }

  /** Positional value of a digit string, most significant digit first. */
  function DecimalValue(s: string): nat
    requires AllDigits(s)
  {
    if |s| == 0 then 0 else DecimalValue(s[..|s| - 1]) * 10 + DigitValue(s[|s| - 1])
  }

  /** The leading digit weighs ten to the power of the digits after it. */
  lemma {:induction false} DecimalValueLeading(s: string)
    requires |s| > 0 && AllDigits(s)
    ensures DecimalValue(s) == DigitValue(s[0]) * Pow10(|s| - 1) + DecimalValue(s[1..])
  {
    if |s| > 1 {
      var init, tail := s[..|s| - 1], s[1..];
      DecimalValueLeading(init);
      assert init[1..] == tail[..|tail| - 1];
      assert init[0] == s[0] && tail[|tail| - 1] == s[|s| - 1];
      var a, p, b, c := DigitValue(s[0]), Pow10(|s| - 2), DecimalValue(init[1..]), DigitValue(s[|s| - 1]);
      assert DecimalValue(init) == a * p + b;
      assert DecimalValue(tail) == b * 10 + c;
      assert Pow10(|s| - 1) == 10 * p;
      ShiftDigit(a, p, b, c);
    } else {
      assert s[..0] == [];
    }
  }

  /** Shifting a number with a leading term one decimal place left. */
  lemma ShiftDigit(a: int, p: int, b: int, c: int)
    ensures (a * p + b) * 10 + c == a * (10 * p) + (b * 10 + c)
  {
  }

  /** Left-to-right digit accumulation as `int.TryParse` performs it, giving up
      on a non-digit and on the first partial value beyond `int.MaxValue`. */
  function Accumulate(s: string, acc: nat): Option<int>
    requires acc <= MaxInt32
  {
    if |s| == 0 then Some(acc)
    else if !IsDigit(s[0]) then None
    else
      var next := acc * 10 + DigitValue(s[0]);
      if next > MaxInt32 then None else Accumulate(s[1..], next)
  }

  lemma {:induction false} Regroup(acc: nat, d: nat, p: nat, rest: nat)
    ensures acc * (10 * p) + (d * p + rest) == (acc * 10 + d) * p + rest
  {
  }

  lemma {:induction false} MulAtLeast(a: nat, b: nat)
    requires b >= 1
    ensures a * b >= a
  {
  }

  lemma {:induction false} AccumulateValue(s: string, acc: nat)
    requires acc <= MaxInt32
    ensures Accumulate(s, acc) ==
      if AllDigits(s) && acc * Pow10(|s|) + DecimalValue(s) <= MaxInt32
      then Some(acc * Pow10(|s|) + DecimalValue(s))
      else None
  {
    if |s| > 0 && IsDigit(s[0]) {
      var next := acc * 10 + DigitValue(s[0]);
      var tail := s[1..];
      assert AllDigits(s) <==> AllDigits(tail) by {
        if AllDigits(tail) {
          forall i | 0 <= i < |s| ensures IsDigit(s[i]) {
            if i > 0 { assert s[i] == tail[i - 1]; }
          }
        }
      }
      if AllDigits(s) {
        DecimalValueLeading(s);
        assert Pow10(|s|) == 10 * Pow10(|tail|);
        Regroup(acc, DigitValue(s[0]), Pow10(|tail|), DecimalValue(tail));
        MulAtLeast(next, Pow10(|tail|));
      }
      if next <= MaxInt32 {
        AccumulateValue(tail, next);
      }
    }
  }

  /** `int.TryParse(s, out v)` on text made of ASCII digits only: it succeeds
      exactly on a non-empty digit string whose value fits in an `int`. */
  function ParseInt(s: string): (r: Option<int>)
    ensures r.Some? <==> |s| > 0 && AllDigits(s) && DecimalValue(s) <= MaxInt32
    ensures r.Some? ==> r.value == DecimalValue(s) && 0 <= r.value <= MaxInt32
  {
    if |s| == 0 then None
    else
      AccumulateValue(s, 0);
      Accumulate(s, 0)
  }

  /** Decimal rendering of a natural number without leading zeros. */
  function ShowNat(n: nat): (r: string)
    ensures |r| >= 1 && AllDigits(r) && DecimalValue(r) == n
  {
    if n < 10 then [DigitChar(n)]
    else
      var r := ShowNat(n / 10) + [DigitChar(n % 10)];
      assert r[..|r| - 1] == ShowNat(n / 10);
      r
  }

  // ---------------------------------------------------------------------------
  // Case folding
  // ---------------------------------------------------------------------------

  function UpperChar(c: char): char {
    if 'a' <= c <= 'z' then (c as int - 32) as char else c
  }

  function LowerChar(c: char): char
    requires 'A' <= c <= 'Z'
  {
    (c as int + 32) as char
  }

  /** `s.ToUpper()` on ASCII letters. */
  function ToUpper(s: string): (r: string)
    ensures |r| == |s|
    ensures forall i :: 0 <= i < |s| ==> r[i] == UpperChar(s[i])
  {
    if |s| == 0 then "" else [UpperChar(s[0])] + ToUpper(s[1..])
  }

  predicate IsUpperWord(w: string) {
    forall i :: 0 <= i < |w| ==> 'A' <= w[i] <= 'Z'
  }

  /** `s` spells the upper-case word `w` letter by letter, each letter in either case. */
  predicate SpellsIgnoringCase(s: string, w: string)
    requires IsUpperWord(w)
  {
    |s| == |w| && forall i :: 0 <= i < |s| ==> s[i] == w[i] || s[i] == LowerChar(w[i])
  }

  /** Comparing the upper-cased text with an upper-case word is a
      case-insensitive comparison with that word. */
  lemma {:induction false} ToUpperMatches(s: string, w: string)
    requires IsUpperWord(w)
    ensures ToUpper(s) == w <==> SpellsIgnoringCase(s, w)
  {
    var u := ToUpper(s);
    if u == w {
      forall i | 0 <= i < |s| ensures s[i] == w[i] || s[i] == LowerChar(w[i]) {
        assert UpperChar(s[i]) == w[i];
      }
    }
    if |s| == |w| && forall i :: 0 <= i < |s| ==> s[i] == w[i] || s[i] == LowerChar(w[i]) {
      forall i | 0 <= i < |s| ensures u[i] == w[i] {
        assert u[i] == UpperChar(s[i]);
      }
    }
  }

  // ---------------------------------------------------------------------------
  // File names
  // ---------------------------------------------------------------------------

  predicate IsDirectorySeparator(c: char) {
    c == '/' || c == '\\'
  }

  /** `Path.GetFileName`: the text after the last directory separator. */
  function FileName(path: string): (r: string)
    ensures forall i :: 0 <= i < |r| ==> !IsDirectorySeparator(r[i])
    ensures EndsWith(path, r)
    ensures |r| < |path| ==> IsDirectorySeparator(path[|path| - |r| - 1])
  {
    if |path| == 0 || IsDirectorySeparator(path[|path| - 1]) then ""
    else
      var r := FileName(path[..|path| - 1]);
      FileNameStep(path, r, r + [path[|path| - 1]]);
      r + [path[|path| - 1]]
  }

  /** A file name of all but the last character, extended by that
      non-separator character, is a file name of the whole path. */
  lemma FileNameStep(path: string, r: string, r': string)
    requires |path| > 0 && !IsDirectorySeparator(path[|path| - 1]) && r' == r + [path[|path| - 1]]
    requires forall i :: 0 <= i < |r| ==> !IsDirectorySeparator(r[i])
    requires EndsWith(path[..|path| - 1], r)
    requires |r| < |path| - 1 ==> IsDirectorySeparator(path[..|path| - 1][|path| - 1 - |r| - 1])
    ensures forall i :: 0 <= i < |r'| ==> !IsDirectorySeparator(r'[i])
    ensures EndsWith(path, r')
    ensures |r'| < |path| ==> IsDirectorySeparator(path[|path| - |r'| - 1])
  {
    var n, init, c := |path|, path[..|path| - 1], path[|path| - 1];
    forall i | 0 <= i < |r'| ensures !IsDirectorySeparator(r'[i]) {
      if i < |r| { assert r'[i] == r[i]; } else { assert r'[i] == c; }
    }
    assert path[n - |r'|..] == init[n - 1 - |r|..] + [c];
    if |r'| < n {
      assert path[n - |r'| - 1] == init[n - 1 - |r| - 1];
    }
  }

  /** Index of the last occurrence of `c` in `s`. */
  function LastIndexOf(s: string, c: char): (k: nat)
    requires c in s
    ensures k < |s| && s[k] == c && c !in s[k + 1..]
  {
    if s[|s| - 1] == c then |s| - 1
    else
      assert c in s[..|s| - 1] by {
        var j :| 0 <= j < |s| && s[j] == c;
        assert s[..|s| - 1][j] == c;
      }
      var k := LastIndexOf(s[..|s| - 1], c);
      assert s[k + 1..] == s[..|s| - 1][k + 1..] + [s[|s| - 1]];
      k
  }

  /** `Path.GetFileNameWithoutExtension`: the file name cut before its last '.'. */
  function FileNameWithoutExtension(path: string): (r: string)
    ensures r <= FileName(path)
    ensures '.' !in FileName(path) ==> r == FileName(path)
    ensures forall i :: 0 <= i < |r| ==> !IsDirectorySeparator(r[i])
  {
    var name := FileName(path);
    if '.' in name then name[..LastIndexOf(name, '.')] else name
  }
}
