/**
 * The scanner that finds the compiler version in a kernel banner
 * (nvidia-geforce-340.107/gcc-version-check.c).
 *
 * What it should find is stated without a scanner: the leftmost substring made of digits, a dot, digits and
 * one character that is not a digit.  Numbers are unbounded here.
 */
module VersionScan {

  datatype Version = NotFound | Found(major: nat, minor: nat)

  datatype State = Before | InMajor | Dot | InMinor

  predicate IsDigit(c: char) {
    '0' <= c <= '9'
  }

  function DigitValue(c: char): nat
    requires IsDigit(c)
  {
    c as int - '0' as int
  }

  /** A non-empty run of digits between two positions. */
  predicate DigitRun(s: string, lo: nat, hi: nat) {
    lo < hi <= |s| && forall k :: lo <= k < hi ==> IsDigit(s[k])
  }

  /** The decimal number that the digits between two positions spell. */
  function Decimal(s: string, lo: nat, hi: nat): nat
    requires hi <= |s| && forall k :: lo <= k < hi ==> IsDigit(s[k])
  {
    if hi <= lo then 0 else 10 * Decimal(s, lo, hi - 1) + DigitValue(s[hi - 1])
  }

  /** A version starts at `lo`, has its dot at `dot`, and ends just before the non-digit at `hi`. */
  predicate VersionAt(s: string, lo: nat, dot: nat, hi: nat) {
    && DigitRun(s, lo, dot)
    && dot < |s| && s[dot] == '.'
    && DigitRun(s, dot + 1, hi)
    && hi < |s| && !IsDigit(s[hi])
  }

  ghost predicate NoneBefore(s: string, limit: nat) {
    forall lo: nat, dot: nat, hi: nat :: VersionAt(s, lo, dot, hi) ==> limit <= lo
  }

  ghost predicate Leftmost(s: string, lo: nat, dot: nat, hi: nat) {
    VersionAt(s, lo, dot, hi) && NoneBefore(s, lo)
  }

  /** What the scanner is for. */
  ghost function Specified(s: string): Version {
    if lo: nat, dot: nat, hi: nat :| Leftmost(s, lo, dot, hi)
    then Found(Decimal(s, lo, dot), Decimal(s, dot + 1, hi))
    else NotFound
  }

  /** The start of a version fixes its dot and its end. */
  lemma StartFixesVersion(s: string, lo: nat, dot: nat, hi: nat, dot': nat, hi': nat)
    requires VersionAt(s, lo, dot, hi) && VersionAt(s, lo, dot', hi')
    ensures dot == dot' && hi == hi'
  {
    assert !IsDigit(s[dot]) && !IsDigit(s[dot']);
  }

  /** Hence there is one leftmost version, and what it spells is what is specified. */
  lemma LeftmostIsSpecified(s: string, lo: nat, dot: nat, hi: nat)
    requires Leftmost(s, lo, dot, hi)
    ensures Specified(s) == Found(Decimal(s, lo, dot), Decimal(s, dot + 1, hi))
  {
    forall lo': nat, dot': nat, hi': nat | Leftmost(s, lo', dot', hi')
      ensures lo' == lo && dot' == dot && hi' == hi
    {
      StartFixesVersion(s, lo, dot, hi, dot', hi');
    }
  }

  /** Where there is a version there is a leftmost one. */
  lemma {:induction false} SomeLeftmost(s: string, lo: nat, dot: nat, hi: nat)
    requires VersionAt(s, lo, dot, hi)
    ensures exists lo': nat, dot': nat, hi': nat :: Leftmost(s, lo', dot', hi')
    decreases lo
  {
    if NoneBefore(s, lo) {
      assert Leftmost(s, lo, dot, hi);
    } else {
      var lo1: nat, dot1: nat, hi1: nat :| VersionAt(s, lo1, dot1, hi1) && lo1 < lo;
      SomeLeftmost(s, lo1, dot1, hi1);
    }
  }

  /** Nothing is found exactly when no such substring exists. */
  lemma NotFoundIffNone(s: string)
    ensures Specified(s) == NotFound <==> !exists lo: nat, dot: nat, hi: nat :: VersionAt(s, lo, dot, hi)
  {
    if lo: nat, dot: nat, hi: nat :| VersionAt(s, lo, dot, hi) {
      SomeLeftmost(s, lo, dot, hi);
    }
  }

  /** The leftmost version takes whole numbers: no digit stands next to either end of its two runs. */
  lemma LeftmostTakesWholeNumbers(s: string, lo: nat, dot: nat, hi: nat)
    requires Leftmost(s, lo, dot, hi)
    ensures lo > 0 ==> !IsDigit(s[lo - 1])
    ensures !IsDigit(s[dot]) && !IsDigit(s[hi])
  {
    if lo > 0 && IsDigit(s[lo - 1]) {
      assert VersionAt(s, lo - 1, dot, hi);
      assert false;
    }
  }

  /** A run of digits that is not followed by dot, digits, non-digit holds no start of a version. */
  lemma RunHoldsNoStart(s: string, start: nat, stop: nat)
    requires DigitRun(s, start, stop) && NoneBefore(s, start)
    requires stop < |s| ==> !IsDigit(s[stop])
    requires forall hi: nat :: !VersionAt(s, start, stop, hi)
    ensures NoneBefore(s, stop)
  {
    forall lo: nat, dot: nat, hi: nat | VersionAt(s, lo, dot, hi)
      ensures stop <= lo
    {
      if lo < stop {
        assert dot == stop by {
          assert !IsDigit(s[dot]);
        }
        assert VersionAt(s, start, stop, hi);
      }
    }
  }

  /** A position that holds no digit starts no version. */
  lemma NonDigitStartsNone(s: string, pos: nat)
    requires pos < |s| && !IsDigit(s[pos]) && NoneBefore(s, pos)
    ensures NoneBefore(s, pos + 1)
  {
    forall lo: nat, dot: nat, hi: nat | VersionAt(s, lo, dot, hi)
      ensures pos + 1 <= lo
    {
      assert IsDigit(s[lo]);
    }
  }

  lemma NoneLeft(s: string)
    requires NoneBefore(s, |s|)
    ensures Specified(s) == NotFound
  {
    if lo: nat, dot: nat, hi: nat :| VersionAt(s, lo, dot, hi) {
      assert false;
    }
  }

  /** One pass with four states and no backing up finds what is specified. */
  method ParseVersionString(s: string) returns (r: Version)
    ensures r == Specified(s)
  {
    var state, major, minor, pos := Before, 0, 0, 0;
    ghost var start, dot := 0, 0;
    while pos < |s|
      invariant 0 <= start <= dot <= pos <= |s|
      invariant state == Before ==> NoneBefore(s, pos)
      invariant state != Before ==> NoneBefore(s, start)
      invariant state == InMajor ==> DigitRun(s, start, pos) && major == Decimal(s, start, pos)
      invariant state == Dot || state == InMinor ==>
                  DigitRun(s, start, dot) && dot < pos && s[dot] == '.' && major == Decimal(s, start, dot)
      invariant state == Dot ==> dot + 1 == pos
      invariant state == InMinor ==> DigitRun(s, dot + 1, pos) && minor == Decimal(s, dot + 1, pos)
    {
      var c := s[pos];
      match state {
        case Before =>
          if IsDigit(c) {
            state := InMajor;
            major := DigitValue(c);
            start, dot := pos, pos;
          } else {
            NonDigitStartsNone(s, pos);
            state, major, minor := Before, 0, 0;
          }
        case InMajor =>
          if IsDigit(c) {
            state := InMajor;
            major := major * 10 + DigitValue(c);
          } else if c == '.' {
            state := Dot;
            dot := pos;
          } else {
            RunHoldsNoStart(s, start, pos);
            NonDigitStartsNone(s, pos);
            state, major, minor := Before, 0, 0;
          }
        case Dot =>
          if IsDigit(c) {
            state := InMinor;
            minor := DigitValue(c);
          } else {
            RunHoldsNoStart(s, start, dot);
            NonDigitStartsNone(s, dot);
            NonDigitStartsNone(s, pos);
            state, major, minor := Before, 0, 0;
          }
        case InMinor =>
          if IsDigit(c) {
            state := InMinor;
            minor := minor * 10 + DigitValue(c);
          } else {
            LeftmostIsSpecified(s, start, dot, pos);
            return Found(major, minor);
          }
      }
      pos := pos + 1;
    }
    UnfinishedIsNone(s, state, start, dot);
    return NotFound;
  }

  /** Text that ends inside a candidate holds no version. */
  lemma UnfinishedIsNone(s: string, state: State, start: nat, dot: nat)
    requires NoneBefore(s, if state == Before then |s| else start)
    requires state == InMajor ==> DigitRun(s, start, |s|)
    requires state == Dot ==> dot + 1 == |s| && DigitRun(s, start, dot) && s[dot] == '.'
    requires state == InMinor ==>
               DigitRun(s, start, dot) && DigitRun(s, dot + 1, |s|) && s[dot] == '.'
    ensures Specified(s) == NotFound
  {
    match state {
      case Before =>
      case InMajor => RunHoldsNoStart(s, start, |s|);
      case Dot =>
        RunHoldsNoStart(s, start, dot);
        NonDigitStartsNone(s, dot);
      case InMinor =>
        RunHoldsNoStart(s, start, dot);
        NonDigitStartsNone(s, dot);
        RunHoldsNoStart(s, dot + 1, |s|);
    }
    NoneLeft(s);
  }

  /** The decimal text of a number. */
  function Digits(n: nat): (t: string)
    ensures |t| > 0 && forall k :: 0 <= k < |t| ==> IsDigit(t[k])
  {
    var last := [('0' as int + n % 10) as char];
    if n < 10 then last else Digits(n / 10) + last
  }

  /** Reading back the decimal text of a number gives the number, wherever the text stands. */
  lemma {:induction false} DigitsReadBack(s: string, lo: nat, hi: nat, n: nat)
    requires lo <= hi <= |s| && s[lo..hi] == Digits(n)
    ensures DigitRun(s, lo, hi)
    ensures Decimal(s, lo, hi) == n
    decreases n
  {
    forall k | lo <= k < hi
      ensures IsDigit(s[k])
    {
      assert s[k] == Digits(n)[k - lo];
    }
    assert s[hi - 1] == Digits(n)[|Digits(n)| - 1];
    if n < 10 {
      assert Decimal(s, lo, lo) == 0;
    } else {
      assert s[lo..hi - 1] == Digits(n)[..|Digits(n)| - 1] == Digits(n / 10);
      DigitsReadBack(s, lo, hi - 1, n / 10);
    }
  }

  /** A printed version that no digit precedes is what is specified. */
  lemma PrintedIsSpecified(s: string, lo: nat, dot: nat, hi: nat, major: nat, minor: nat)
    requires lo <= dot < hi < |s| && s[dot] == '.' && !IsDigit(s[hi])
    requires forall k :: 0 <= k < lo ==> !IsDigit(s[k])
    requires s[lo..dot] == Digits(major) && s[dot + 1..hi] == Digits(minor)
    ensures Specified(s) == Found(major, minor)
  {
    DigitsReadBack(s, lo, dot, major);
    DigitsReadBack(s, dot + 1, hi, minor);
    forall lo': nat, dot': nat, hi': nat | VersionAt(s, lo', dot', hi')
      ensures lo <= lo'
    {
      assert IsDigit(s[lo']);
    }
    assert Leftmost(s, lo, dot, hi);
    LeftmostIsSpecified(s, lo, dot, hi);
  }

  /** Printing a version after text without digits and scanning gives the same version back. */
  lemma PrintThenParse(prefix: string, major: nat, minor: nat, end: char, rest: string)
    requires forall k :: 0 <= k < |prefix| ==> !IsDigit(prefix[k])
    requires !IsDigit(end)
    ensures Specified(prefix + (Digits(major) + ("." + (Digits(minor) + ([end] + rest))))) == Found(major, minor)
  {
    var tail := [end] + rest;
    var afterDot := Digits(minor) + tail;
    var afterPrefix := Digits(major) + ("." + afterDot);
    var s := prefix + afterPrefix;
    var dot := |prefix| + |Digits(major)|;
    var hi := dot + 1 + |Digits(minor)|;
    assert s[|prefix|..] == afterPrefix;
    assert s[|prefix|..dot] == Digits(major);
    assert s[dot..] == "." + afterDot;
    assert s[dot + 1..] == afterDot;
    assert s[dot + 1..hi] == Digits(minor);
    assert s[hi] == tail[0];
    PrintedIsSpecified(s, |prefix|, dot, hi, major, minor);
  }
}
