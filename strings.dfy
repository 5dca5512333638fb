/**
 * The string operations the dashboard relies on, with the meaning they have
 * in JavaScript and Python: `Number.toString`, `padStart(2, '0')`, `find`,
 * `in`, `split(sep)[1]`, `startswith`, `endswith`, `strip` and `join`; and
 * `lastIndexOf`, with which an instance id is read back into its parts.
 */
module Strings {

  // ---------------------------------------------------------------------
  // Decimal digits

  predicate IsDigit(c: char) { '0' <= c <= '9' }

  predicate AllDigits(s: string) { forall i :: 0 <= i < |s| ==> IsDigit(s[i]) }

  function DigitChar(d: nat): (c: char)
    requires d < 10
    ensures IsDigit(c) && c as int - '0' as int == d
  {
    ('0' as int + d) as char
  }

  function DigitValue(c: char): (d: nat)
    requires IsDigit(c)
    ensures d < 10
  {
    c as int - '0' as int
  }

  /** Decimal rendering of a natural number, as `Number.prototype.toString()` and Python's `str` give it. */
  function NatToString(n: nat): (s: string)
    ensures |s| >= 1 && AllDigits(s)
    ensures |s| == 1 <==> n < 10
    ensures n >= 10 ==> s[0] != '0'
    decreases n
  {
    if n < 10 then [DigitChar(n)] else NatToString(n / 10) + [DigitChar(n % 10)]
  }

  /** The number a string of decimal digits denotes (leading zeros allowed). */
  function DigitsValue(s: string): nat
    requires AllDigits(s)
  {
    if s == [] then 0 else DigitsValue(s[..|s| - 1]) * 10 + DigitValue(s[|s| - 1])
  }

  /** Reading back the decimal rendering of `n` gives `n`. */
  lemma {:induction false} NatToStringRoundTrip(n: nat)
    ensures DigitsValue(NatToString(n)) == n
    decreases n
  {
    var s := NatToString(n);
    if n < 10 {
      assert s[..0] == [];
    } else {
      NatToStringRoundTrip(n / 10);
      assert s[..|s| - 1] == NatToString(n / 10);
    }
  }

  /** `n.toString().padStart(2, '0')` for a clock field below 100: always two digits, denoting `n`. */
  function PadStart2(n: nat): (s: string)
    requires n < 100
    ensures |s| == 2 && AllDigits(s) && DigitsValue(s) == n
  {
    var t := NatToString(n);
    NatToStringRoundTrip(n);
    if |t| < 2 then
      var s := "0" + t;
      assert s[..1] == "0" && s[..1][..0] == [];
      assert t[..0] == [];
      s
    else
      t
  }

  // ---------------------------------------------------------------------
  // Searching

  /** `p` occurs in `s` starting at index `i`. */
  predicate OccursAt(s: string, p: string, i: nat) {
    i + |p| <= |s| && s[i..i + |p|] == p
  }

  /** Python's `p in s` and JavaScript's `s.includes(p)`. */
  predicate Contains(s: string, p: string) {
    exists i: nat | i <= |s| :: OccursAt(s, p, i)
  }

  /** The first index at or after `from` where `p` occurs, or -1. */
  function FindFrom(s: string, p: string, from: nat): (r: int)
    ensures r == -1 || (from <= r && OccursAt(s, p, r))
    ensures forall j: nat :: from <= j && (r == -1 || j < r) ==> !OccursAt(s, p, j)
    decreases |s| - from
  {
    if from + |p| > |s| then -1
    else if s[from..from + |p|] == p then from
    else FindFrom(s, p, from + 1)
  }

  /** Python's `s.find(p)`: the lowest index where `p` occurs, or -1. */
  function Find(s: string, p: string): (r: int)
    ensures r == -1 <==> !Contains(s, p)
    ensures r != -1 ==> 0 <= r && OccursAt(s, p, r)
    ensures forall j: nat :: r != -1 && j < r ==> !OccursAt(s, p, j)
  {
    FindFrom(s, p, 0)
  }

  /** An occurrence with no earlier one is what `find` returns. */
  lemma FindIs(s: string, p: string, k: nat)
    requires OccursAt(s, p, k)
    requires forall j: nat :: j < k ==> !OccursAt(s, p, j)
    ensures Find(s, p) == k
  {
  }

  /** Occurrences survive putting text in front of or behind a string. */
  lemma OccursInConcat(a: string, b: string, p: string, i: nat)
    ensures OccursAt(a, p, i) ==> OccursAt(a + b, p, i)
    ensures OccursAt(b, p, i) ==> OccursAt(a + b, p, |a| + i)
  {
    if OccursAt(a, p, i) {
      assert (a + b)[i..i + |p|] == a[i..i + |p|];
    }
    if OccursAt(b, p, i) {
      assert (a + b)[|a| + i..|a| + i + |p|] == b[i..i + |p|];
    }
  }

  /** An occurrence inside a slice of `s` is an occurrence in `s`. */
  lemma OccursInSlice(s: string, lo: nat, hi: nat, p: string, i: nat)
    requires lo <= hi <= |s|
    ensures OccursAt(s[lo..hi], p, i) ==> OccursAt(s, p, lo + i)
  {
    if OccursAt(s[lo..hi], p, i) {
      forall k | 0 <= k < |p| ensures s[lo + i + k] == p[k] {
        assert p[k] == s[lo..hi][i..i + |p|][k];
      }
      assert s[lo + i..lo + i + |p|] == p;
    }
  }

  /** Every slice of `s` is contained in `s`. */
  lemma SliceContained(s: string, lo: nat, hi: nat)
    requires lo <= hi <= |s|
    ensures Contains(s, s[lo..hi])
  {
    assert OccursAt(s, s[lo..hi], lo);
  }

  /** Being contained is transitive. */
  lemma {:induction false} ContainsTrans(s: string, t: string, u: string)
    requires Contains(s, t) && Contains(t, u)
    ensures Contains(s, u)
  {
    var i: nat :| i <= |s| && OccursAt(s, t, i);
    var j: nat :| j <= |t| && OccursAt(t, u, j);
    assert i + |t| <= |s|;
    assert s[i..i + |t|] == t;
    OccursInSlice(s, i, i + |t|, u, j);
  }

  /** Python's `s.startswith(p)`. */
  predicate StartsWith(s: string, p: string) {
    |p| <= |s| && s[..|p|] == p
  }

  /** Python's `s.endswith(p)`. */
  predicate EndsWith(s: string, p: string) {
    |p| <= |s| && s[|s| - |p|..] == p
  }

  /**
   * Python's `s.split(sep)[1]` for a string that contains `sep`: the text
   * between the first and the second occurrence of `sep`, or everything after
   * the first one when there is no second. The piece starts right after the
   * first `sep` and runs up to the next place where `sep` begins (so no `sep`
   * starts inside it, not even one reaching past its end) or to the end.
   */
  function SplitSecond(s: string, sep: string): (piece: string)
    requires |sep| > 0 && Contains(s, sep)
    ensures !Contains(piece, sep)
    ensures Contains(s, piece)
    ensures Find(s, sep) + |sep| <= |s|
    ensures var rest := s[Find(s, sep) + |sep|..];
      && |piece| <= |rest| && piece == rest[..|piece|]
      && (|piece| == |rest| || OccursAt(rest, sep, |piece|))
      && forall j: nat :: j < |piece| ==> !OccursAt(rest, sep, j)
  {
    var start := Find(s, sep) + |sep|;
    var rest := s[start..];
    var end := Find(rest, sep);
    var piece := if end == -1 then rest else rest[..end];
    SplitSecondFacts(s, sep, start, end);
    piece
  }

  lemma SplitSecondFacts(s: string, sep: string, start: nat, end: int)
    requires |sep| > 0 && start <= |s| && end == Find(s[start..], sep)
    ensures var piece := if end == -1 then s[start..] else s[start..][..end];
      !Contains(piece, sep) && Contains(s, piece)
  {
    var rest := s[start..];
    var piece := if end == -1 then rest else rest[..end];
    forall i: nat ensures !OccursAt(piece, sep, i) {
      if end != -1 {
        OccursInSlice(rest, 0, end, sep, i);
      }
    }
    if end == -1 {
      SliceContained(s, start, |s|);
    } else {
      assert piece == s[start..start + end];
      SliceContained(s, start, start + end);
    }
  }

  // ---------------------------------------------------------------------
  // Whitespace

  /** Python's `str.isspace()` for one character. */
  predicate IsSpace(c: char) {
    c == ' ' || '\t' <= c <= '\r' || '\U{1C}' <= c <= '\U{1F}' || c == '\U{85}' || c == '\U{A0}'
    || c == '\U{1680}' || '\U{2000}' <= c <= '\U{200A}' || c == '\U{2028}' || c == '\U{2029}'
    || c == '\U{202F}' || c == '\U{205F}' || c == '\U{3000}'
  }

  function TrimStart(s: string): (r: string)
    ensures |r| <= |s| && r == s[|s| - |r|..]
    ensures forall i :: 0 <= i < |s| - |r| ==> IsSpace(s[i])
    ensures r == [] || !IsSpace(r[0])
  {
    if s != [] && IsSpace(s[0]) then TrimStart(s[1..]) else s
  }

  function TrimEnd(s: string): (r: string)
    ensures |r| <= |s| && r == s[..|r|]
    ensures forall i :: |r| <= i < |s| ==> IsSpace(s[i])
    ensures r == [] || !IsSpace(r[|r| - 1])
  {
    if s != [] && IsSpace(s[|s| - 1]) then TrimEnd(s[..|s| - 1]) else s
  }

  /** Python's `s.strip()`: `s` without its leading and trailing whitespace. */
  function Strip(s: string): (r: string)
  {
    TrimEnd(TrimStart(s))
  }

  /** `Strip(s)` is the slice `s[lo..hi]` of what `TrimStart` left, `s[lo..]`. */
  lemma StripSlice(s: string) returns (lo: nat, hi: nat)
    ensures lo <= hi <= |s| && TrimStart(s) == s[lo..] && Strip(s) == s[lo..hi]
  {
    var t := TrimStart(s);
    lo := |s| - |t|;
    hi := lo + |TrimEnd(t)|;
  }

  /**
   * `Strip(s)` is a slice `s[lo..hi]` with only whitespace outside it, and
   * it neither starts nor ends with whitespace.
   */
  lemma StripSpec(s: string) returns (lo: nat, hi: nat)
    ensures lo <= hi <= |s| && Strip(s) == s[lo..hi]
    ensures forall i :: 0 <= i < lo ==> IsSpace(s[i])
    ensures forall i :: hi <= i < |s| ==> IsSpace(s[i])
    ensures Strip(s) == [] || (!IsSpace(Strip(s)[0]) && !IsSpace(Strip(s)[|Strip(s)| - 1]))
  {
    lo, hi := StripSlice(s);
    var t := TrimStart(s);
    forall i | hi <= i < |s|
      ensures IsSpace(s[i])
    {
      assert s[i] == t[i - lo];
    }
    var r := Strip(s);
    if r != [] {
      assert r[0] == t[0];
    }
  }

  /**
   * What `strip` promises of `r`: it is a slice of `s` with only whitespace
   * outside it, and it neither starts nor ends with whitespace.
   */
  predicate IsStripOf(s: string, r: string) {
    exists lo: nat, hi: nat | lo <= hi <= |s| ::
      && s[lo..hi] == r
      && (forall i :: 0 <= i < lo ==> IsSpace(s[i]))
      && (forall i :: hi <= i < |s| ==> IsSpace(s[i]))
      && (r == [] || (!IsSpace(r[0]) && !IsSpace(r[|r| - 1])))
  }

  /** `Strip(s)` is the one string that `strip` may return for `s`. */
  lemma StripUnique(s: string, r: string)
    ensures IsStripOf(s, r) <==> r == Strip(s)
  {
    StripIsStripOf(s);
    if IsStripOf(s, r) {
      StripOfIsStrip(s, r);
    }
  }

  /** `Strip(s)` keeps the promise of `strip`. */
  lemma StripIsStripOf(s: string)
    ensures IsStripOf(s, Strip(s))
  {
    var lo, hi := StripSpec(s);
    assert s[lo..hi] == Strip(s);
  }

  /** Whatever keeps the promise of `strip` is `Strip(s)`. */
  lemma StripOfIsStrip(s: string, r: string)
    requires IsStripOf(s, r)
    ensures r == Strip(s)
  {
    var lo, hi := StripOfBounds(s, r);
    var lo2, hi2 := StripSpec(s);
    SameStrippedSlice(s, lo, hi, lo2, hi2);
  }

  /** The bounds of the slice that a string keeping the promise of `strip` is. */
  lemma StripOfBounds(s: string, r: string) returns (lo: nat, hi: nat)
    requires IsStripOf(s, r)
    ensures lo <= hi <= |s| && s[lo..hi] == r
    ensures forall i :: 0 <= i < lo ==> IsSpace(s[i])
    ensures forall i :: hi <= i < |s| ==> IsSpace(s[i])
    ensures lo < hi ==> !IsSpace(s[lo]) && !IsSpace(s[hi - 1])
  {
    lo, hi :| lo <= hi <= |s| && s[lo..hi] == r
      && (forall i :: 0 <= i < lo ==> IsSpace(s[i]))
      && (forall i :: hi <= i < |s| ==> IsSpace(s[i]))
      && (r == [] || (!IsSpace(r[0]) && !IsSpace(r[|r| - 1])));
    assert lo < hi ==> s[lo] == r[0] && s[hi - 1] == r[|r| - 1];
  }

  /** Two whitespace-free-ended slices with only whitespace outside them are the same slice. */
  lemma SameStrippedSlice(s: string, lo: nat, hi: nat, lo2: nat, hi2: nat)
    requires lo <= hi <= |s| && lo2 <= hi2 <= |s|
    requires forall i :: 0 <= i < lo ==> IsSpace(s[i])
    requires forall i :: hi <= i < |s| ==> IsSpace(s[i])
    requires forall i :: 0 <= i < lo2 ==> IsSpace(s[i])
    requires forall i :: hi2 <= i < |s| ==> IsSpace(s[i])
    requires lo < hi ==> !IsSpace(s[lo]) && !IsSpace(s[hi - 1])
    requires lo2 < hi2 ==> !IsSpace(s[lo2]) && !IsSpace(s[hi2 - 1])
    ensures s[lo..hi] == s[lo2..hi2]
  {
    if lo < hi && lo2 < hi2 {
      assert lo2 <= lo && lo <= lo2;
      assert hi <= hi2 && hi2 <= hi;
    } else {
      // one slice is empty, so the whitespace outside it is all of `s`
      assert forall i :: 0 <= i < |s| ==> IsSpace(s[i]);
      assert lo == hi && lo2 == hi2;
    }
  }

  /** Stripping keeps a prefix that begins and ends with non-whitespace. */
  lemma StripKeepsPrefix(s: string, p: string)
    requires StartsWith(s, p) && |p| > 0 && !IsSpace(p[0]) && !IsSpace(p[|p| - 1])
    ensures StartsWith(Strip(s), p)
  {
    assert s[0] == p[0];
    assert TrimStart(s) == s;
    var r := TrimEnd(s);
    assert s[|p| - 1] == p[|p| - 1];
    assert |r| >= |p|;
    assert r[..|p|] == s[..|p|];
  }

  // ---------------------------------------------------------------------
  // Joining and splitting at a character

  /** Python's `sep.join(parts)`. */
  function Join(parts: seq<string>, sep: string): string
  {
    if |parts| == 0 then ""
    else if |parts| == 1 then parts[0]
    else parts[0] + sep + Join(parts[1..], sep)
  }

  /** Every joined part can be found in the joined string. */
  lemma {:induction false} JoinContainsParts(parts: seq<string>, sep: string, k: nat)
    requires k < |parts|
    ensures Contains(Join(parts, sep), parts[k])
  {
    var whole := Join(parts, sep);
    if |parts| == 1 {
      assert OccursAt(whole, parts[k], 0);
    } else if k == 0 {
      assert OccursAt(parts[0], parts[0], 0);
      OccursInConcat(parts[0], sep + Join(parts[1..], sep), parts[0], 0);
      assert whole == parts[0] + (sep + Join(parts[1..], sep));
    } else {
      var tail := Join(parts[1..], sep);
      JoinContainsParts(parts[1..], sep, k - 1);
      var i: nat :| OccursAt(tail, parts[k], i);
      OccursInConcat(parts[0] + sep, tail, parts[k], i);
    }
  }

  /** Joining one more part adds the separator and that part at the end. */
  lemma {:induction false} JoinSnoc(parts: seq<string>, sep: string, p: string)
    ensures Join(parts + [p], sep) == if parts == [] then p else Join(parts, sep) + sep + p
  {
    if |parts| == 1 {
      assert (parts + [p])[1..] == [p];
    } else if |parts| > 1 {
      assert (parts + [p])[1..] == parts[1..] + [p];
      JoinSnoc(parts[1..], sep, p);
      calc {
        Join(parts + [p], sep);
        parts[0] + sep + Join(parts[1..] + [p], sep);
        parts[0] + sep + (Join(parts[1..], sep) + sep + p);
        (parts[0] + sep + Join(parts[1..], sep)) + sep + p;
      }
    }
  }

  /** JavaScript's `s.lastIndexOf(c)` for one character: the highest index holding `c`, or -1. */
  function LastIndexOf(s: string, c: char): (r: int)
    ensures r == -1 <==> c !in s
    ensures r != -1 ==> 0 <= r < |s| && s[r] == c && c !in s[r + 1..]
  {
    if s == [] then -1
    else if s[|s| - 1] == c then |s| - 1
    else
      var r := LastIndexOf(s[..|s| - 1], c);
      assert s == s[..|s| - 1] + [s[|s| - 1]];
      assert r != -1 ==> s[r + 1..] == s[..|s| - 1][r + 1..] + [s[|s| - 1]];
      r
  }

  /** The last `c` of `x + [c] + y` is the one between them when `y` holds no `c`. */
  lemma {:induction false} LastIndexOfSplit(x: string, c: char, y: string)
    requires c !in y
    ensures LastIndexOf(x + [c] + y, c) == |x|
  {
    var s := x + [c] + y;
    if y != [] {
      var y' := y[..|y| - 1];
      assert s[..|s| - 1] == x + [c] + y';
      assert s[|s| - 1] == y[|y| - 1];
      LastIndexOfSplit(x, c, y');
    }
  }
}
