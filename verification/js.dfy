/** The JavaScript built-ins the source relies on, with their exact
    semantics over unbounded integers and character sequences:
    `Math.round`, `Array.prototype.slice`, `String.prototype.includes`,
    `trim`, ASCII `toLowerCase`, the `\s` character class and `String(n)`. */
module Js {

  /** `Math.round(n / d)` for a positive divisor: floor(n/d + 1/2), the
      nearest integer to `n / d` with halves rounded towards +infinity.
      The contract states that `r - 1/2 <= n/d < r + 1/2`, scaled by 2d. */
  function RoundDiv(n: int, d: int): (r: int)
    requires d > 0
    ensures 2 * d * r <= 2 * n + d < 2 * d * r + 2 * d
  {
    (2 * n + d) / (2 * d)
  }

  /** For a positive divisor, `a * d <= b` and `b < c * d` bound `b / d`. */
  lemma RealQuotientBounds(a: real, b: real, c: real, d: real)
    requires d > 0.0 && a * d <= b < c * d
    ensures a <= b / d < c
  {
    var q := b / d;
    assert q * d == b;
    assert a * d <= q * d;
    assert q * d < c * d;
  }

  /** The integer `RoundDiv` returns lies within one half of `n / d`
      computed over the reals, which is what `Math.round` promises. */
  lemma RoundDivNearest(n: int, d: int)
    requires d > 0
    ensures (RoundDiv(n, d) as real) - 0.5 <= (n as real) / (d as real) < (RoundDiv(n, d) as real) + 0.5
  {
    var r := RoundDiv(n, d);
    var rr, dd := r as real, d as real;
    assert (2 * d * r) as real <= (2 * n + d) as real < (2 * d * r + 2 * d) as real;
    assert (rr - 0.5) * dd == ((2 * d * r) as real - dd) / 2.0;
    assert (rr + 0.5) * dd == ((2 * d * r) as real + dd) / 2.0;
    RealQuotientBounds(rr - 0.5, n as real, rr + 0.5, dd);
  }

  /** Cancelling a positive factor from a strict inequality. */
  lemma MulCancelLt(d: int, x: int, y: int)
    requires d > 0 && d * x < d * y
    ensures x < y
  {
  }

  /** A quotient of a numerator between `d * lo` and `d * hi` rounds into
      [lo, hi]. */
  lemma RoundDivRange(n: int, d: int, lo: int, hi: int)
    requires d > 0 && d * lo <= n <= d * hi
    ensures lo <= RoundDiv(n, d) <= hi
  {
    var r := RoundDiv(n, d);
    assert (2 * d) * r < (2 * d) * (hi + 1);
    MulCancelLt(2 * d, r, hi + 1);
    assert (2 * d) * lo < (2 * d) * (r + 1);
    MulCancelLt(2 * d, lo, r + 1);
  }

  /** The index `Array.prototype.slice` derives from a relative bound:
      negative bounds count from the end, and the result is clamped to
      [0, len]. */
  function SliceIndex(i: int, len: nat): (r: nat)
    ensures r <= len
    ensures i >= 0 ==> r == if i < len then i else len
    ensures i < 0 ==> r == if len + i < 0 then 0 else len + i
  {
    if i < 0 then (if len + i < 0 then 0 else len + i)
    else if i < len then i else len
  }

  /** `s.slice(start, end)`. */
  function Slice<T>(s: seq<T>, start: int, end: int): seq<T>
  {
    var from := SliceIndex(start, |s|);
    var to := SliceIndex(end, |s|);
    if from <= to then s[from..to] else []
  }

  /** `s.slice(0, k)` for a non-negative `k`: the first min(k, |s|) elements. */
  function Take<T>(s: seq<T>, k: nat): (r: seq<T>)
    ensures |r| == if k < |s| then k else |s|
    ensures r == s[..|r|]
  {
    if k < |s| then s[..k] else s
  }

  lemma TakeIsSlice<T>(s: seq<T>, k: nat)
    ensures Take(s, k) == Slice(s, 0, k)
  {
  }

  /** The ASCII part of `toLowerCase`: upper-case Latin letters map to
      their lower-case forms and every other character is kept. */
  function LowerChar(c: char): char
  {
    if 'A' <= c <= 'Z' then ((c as int) + 32) as char else c
  }

  /** `s.toLowerCase()` (ASCII letters only). */
  function Lower(s: string): (r: string)
    ensures |r| == |s|
    ensures forall i :: 0 <= i < |s| ==> r[i] == LowerChar(s[i])
  {
    seq(|s|, i requires 0 <= i < |s| => LowerChar(s[i]))
  }

  /** Lower-casing works character by character, so it distributes over
      concatenation. */
  lemma LowerConcat(a: string, b: string)
    ensures Lower(a + b) == Lower(a) + Lower(b)
  {
  }

  lemma LowerIdempotent(s: string)
    ensures Lower(Lower(s)) == Lower(s)
  {
  }

  /** A string with no upper-case ASCII letter is its own lower-case form. */
  lemma LowerOfLowerCase(s: string)
    requires forall i :: 0 <= i < |s| ==> !('A' <= s[i] <= 'Z')
    ensures Lower(s) == s
  {
  }

  /** `s.startsWith(p)`. */
  predicate StartsWith(s: string, p: string)
  {
    |p| <= |s| && s[..|p|] == p
  }

  /** `n` occurs in `h` starting at index `i`. */
  predicate OccursAt(h: string, n: string, i: int)
  {
    0 <= i && i + |n| <= |h| && h[i..i + |n|] == n
  }

  /** `h.includes(n)`, scanning `h` from the left: `n` occurs in `h` at
      some position. */
  predicate Includes(h: string, n: string)
    decreases |h|
    ensures Includes(h, n) <==> exists i :: OccursAt(h, n, i)
  {
    if StartsWith(h, n) then
      assert OccursAt(h, n, 0);
      true
    else if |h| == 0 then
      false
    else
      assert forall i :: OccursAt(h[1..], n, i) <==> OccursAt(h, n, i + 1) by {
        forall i ensures OccursAt(h[1..], n, i) <==> OccursAt(h, n, i + 1) {
          if 0 <= i && i + |n| <= |h| - 1 {
            assert h[1..][i..i + |n|] == h[i + 1..i + 1 + |n|];
          }
        }
      }
      assert !OccursAt(h, n, 0);
      assert forall i :: OccursAt(h, n, i) ==> OccursAt(h[1..], n, i - 1);
      Includes(h[1..], n)
  }

  /** A needle holding a character the haystack lacks does not occur in it
      (the usual way to show a keyword is absent from a concrete text). */
  lemma NotIncludesMissingChar(h: string, n: string, c: char)
    requires c in n && c !in h
    ensures !Includes(h, n)
  {
    var k :| 0 <= k < |n| && n[k] == c;
    forall i | 0 <= i && i + |n| <= |h| ensures !OccursAt(h, n, i) {
      assert h[i..i + |n|][k] == h[i + k] != c;
    }
  }

  /** The characters `\s` matches and `trim` removes: the ECMAScript
      WhiteSpace and LineTerminator code points. */
  predicate IsSpace(c: char)
  {
    var k := c as int;
    k == 0x09 || k == 0x0A || k == 0x0B || k == 0x0C || k == 0x0D || k == 0x20
    || k == 0xA0 || k == 0x1680 || (0x2000 <= k <= 0x200A) || k == 0x2028
    || k == 0x2029 || k == 0x202F || k == 0x205F || k == 0x3000 || k == 0xFEFF
  }

  /** `s.trimStart()`: the suffix left after dropping leading whitespace. */
  function TrimStart(s: string): (r: string)
    decreases |s|
    ensures |r| <= |s| && r == s[|s| - |r|..]
    ensures forall i :: 0 <= i < |s| - |r| ==> IsSpace(s[i])
    ensures |r| > 0 ==> !IsSpace(r[0])
  {
    if |s| > 0 && IsSpace(s[0]) then TrimStart(s[1..]) else s
  }

  /** `s.trimEnd()`: the prefix left after dropping trailing whitespace. */
  function TrimEnd(s: string): (r: string)
    decreases |s|
    ensures |r| <= |s| && r == s[..|r|]
    ensures forall i :: |r| <= i < |s| ==> IsSpace(s[i])
    ensures |r| > 0 ==> !IsSpace(r[|r| - 1])
  {
    if |s| > 0 && IsSpace(s[|s| - 1]) then TrimEnd(s[..|s| - 1]) else s
  }

  /** `s.trim()`. */
  function Trim(s: string): (r: string)
    ensures |r| > 0 ==> !IsSpace(r[0]) && !IsSpace(r[|r| - 1])
  {
    TrimEnd(TrimStart(s))
  }

  /** `trim` drops only whitespace: what remains is a contiguous slice of
      the input, and everything outside it is whitespace. */
  lemma TrimIsSlice(s: string)
    ensures exists a, b ::
              && 0 <= a <= b <= |s| && Trim(s) == s[a..b]
              && (forall i :: 0 <= i < a ==> IsSpace(s[i]))
              && (forall i :: b <= i < |s| ==> IsSpace(s[i]))
  {
    var t := TrimStart(s);
    var a := |s| - |t|;
    var u := TrimEnd(t);
    var b := a + |u|;
    SliceOfSuffix(s, a, |u|);
    assert Trim(s) == s[a..b];
    forall i | b <= i < |s| ensures IsSpace(s[i]) {
      assert s[i] == t[i - a];
    }
  }

  /** A prefix of a suffix is a slice. */
  lemma SliceOfSuffix<T>(s: seq<T>, a: nat, n: nat)
    requires a + n <= |s|
    ensures s[a..][..n] == s[a..a + n]
  {
  }

  /** A string with no leading or trailing whitespace is its own trim. */
  lemma TrimOfTrimmed(s: string)
    requires |s| > 0 ==> !IsSpace(s[0]) && !IsSpace(s[|s| - 1])
    ensures Trim(s) == s
  {
  }

  lemma TrimIdempotent(s: string)
    ensures Trim(Trim(s)) == Trim(s)
  {
    TrimOfTrimmed(Trim(s));
  }

  /** `trim` yields the empty string exactly on all-whitespace input. */
  lemma TrimEmptyIff(s: string)
    ensures Trim(s) == [] <==> forall i :: 0 <= i < |s| ==> IsSpace(s[i])
  {
    TrimIsSlice(s);
    var t := TrimStart(s);
    assert forall j :: 0 <= j < |t| ==> t[j] == s[|s| - |t| + j];
  }

  /** The decimal digit for 0..9. */
  function DigitChar(d: nat): char
    requires d < 10
  {
    ['0', '1', '2', '3', '4', '5', '6', '7', '8', '9'][d]
  }

  /** `String(n)` for a natural number: its decimal digits. */
  function NatToString(n: nat): (r: string)
    decreases n
    ensures |r| > 0
    ensures forall i :: 0 <= i < |r| ==> '0' <= r[i] <= '9'
  {
    if n < 10 then [DigitChar(n)] else NatToString(n / 10) + [DigitChar(n % 10)]
  }

  /** `String(n)` for an integer. */
  function IntToString(n: int): string
  {
    if n < 0 then "-" + NatToString(-n) else NatToString(n)
  }
}
