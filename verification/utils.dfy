/** The helpers of server/intelligence/utils.ts: `clamp`, `uniq`,
    `includesAny` and `normalizeText`. (`stableHash` and `shortId` wrap
    SHA-256 and random bytes and are not part of this model.) */
module Utils {
  import Js

  function Min(a: int, b: int): int { if a <= b then a else b }
  function Max(a: int, b: int): int { if a >= b then a else b }

  /** `clamp(n, min, max)`, i.e. `Math.max(min, Math.min(max, n))`: the
      point of [lo, hi] nearest to `n` (and `lo` when the range is empty). */
  function Clamp(n: int, lo: int, hi: int): (r: int)
    ensures lo <= hi ==> lo <= r <= hi
    ensures lo <= n <= hi ==> r == n
    ensures n < lo ==> r == lo
    ensures lo <= hi < n ==> r == hi
  {
    Max(lo, Min(hi, n))
  }

  /** `clamp(n)` with the default bounds 0 and 100. */
  function Clamp100(n: int): (r: int)
    ensures 0 <= r <= 100
    ensures 0 <= n <= 100 ==> r == n
  {
    Clamp(n, 0, 100)
  }

  /** Clamping twice to the same non-empty range is clamping once. */
  lemma ClampIdempotent(n: int, lo: int, hi: int)
    requires lo <= hi
    ensures Clamp(Clamp(n, lo, hi), lo, hi) == Clamp(n, lo, hi)
  {
  }

  predicate NoDuplicates<T(==)>(s: seq<T>)
  {
    forall i, j :: 0 <= i < j < |s| ==> s[i] != s[j]
  }

  /** `uniq(arr)`, i.e. `[...new Set(arr)]`: the elements of `s`, each kept
      at its first occurrence. Built left to right as `Set` insertion is. */
  function Uniq<T(==)>(s: seq<T>): (r: seq<T>)
    decreases |s|
    ensures NoDuplicates(r)
    ensures forall i :: 0 <= i < |s| ==> s[i] in r
    ensures forall i :: 0 <= i < |r| ==> r[i] in s
    ensures |r| <= |s|
  {
    if |s| == 0 then []
    else
      var prev := Uniq(s[..|s| - 1]);
      assert forall i :: 0 <= i < |s| - 1 ==> s[i] == s[..|s| - 1][i];
      if s[|s| - 1] in prev then prev else prev + [s[|s| - 1]]
  }

  /** `r` is `uniq(s).slice(0, n)`: the first `n` distinct elements of
      `s`, in order of first occurrence (all of them when there are fewer). */
  predicate FirstDistinct<T(==)>(r: seq<T>, s: seq<T>, n: nat)
  {
    var u := Uniq(s);
    |r| == Min(n, |u|) && r == u[..|r|]
  }

  /** The index of the first occurrence of `x` in `s`. */
  function FirstIndex<T(==)>(s: seq<T>, x: T): (i: nat)
    requires x in s
    ensures i < |s| && s[i] == x && x !in s[..i]
  {
    if s[0] == x then 0 else 1 + FirstIndex(s[1..], x)
  }

  /** Appending never moves the first occurrence of an element present. */
  lemma {:induction false} FirstIndexOfSnoc<T>(s: seq<T>, x: T, y: T)
    requires y in s
    ensures FirstIndex(s + [x], y) == FirstIndex(s, y)
    decreases |s|
  {
    if s[0] != y {
      assert (s + [x])[1..] == s[1..] + [x];
      FirstIndexOfSnoc(s[1..], x, y);
    }
  }

  /** An element appended to a sequence lacking it first occurs at the end. */
  lemma {:induction false} FirstIndexOfNew<T>(s: seq<T>, x: T)
    requires x !in s
    ensures FirstIndex(s + [x], x) == |s|
    decreases |s|
  {
    if |s| > 0 {
      assert (s + [x])[1..] == s[1..] + [x];
      FirstIndexOfNew(s[1..], x);
    }
  }

  /** Appending after the first element is appending to the whole. */
  lemma ConsSnoc<T>(c: seq<T>, x: T)
    requires |c| > 0
    ensures [c[0]] + (c[1..] + [x]) == c + [x]
  {
  }

  /** Two single appends are one append of two. */
  lemma SnocTwo<T>(c: seq<T>, x: T, y: T)
    ensures c + [x] + [y] == c + [x, y]
  {
  }

  lemma SnocAfterTwo<T>(c: seq<T>, x: T, y: T, z: T)
    ensures c + [x, y] + [z] == c + [x, y, z]
  {
  }

  /** An index past the first part reads the second part. */
  lemma ConcatIndex<T>(x: seq<T>, y: seq<T>, k: nat)
    requires |x| <= k < |x| + |y|
    ensures (x + y)[k] == y[k - |x|]
  {
  }

  /** A slice of a suffix is a slice of the whole, moved up by the cut. */
  lemma SliceWithinSuffix<T>(c: seq<T>, d: nat, x: nat, y: nat)
    requires x <= y && d + y <= |c|
    ensures c[d..][x..y] == c[d + x..d + y]
  {
  }

  /** Putting the first element back in front of the rest, before `x`. */
  lemma ConsOntoRest<T>(w: seq<T>, x: seq<T>)
    requires |w| > 0
    ensures [w[0]] + (w[1..] + x) == w + x
  {
    assert w == [w[0]] + w[1..];
  }

  /** A sequence is its prefix of length `k` followed by the rest. */
  lemma SplitAt<T>(c: seq<T>, k: nat)
    requires k <= |c|
    ensures c == c[..k] + c[k..]
  {
  }

  /** A non-empty sequence is its first element followed by the rest. */
  lemma SplitFirst<T>(c: seq<T>)
    requires |c| > 0
    ensures c == [c[0]] + c[1..]
  {
  }

  /** A non-empty sequence is its front followed by its last element, and
      the front keeps every prefix of the front. */
  lemma SplitLast<T>(c: seq<T>, n: nat)
    requires n < |c|
    ensures c == c[..|c| - 1] + [c[|c| - 1]]
    ensures c[..|c| - 1][..n] == c[..n]
  {
  }

  /** `uniq` of a sequence extended by one element: the element is added at
      the end unless it was already there. */
  lemma UniqSnoc<T>(p: seq<T>, x: T)
    ensures Uniq(p + [x]) == if x in p then Uniq(p) else Uniq(p) + [x]
  {
    var s := p + [x];
    assert s[..|s| - 1] == p;
    if x in p {
      var i :| 0 <= i < |p| && p[i] == x;
      assert x in Uniq(p);
    }
  }

  /** `uniq` lists the distinct elements in the order of their first
      occurrence in the input. */
  lemma {:induction false} UniqKeepsFirstOccurrenceOrder<T>(s: seq<T>)
    ensures forall i, j :: 0 <= i < j < |Uniq(s)| ==> FirstIndex(s, Uniq(s)[i]) < FirstIndex(s, Uniq(s)[j])
    decreases |s|
  {
    if |s| > 0 {
      var p := s[..|s| - 1];
      var x := s[|s| - 1];
      assert s == p + [x];
      UniqKeepsFirstOccurrenceOrder(p);
      UniqSnoc(p, x);
      var u := Uniq(p);
      var w := Uniq(s);
      forall i, j | 0 <= i < j < |w|
        ensures FirstIndex(s, w[i]) < FirstIndex(s, w[j])
      {
        assert w[i] == u[i] && u[i] in p;
        FirstIndexOfSnoc(p, x, u[i]);
        if j < |u| {
          assert w[j] == u[j] && u[j] in p;
          FirstIndexOfSnoc(p, x, u[j]);
        } else {
          assert w[j] == x && x !in p;
          FirstIndexOfNew(p, x);
        }
      }
    }
  }

  /** A duplicate-free input is returned unchanged, so `uniq` is idempotent. */
  lemma {:induction false} UniqOfDuplicateFree<T>(s: seq<T>)
    requires NoDuplicates(s)
    ensures Uniq(s) == s
    decreases |s|
  {
    if |s| > 0 {
      var p := s[..|s| - 1];
      UniqOfDuplicateFree(p);
      assert s[|s| - 1] !in p by {
        forall k | 0 <= k < |p| ensures p[k] != s[|s| - 1] {
          assert p[k] == s[k];
        }
      }
      assert s == p + [s[|s| - 1]];
    }
  }

  lemma UniqIdempotent<T>(s: seq<T>)
    ensures Uniq(Uniq(s)) == Uniq(s)
  {
    UniqOfDuplicateFree(Uniq(s));
  }

  /** `uniq(a ++ b)` starts with `uniq(a)` and continues with elements not
      in `a` only. */
  lemma UniqOfConcat<T>(a: seq<T>, b: seq<T>)
    ensures |Uniq(a)| <= |Uniq(a + b)|
    ensures Uniq(a + b)[..|Uniq(a)|] == Uniq(a)
    ensures forall k :: |Uniq(a)| <= k < |Uniq(a + b)| ==> Uniq(a + b)[k] !in a
  {
    assert (a + b)[..|a|] == a;
    UniqOfPrefix(a, a + b);
  }

  /** `UniqOfConcat` stated for any `c` that begins with `a`, by induction
      on the length of the rest of `c`. */
  lemma {:induction false} UniqOfPrefix<T>(a: seq<T>, c: seq<T>)
    requires |a| <= |c| && c[..|a|] == a
    ensures |Uniq(a)| <= |Uniq(c)|
    ensures Uniq(c)[..|Uniq(a)|] == Uniq(a)
    ensures forall k :: |Uniq(a)| <= k < |Uniq(c)| ==> Uniq(c)[k] !in a
    decreases |c| - |a|
  {
    if |c| == |a| {
      assert c == a;
    } else {
      var c' := c[..|c| - 1];
      var y := c[|c| - 1];
      SplitLast(c, |a|);
      UniqOfPrefix(a, c');
      UniqSnoc(c', y);
      assert y in a ==> y in c' by {
        if y in a {
          var i :| 0 <= i < |a| && a[i] == y;
          assert c'[i] == y;
        }
      }
      PrefixExtends(Uniq(a), Uniq(c'), Uniq(c), a);
    }
  }

  /** One step of `UniqOfPrefix`: a sequence that keeps a prefix and adds
      only elements outside `a` still does so after one more such element. */
  lemma PrefixExtends<T>(p: seq<T>, u: seq<T>, w: seq<T>, a: seq<T>)
    requires |p| <= |u| && u[..|p|] == p
    requires forall k :: |p| <= k < |u| ==> u[k] !in a
    requires w == u || (|w| == |u| + 1 && w[..|u|] == u && w[|u|] !in a)
    ensures |p| <= |w| && w[..|p|] == p
    ensures forall k :: |p| <= k < |w| ==> w[k] !in a
  {
    if w != u {
      assert w[..|p|] == u[..|p|];
      forall k | |p| <= k < |w| ensures w[k] !in a {
        if k < |u| {
          assert w[k] == u[k];
        }
      }
    }
  }

  /** The first `n` distinct elements: no more than `n`, no repeats, and
      each one from the input. */
  lemma TakeOfUniq<T>(s: seq<T>, n: nat)
    ensures var r := Js.Take(Uniq(s), n);
            && |r| <= n && NoDuplicates(r)
            && forall k :: 0 <= k < |r| ==> r[k] in s
  {
    var u := Uniq(s);
    var r := Js.Take(u, n);
    assert forall k :: 0 <= k < |r| ==> r[k] == u[k];
  }

  /** `includesAny(haystack, needles)`: some needle, lower-cased, occurs in
      the lower-cased haystack. Checked needle by needle like `some`. */
  predicate IncludesAny(h: string, needles: seq<string>)
    ensures IncludesAny(h, needles) <==>
      exists k :: 0 <= k < |needles| && Js.Includes(Js.Lower(h), Js.Lower(needles[k]))
  {
    if |needles| == 0 then false
    else
      assert forall k :: 0 < k < |needles| ==> needles[k] == needles[1..][k - 1];
      Js.Includes(Js.Lower(h), Js.Lower(needles[0])) || IncludesAny(h, needles[1..])
  }

  /** A needle found at a known position makes `includesAny` hold. */
  lemma IncludesAnyAt(h: string, needles: seq<string>, k: nat, p: nat)
    requires k < |needles| && Js.OccursAt(Js.Lower(h), Js.Lower(needles[k]), p)
    ensures IncludesAny(h, needles)
  {
  }

  /** An empty needle occurs in every haystack. */
  lemma IncludesAnyEmptyNeedle(h: string, needles: seq<string>)
    requires "" in needles
    ensures IncludesAny(h, needles)
  {
    var k :| 0 <= k < |needles| && needles[k] == "";
    assert Js.OccursAt(Js.Lower(h), Js.Lower(needles[k]), 0);
  }

  /** The characters of `s` that are not whitespace, in order. */
  function NonSpace(s: string): string
  {
    if |s| == 0 then []
    else (if Js.IsSpace(s[0]) then [] else [s[0]]) + NonSpace(s[1..])
  }

  lemma {:induction false} NonSpaceConcat(a: string, b: string)
    ensures NonSpace(a + b) == NonSpace(a) + NonSpace(b)
    decreases |a|
  {
    if |a| > 0 {
      assert (a + b)[0] == a[0];
      assert (a + b)[1..] == a[1..] + b;
      NonSpaceConcat(a[1..], b);
    } else {
      assert a + b == b;
    }
  }

  lemma {:induction false} NonSpaceEmptyIff(s: string)
    ensures NonSpace(s) == [] <==> forall i :: 0 <= i < |s| ==> Js.IsSpace(s[i])
    decreases |s|
  {
    if |s| > 0 {
      NonSpaceEmptyIff(s[1..]);
      assert forall i :: 0 < i < |s| ==> s[i] == s[1..][i - 1];
    }
  }

  /** Every whitespace character is a plain space and no two whitespace
      characters are adjacent. */
  predicate SingleSpaced(s: string)
  {
    && (forall i :: 0 <= i < |s| && Js.IsSpace(s[i]) ==> s[i] == ' ')
    && (forall i :: 0 < i < |s| && Js.IsSpace(s[i]) ==> !Js.IsSpace(s[i - 1]))
  }

  /** The shape `normalizeText` produces: single-spaced, no whitespace at
      either end. */
  predicate Normalized(s: string)
  {
    SingleSpaced(s) && (|s| > 0 ==> !Js.IsSpace(s[0]) && !Js.IsSpace(s[|s| - 1]))
  }

  /** `s.replace(/\s+/g, " ")`: every maximal run of whitespace becomes one
      space; all other characters are kept. */
  function CollapseSpaces(s: string): (r: string)
    decreases |s|
    ensures |r| == 0 <==> |s| == 0
    ensures |s| > 0 ==> r[0] == if Js.IsSpace(s[0]) then ' ' else s[0]
    ensures SingleSpaced(r)
    ensures NonSpace(r) == NonSpace(s)
  {
    if |s| == 0 then []
    else if Js.IsSpace(s[0]) then
      var rest := Js.TrimStart(s);
      NonSpaceConcat(s[..|s| - |rest|], rest);
      SplitAt(s, |s| - |rest|);
      NonSpaceEmptyIff(s[..|s| - |rest|]);
      NonSpaceConcat(" ", CollapseSpaces(rest));
      " " + CollapseSpaces(rest)
    else
      NonSpaceConcat([s[0]], s[1..]);
      SplitFirst(s);
      NonSpaceConcat([s[0]], CollapseSpaces(s[1..]));
      [s[0]] + CollapseSpaces(s[1..])
  }

  /** Every slice of a single-spaced string is single-spaced. */
  lemma SingleSpacedSlice(c: string, a: nat, b: nat)
    requires a <= b <= |c| && SingleSpaced(c)
    ensures SingleSpaced(c[a..b])
  {
    assert forall i :: 0 <= i < b - a ==> c[a..b][i] == c[a + i];
  }

  /** A string is the concatenation of its three pieces around `a` and `b`. */
  lemma ThreeParts(c: string, a: nat, b: nat)
    requires a <= b <= |c|
    ensures c == c[..a] + c[a..b] + c[b..]
  {
    assert c[..b] == c[..a] + c[a..b];
    assert c == c[..b] + c[b..];
  }

  /** Dropping a whitespace prefix keeps the non-whitespace content. */
  lemma {:induction false} NonSpaceDropLeading(x: string, k: nat)
    requires k <= |x| && forall i :: 0 <= i < k ==> Js.IsSpace(x[i])
    ensures NonSpace(x) == NonSpace(x[k..])
    decreases k
  {
    if k > 0 {
      assert Js.IsSpace(x[0]);
      assert NonSpace(x) == NonSpace(x[1..]);
      NonSpaceDropLeading(x[1..], k - 1);
      assert x[1..][k - 1..] == x[k..];
    }
  }

  /** Dropping a whitespace suffix keeps the non-whitespace content. */
  lemma {:induction false} NonSpaceDropTrailing(x: string, k: nat)
    requires k <= |x| && forall i :: k <= i < |x| ==> Js.IsSpace(x[i])
    ensures NonSpace(x) == NonSpace(x[..k])
    decreases |x| - k
  {
    if k < |x| {
      var front, last := x[..|x| - 1], x[|x| - 1];
      SplitLast(x, k);
      NonSpaceConcat(front, [last]);
      assert Js.IsSpace(last);
      assert NonSpace([last]) == [];
      NonSpaceDropTrailing(front, k);
    } else {
      assert x[..k] == x;
    }
  }

  /** Trimming drops only whitespace: the non-whitespace content stays. */
  lemma TrimKeepsContent(c: string)
    ensures NonSpace(Js.Trim(c)) == NonSpace(c)
  {
    var t := Js.TrimStart(c);
    NonSpaceDropLeading(c, |c| - |t|);
    var u := Js.TrimEnd(t);
    NonSpaceDropTrailing(t, |u|);
  }

  /** Trimming keeps a string single-spaced and drops only whitespace. */
  lemma TrimKeepsShape(c: string)
    requires SingleSpaced(c)
    ensures SingleSpaced(Js.Trim(c))
    ensures NonSpace(Js.Trim(c)) == NonSpace(c)
  {
    Js.TrimIsSlice(c);
    var a, b :| 0 <= a <= b <= |c| && Js.Trim(c) == c[a..b];
    SingleSpacedSlice(c, a, b);
    TrimKeepsContent(c);
  }

  /** A string without leading whitespace has no non-space character only
      when it is empty. */
  lemma NonSpaceOfTrimmed(r: string)
    requires |r| > 0 ==> !Js.IsSpace(r[0])
    ensures NonSpace(r) == [] <==> r == []
  {
    NonSpaceEmptyIff(r);
  }

  /** `normalizeText(s)`: whitespace runs collapsed to one space, then
      trimmed. The two quote replacements of the source map each character
      to itself and are omitted. The result keeps every non-whitespace
      character in order and is empty exactly for all-whitespace input. */
  function NormalizeText(s: string): (r: string)
    ensures Normalized(r)
    ensures NonSpace(r) == NonSpace(s)
    ensures r == [] <==> forall i :: 0 <= i < |s| ==> Js.IsSpace(s[i])
  {
    var c := CollapseSpaces(s);
    TrimKeepsShape(c);
    NonSpaceOfTrimmed(Js.Trim(c));
    NonSpaceEmptyIff(s);
    Js.Trim(c)
  }

  /** A single-spaced string is its own collapse. */
  lemma {:induction false} CollapseOfSingleSpaced(s: string)
    requires SingleSpaced(s)
    ensures CollapseSpaces(s) == s
    decreases |s|
  {
    if |s| > 0 {
      SingleSpacedSlice(s, 1, |s|);
      assert s[1..|s|] == s[1..];
      CollapseOfSingleSpaced(s[1..]);
      if Js.IsSpace(s[0]) {
        if |s| > 1 {
          assert !Js.IsSpace(s[1]);
        }
        assert Js.TrimStart(s) == s[1..];
      }
      SplitFirst(s);
    }
  }

  /** Normalized text is a fixed point of `normalizeText`. */
  lemma NormalizeOfNormalized(s: string)
    requires Normalized(s)
    ensures NormalizeText(s) == s
  {
    CollapseOfSingleSpaced(s);
    Js.TrimOfTrimmed(s);
  }

  /** `normalizeText` is idempotent. */
  lemma NormalizeIdempotent(s: string)
    ensures NormalizeText(NormalizeText(s)) == NormalizeText(s)
  {
    NormalizeOfNormalized(NormalizeText(s));
  }

  /** The length of the run of non-whitespace characters `s` starts with. */
  function RunLen(s: string): (n: nat)
    ensures n <= |s|
    ensures forall i :: 0 <= i < n ==> !Js.IsSpace(s[i])
    ensures n < |s| ==> Js.IsSpace(s[n])
    decreases |s|
  {
    if |s| == 0 || Js.IsSpace(s[0]) then 0 else 1 + RunLen(s[1..])
  }

  /** The words of `s`: its maximal runs of non-whitespace characters, in
      order. */
  function Words(s: string): seq<string>
    decreases |s|
  {
    if |s| == 0 then []
    else if Js.IsSpace(s[0]) then Words(s[1..])
    else
      var n := RunLen(s);
      [s[..n]] + Words(s[n..])
  }

  /** The words joined by single spaces. */
  function JoinWords(ws: seq<string>): string
    decreases |ws|
  {
    if |ws| == 0 then ""
    else if |ws| == 1 then ws[0]
    else ws[0] + " " + JoinWords(ws[1..])
  }

  /** Every word is a non-empty run of non-whitespace characters. */
  lemma {:induction false} WordsAreRuns(s: string)
    ensures forall k :: 0 <= k < |Words(s)| ==>
              |Words(s)[k]| > 0 && forall i :: 0 <= i < |Words(s)[k]| ==> !Js.IsSpace(Words(s)[k][i])
    decreases |s|
  {
    if |s| > 0 {
      if Js.IsSpace(s[0]) {
        WordsAreRuns(s[1..]);
      } else {
        WordsAreRuns(s[RunLen(s)..]);
      }
    }
  }

  /** Leading whitespace carries no word. */
  lemma {:induction false} WordsDropSpaces(x: string, k: nat)
    requires k <= |x| && forall i :: 0 <= i < k ==> Js.IsSpace(x[i])
    ensures Words(x) == Words(x[k..])
    decreases k
  {
    if k > 0 {
      WordsDropSpaces(x[1..], k - 1);
      assert x[1..][k - 1..] == x[k..];
    }
  }

  /** A run continues into what follows only when it reaches the end. */
  lemma {:induction false} RunLenConcat(a: string, b: string)
    ensures RunLen(a + b) == if RunLen(a) < |a| then RunLen(a) else |a| + RunLen(b)
    decreases |a|
  {
    if |a| == 0 {
      assert a + b == b;
    } else {
      assert (a + b)[0] == a[0];
      if !Js.IsSpace(a[0]) {
        assert (a + b)[1..] == a[1..] + b;
        RunLenConcat(a[1..], b);
      }
    }
  }

  /** A whole word followed by whitespace or nothing is the first word. */
  lemma WordsOfRun(w: string, rest: string)
    requires |w| > 0 && forall i :: 0 <= i < |w| ==> !Js.IsSpace(w[i])
    requires |rest| > 0 ==> Js.IsSpace(rest[0])
    ensures Words(w + rest) == [w] + Words(rest)
  {
    RunLenConcat(w, rest);
    assert (w + rest)[0] == w[0];
    assert (w + rest)[..|w|] == w;
    assert (w + rest)[|w|..] == rest;
  }

  /** Trailing whitespace carries no word. */
  lemma {:induction false} WordsDropTrailing(y: string, sp: string)
    requires forall i :: 0 <= i < |sp| ==> Js.IsSpace(sp[i])
    ensures Words(y + sp) == Words(y)
    decreases |y|
  {
    if |y| == 0 {
      assert y + sp == sp;
      WordsDropSpaces(sp, |sp|);
    } else {
      assert (y + sp)[0] == y[0];
      if Js.IsSpace(y[0]) {
        assert (y + sp)[1..] == y[1..] + sp;
        WordsDropTrailing(y[1..], sp);
      } else {
        var n := RunLen(y);
        RunLenConcat(y, sp);
        assert (y + sp)[..n] == y[..n];
        assert (y + sp)[n..] == y[n..] + sp;
        WordsDropTrailing(y[n..], sp);
      }
    }
  }

  /** Trimming keeps the words. */
  lemma WordsOfTrim(x: string)
    ensures Words(Js.Trim(x)) == Words(x)
  {
    var t := Js.TrimStart(x);
    WordsDropSpaces(x, |x| - |t|);
    var u := Js.TrimEnd(t);
    SplitAt(t, |u|);
    WordsDropTrailing(u, t[|u|..]);
  }

  /** Collapsing copies a run of non-whitespace characters unchanged. */
  lemma {:induction false} CollapseOfRun(w: string, rest: string)
    requires forall i :: 0 <= i < |w| ==> !Js.IsSpace(w[i])
    ensures CollapseSpaces(w + rest) == w + CollapseSpaces(rest)
    decreases |w|
  {
    if |w| == 0 {
      assert w + rest == rest;
    } else {
      var s := w + rest;
      assert s[0] == w[0];
      assert s[1..] == w[1..] + rest;
      CollapseCopies(s);
      CollapseOfRun(w[1..], rest);
      ConsOntoRest(w, CollapseSpaces(rest));
    }
  }

  /** A leading non-whitespace character is copied. */
  lemma CollapseCopies(s: string)
    requires |s| > 0 && !Js.IsSpace(s[0])
    ensures CollapseSpaces(s) == [s[0]] + CollapseSpaces(s[1..])
  {
  }

  /** `s.replace(/\s+/g, " ")` keeps the words: every whitespace run
      became a separator, none vanished and none appeared, so no two words
      were glued together and none was split. */
  lemma {:induction false} CollapseKeepsWords(s: string)
    ensures Words(CollapseSpaces(s)) == Words(s)
    decreases |s|
  {
    if |s| > 0 {
      if Js.IsSpace(s[0]) {
        var t := Js.TrimStart(s);
        CollapseKeepsWords(t);
        WordsDropSpaces(s, |s| - |t|);
        assert (" " + CollapseSpaces(t))[1..] == CollapseSpaces(t);
      } else {
        var n := RunLen(s);
        var w, rest := s[..n], s[n..];
        SplitAt(s, n);
        CollapseOfRun(w, rest);
        CollapseKeepsWords(rest);
        WordsOfRun(w, CollapseSpaces(rest));
      }
    }
  }

  /** Normalized text is its words joined by single spaces. */
  lemma {:induction false} NormalizedIsJoinedWords(n: string)
    requires Normalized(n)
    ensures n == JoinWords(Words(n))
    decreases |n|
  {
    if |n| > 0 {
      var k := RunLen(n);
      if k == |n| {
        assert n[..k] == n && n[k..] == [];
      } else {
        var rest := n[k + 1..];
        assert n[k] == ' ';
        assert k + 1 < |n| && !Js.IsSpace(n[k + 1]);
        SingleSpacedSlice(n, k + 1, |n|);
        assert n[k + 1..|n|] == rest;
        assert rest[0] == n[k + 1] && rest[|rest| - 1] == n[|n| - 1];
        NormalizedIsJoinedWords(rest);
        assert n[k..][1..] == rest;
        var ws := Words(rest);
        assert |ws| > 0;
        assert ([n[..k]] + ws)[1..] == ws;
        assert n == n[..k] + " " + rest;
      }
    }
  }

  /** `normalizeText(s)` is the words of `s` joined by single spaces. */
  lemma NormalizeJoinsWords(s: string)
    ensures NormalizeText(s) == JoinWords(Words(s))
  {
    var c := CollapseSpaces(s);
    CollapseKeepsWords(s);
    WordsOfTrim(c);
    NormalizedIsJoinedWords(NormalizeText(s));
  }

  /** `normalizeText(s).toLowerCase()`, the text the keyword rules read:
      still normalised, with the same non-whitespace characters as the
      lower-cased input. */
  function LowerNormalized(userText: string): (t: string)
    ensures Normalized(t)
    ensures NonSpace(t) == NonSpace(Js.Lower(userText))
  {
    var n := NormalizeText(userText);
    LowerKeepsShape(n);
    LowerNonSpace(userText);
    LowerNonSpace(n);
    Js.Lower(n)
  }

  /** Lower-casing maps whitespace to whitespace and nothing else to it. */
  lemma LowerSpace(c: char)
    ensures Js.IsSpace(Js.LowerChar(c)) <==> Js.IsSpace(c)
    ensures Js.IsSpace(c) ==> Js.LowerChar(c) == c
  {
  }

  lemma LowerKeepsShape(s: string)
    requires Normalized(s)
    ensures Normalized(Js.Lower(s))
  {
    forall i | 0 <= i < |s| ensures Js.IsSpace(Js.Lower(s)[i]) <==> Js.IsSpace(s[i]) {
      LowerSpace(s[i]);
    }
    forall i | 0 <= i < |s| && Js.IsSpace(s[i]) ensures Js.Lower(s)[i] == s[i] {
      LowerSpace(s[i]);
    }
  }

  lemma {:induction false} LowerNonSpace(s: string)
    ensures NonSpace(Js.Lower(s)) == Js.Lower(NonSpace(s))
    decreases |s|
  {
    if |s| > 0 {
      var c, t := s[0], s[1..];
      SplitFirst(s);
      Js.LowerConcat([c], t);
      LowerNonSpace(t);
      NonSpaceConcat(Js.Lower([c]), Js.Lower(t));
      NonSpaceConcat([c], t);
      Js.LowerConcat(NonSpace([c]), NonSpace(t));
      LowerSpace(c);
      assert NonSpace(Js.Lower([c])) == Js.Lower(NonSpace([c]));
    } else {
      assert Js.Lower(s) == [];
    }
  }

  /** No term occurs in a lower-case text lacking one letter of every
      term; `pick[k]` is the position of that letter in `terms[k]`. */
  lemma NoTermOccurs(h: string, terms: seq<string>, pick: seq<nat>)
    requires forall i :: 0 <= i < |h| ==> !('A' <= h[i] <= 'Z')
    requires |pick| == |terms|
    requires forall k :: 0 <= k < |terms| ==> pick[k] < |terms[k]| && Js.LowerChar(terms[k][pick[k]]) !in h
    ensures !IncludesAny(h, terms)
  {
    Js.LowerOfLowerCase(h);
    forall k | 0 <= k < |terms| ensures !Js.Includes(Js.Lower(h), Js.Lower(terms[k])) {
      Js.NotIncludesMissingChar(h, Js.Lower(terms[k]), Js.LowerChar(terms[k][pick[k]]));
    }
  }

}
