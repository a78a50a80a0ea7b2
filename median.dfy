/** The median filter of the video reader: around a position in one row of
    RGBA pixels it takes the pixels of a window of `k` (rounded down to an
    odd width `2 * (k / 2) + 1`), skips those outside the row, and returns
    per channel the middle element of the sorted samples. */
module MedianFilter {
  import Sorting
  import opened Colors

  predicate IntLe(a: int, b: int)
  {
    a <= b
  }

  lemma IntLeIsTotalPreorder()
    ensures Sorting.TotalPreorder(IntLe)
  {
  }

  /** `arr.sort((a, b) => a - b)`: ascending, a permutation of the input. */
  function SortInts(s: seq<int>): (r: seq<int>)
    ensures multiset(r) == multiset(s) && |r| == |s|
    ensures forall i, j :: 0 <= i < j < |r| ==> r[i] <= r[j]
  {
    IntLeIsTotalPreorder();
    var r := Sorting.SortBy(s, IntLe);
    assert forall i, j :: 0 <= i < j < |r| ==> IntLe(r[i], r[j]);
    r
  }

  /** `getMedian`: 0 without samples, otherwise the element at index
      `n / 2` of the sorted samples (the upper one of the two middle
      elements when `n` is even). */
  function Median(s: seq<int>): int
  {
    if |s| == 0 then 0 else SortInts(s)[|s| / 2]
  }

  /** The in-row indices from `lo` to `hi`, ascending. */
  function InBounds(width: int, lo: int, hi: int): (r: seq<int>)
    ensures forall j :: 0 <= j < |r| ==> lo <= r[j] <= hi && 0 <= r[j] < width
    decreases hi - lo
  {
    if hi < lo then [] else InBounds(width, lo, hi - 1) + (if 0 <= hi < width then [hi] else [])
  }

  /** The pixel indices the filter samples around `position`. */
  function Window(width: int, position: int, k: int): seq<int>
  {
    InBounds(width, position - k / 2, position + k / 2)
  }

  /** Channel `channel` of the pixels at `idx` in an RGBA row. */
  function Samples(row: seq<int>, idx: seq<int>, channel: int): (r: seq<int>)
    requires 0 <= channel < 4
    requires forall j :: 0 <= j < |idx| ==> 0 <= 4 * idx[j] + channel < |row|
    ensures |r| == |idx|
  {
    seq(|idx|, j requires 0 <= j < |idx| => row[4 * idx[j] + channel])
  }

  /** `getMedianPixel`: the median of each of the three colour channels
      over the window. */
  function MedianPixel(row: seq<int>, width: int, position: int, k: int): Color
    requires |row| == 4 * width
  {
    var w := Window(width, position, k);
    Color(Median(Samples(row, w, 0)), Median(Samples(row, w, 1)), Median(Samples(row, w, 2)))
  }

  /** The window holds exactly the in-row indices within `k / 2` of the
      position, each once, in ascending order. */
  lemma {:induction false} InBoundsExact(width: int, lo: int, hi: int)
    ensures forall i :: i in InBounds(width, lo, hi) <==> lo <= i <= hi && 0 <= i < width
    ensures forall a, b :: 0 <= a < b < |InBounds(width, lo, hi)| ==> InBounds(width, lo, hi)[a] < InBounds(width, lo, hi)[b]
    decreases hi - lo
  {
    if hi >= lo {
      var r := InBounds(width, lo, hi);
      var p := InBounds(width, lo, hi - 1);
      InBoundsExact(width, lo, hi - 1);
      if 0 <= hi < width {
        assert r == p + [hi];
        assert forall i :: i in r <==> i in p || i == hi;
        assert forall a :: 0 <= a < |p| ==> r[a] == p[a] && p[a] < hi;
      } else {
        assert r == p;
      }
    }
  }

  /** Number of samples below `m`. */
  function CountBelow(s: seq<int>, m: int): (n: nat)
    ensures n <= |s|
  {
    if s == [] then 0 else (if s[0] < m then 1 else 0) + CountBelow(s[1..], m)
  }

  /** Number of samples above `m`. */
  function CountAbove(s: seq<int>, m: int): (n: nat)
    ensures n <= |s|
  {
    if s == [] then 0 else (if s[0] > m then 1 else 0) + CountAbove(s[1..], m)
  }

  lemma {:induction false} CountSplit(a: seq<int>, b: seq<int>, m: int)
    ensures CountBelow(a + b, m) == CountBelow(a, m) + CountBelow(b, m)
    ensures CountAbove(a + b, m) == CountAbove(a, m) + CountAbove(b, m)
    decreases |a|
  {
    if a == [] {
      assert a + b == b;
    } else {
      assert (a + b)[1..] == a[1..] + b;
      CountSplit(a[1..], b, m);
    }
  }

  /** Counting does not depend on the order of the samples. */
  lemma {:induction false} CountPermutation(s: seq<int>, t: seq<int>, m: int)
    requires multiset(s) == multiset(t)
    ensures CountBelow(s, m) == CountBelow(t, m) && CountAbove(s, m) == CountAbove(t, m)
    decreases |s|
  {
    if s == [] {
      assert |t| == |multiset(t)| == 0;
    } else {
      var x := s[0];
      assert x in multiset(t);
      var j :| 0 <= j < |t| && t[j] == x;
      var rest := t[..j] + t[j + 1..];
      assert t == t[..j] + [x] + t[j + 1..];
      assert s == [x] + s[1..];
      assert multiset(t) == multiset(t[..j]) + multiset{x} + multiset(t[j + 1..]);
      assert multiset(s) == multiset{x} + multiset(s[1..]);
      assert multiset(rest) == multiset(t[..j]) + multiset(t[j + 1..]);
      forall y
        ensures multiset(s[1..])[y] == multiset(rest)[y]
      {
        assert multiset(s)[y] == multiset{x}[y] + multiset(s[1..])[y];
        assert multiset(t)[y] == multiset(t[..j])[y] + multiset{x}[y] + multiset(t[j + 1..])[y];
      }
      assert multiset(s[1..]) == multiset(rest);
      CountPermutation(s[1..], rest, m);
      CountSplit(t[..j] + [x], t[j + 1..], m);
      CountSplit(t[..j], [x], m);
      CountSplit(t[..j], t[j + 1..], m);
    }
  }

  /** In an ascending sequence, at most `j` elements lie below the one at
      `j`, and at most `|t| - 1 - j` above it. */
  lemma SortedRank(t: seq<int>, j: int)
    requires forall a, b :: 0 <= a < b < |t| ==> t[a] <= t[b]
    requires 0 <= j < |t|
    ensures CountBelow(t, t[j]) <= j
    ensures CountAbove(t, t[j]) <= |t| - 1 - j
  {
    RankBelow(t, j);
    RankAbove(t, j);
  }

  lemma RankBelow(t: seq<int>, j: int)
    requires forall a, b :: 0 <= a < b < |t| ==> t[a] <= t[b]
    requires 0 <= j < |t|
    ensures CountBelow(t, t[j]) <= j
  {
    assert t == t[..j] + t[j..];
    CountSplit(t[..j], t[j..], t[j]);
    NoneBelow(t[j..], t[j]);
  }

  lemma RankAbove(t: seq<int>, j: int)
    requires forall a, b :: 0 <= a < b < |t| ==> t[a] <= t[b]
    requires 0 <= j < |t|
    ensures CountAbove(t, t[j]) <= |t| - 1 - j
  {
    assert t == t[..j + 1] + t[j + 1..];
    CountSplit(t[..j + 1], t[j + 1..], t[j]);
    NoneAbove(t[..j + 1], t[j]);
  }

  lemma {:induction false} NoneBelow(s: seq<int>, m: int)
    requires forall i :: 0 <= i < |s| ==> s[i] >= m
    ensures CountBelow(s, m) == 0
    decreases |s|
  {
    if s != [] {
      NoneBelow(s[1..], m);
    }
  }

  lemma {:induction false} NoneAbove(s: seq<int>, m: int)
    requires forall i :: 0 <= i < |s| ==> s[i] <= m
    ensures CountAbove(s, m) == 0
    decreases |s|
  {
    if s != [] {
      NoneAbove(s[1..], m);
    }
  }

  /** The median is one of the samples, at most `n / 2` samples lie below
      it and at most `n - 1 - n / 2` above it. */
  lemma MedianRank(s: seq<int>)
    requires |s| > 0
    ensures Median(s) in s
    ensures CountBelow(s, Median(s)) <= |s| / 2
    ensures CountAbove(s, Median(s)) <= |s| - 1 - |s| / 2
  {
    var t := SortInts(s);
    assert t[|s| / 2] in multiset(t);
    SortedRank(t, |s| / 2);
    CountPermutation(s, t, Median(s));
  }

  lemma {:induction false} CountAboveAtLeast(s: seq<int>, m: int, c: int)
    requires m < c
    ensures CountAbove(s, m) >= multiset(s)[c]
    decreases |s|
  {
    if s != [] {
      assert s == [s[0]] + s[1..];
      CountAboveAtLeast(s[1..], m, c);
    }
  }

  lemma {:induction false} CountBelowAtLeast(s: seq<int>, m: int, c: int)
    requires c < m
    ensures CountBelow(s, m) >= multiset(s)[c]
    decreases |s|
  {
    if s != [] {
      assert s == [s[0]] + s[1..];
      CountBelowAtLeast(s[1..], m, c);
    }
  }

  /** When at most `(n - 1) / 2` of the `n` samples differ from `c`, the
      median is `c`: a minority of outliers cannot move it. */
  lemma MedianOfMajority(s: seq<int>, c: int)
    requires |s| > 0
    requires |s| - multiset(s)[c] <= (|s| - 1) / 2
    ensures Median(s) == c
  {
    var m := Median(s);
    MedianRank(s);
    if m < c {
      CountAboveAtLeast(s, m, c);
    } else if m > c {
      CountBelowAtLeast(s, m, c);
    }
  }

  lemma {:induction false} ConstantCount(s: seq<int>, c: int)
    requires forall i :: 0 <= i < |s| ==> s[i] == c
    ensures multiset(s)[c] == |s|
    decreases |s|
  {
    if s != [] {
      assert s == [s[0]] + s[1..];
      ConstantCount(s[1..], c);
    }
  }

  /** Equal samples have that value as their median. */
  lemma MedianOfConstant(s: seq<int>, c: int)
    requires |s| > 0
    requires forall i :: 0 <= i < |s| ==> s[i] == c
    ensures Median(s) == c
  {
    ConstantCount(s, c);
    MedianOfMajority(s, c);
  }

  /** Among three or more samples, one outlier does not change the median
      (with the default kernel of 7 a window holds up to seven samples). */
  lemma MedianIgnoresOutlier(s: seq<int>, c: int, j: int)
    requires |s| >= 3 && 0 <= j < |s|
    requires forall i :: 0 <= i < |s| && i != j ==> s[i] == c
    ensures Median(s) == c
  {
    assert s == s[..j] + [s[j]] + s[j + 1..];
    ConstantCount(s[..j], c);
    ConstantCount(s[j + 1..], c);
    assert multiset(s)[c] >= |s| - 1;
    MedianOfMajority(s, c);
  }
}
