/** The baseline calibrator: the pitch and roll angles observed while the
    device is held still are sorted separately, and the element at index
    `len / 2` of each (the upper of the two middles for an even count) is
    the zero-tilt baseline. The sampling window (how many readings fit in
    the calibration time) is decided by the clock and arrives here as the
    list of readings taken. */
module Calibration {
  import opened Wrappers

  /** A pitch and roll pair in degrees. */
  datatype Orientation = Orientation(pitch: real, roll: real)

  /** Why calibration can fail: with no reading in the window, indexing
      the empty sorted list raises. */
  datatype CalibrationError = EmptyWindow

  predicate Sorted(s: seq<real>) {
    forall i, j :: 0 <= i < j < |s| ==> s[i] <= s[j]
  }

  /** Number of elements of s strictly below x. */
  function CountLess(s: seq<real>, x: real): nat {
    if s == [] then 0 else (if s[0] < x then 1 else 0) + CountLess(s[1..], x)
  }

  /** Number of elements of s at most x. */
  function CountAtMost(s: seq<real>, x: real): nat {
    if s == [] then 0 else (if s[0] <= x then 1 else 0) + CountAtMost(s[1..], x)
  }

  /** Number of elements of s at least x. */
  function CountAtLeast(s: seq<real>, x: real): nat {
    if s == [] then 0 else (if s[0] >= x then 1 else 0) + CountAtLeast(s[1..], x)
  }

  /** Inserts x into a sorted sequence, before the first larger element. */
  function Insert(x: real, s: seq<real>): (r: seq<real>)
    requires Sorted(s)
    ensures Sorted(r)
    ensures |r| == |s| + 1
    ensures multiset(r) == multiset(s) + multiset{x}
    ensures forall i :: 0 <= i < |r| ==> r[i] == x || (s != [] && s[0] <= r[i])
  {
    if s == [] then [x]
    else if x <= s[0] then [x] + s
    else
      var t := Insert(x, s[1..]);
      assert [s[0]] + s[1..] == s;
      [s[0]] + t
  }

  /** Inserting x adds one to exactly the counts that x itself meets. */
  lemma {:induction false} InsertCounts(x: real, s: seq<real>, y: real)
    requires Sorted(s)
    ensures CountLess(Insert(x, s), y) == CountLess(s, y) + (if x < y then 1 else 0)
    ensures CountAtMost(Insert(x, s), y) == CountAtMost(s, y) + (if x <= y then 1 else 0)
  {
    if s != [] && x > s[0] {
      InsertCounts(x, s[1..], y);
      assert ([s[0]] + Insert(x, s[1..]))[1..] == Insert(x, s[1..]);
    } else if s != [] {
      assert ([x] + s)[1..] == s;
    }
  }

  /** Sorts in ascending order, as the list's `sort` does: the result is an
      ascending permutation of the input. */
  function Sort(s: seq<real>): (r: seq<real>)
    ensures Sorted(r)
    ensures |r| == |s|
    ensures multiset(r) == multiset(s)
  {
    if s == [] then []
    else
      assert s == [s[0]] + s[1..];
      Insert(s[0], Sort(s[1..]))
  }

  /** Sorting leaves every count unchanged. */
  lemma {:induction false} SortCounts(s: seq<real>, y: real)
    ensures CountLess(Sort(s), y) == CountLess(s, y)
    ensures CountAtMost(Sort(s), y) == CountAtMost(s, y)
  {
    if s != [] {
      SortCounts(s[1..], y);
      InsertCounts(s[0], Sort(s[1..]), y);
    }
  }

  /** Every element is either below x or at least x. */
  lemma {:induction false} LessOrAtLeast(s: seq<real>, x: real)
    ensures CountLess(s, x) + CountAtLeast(s, x) == |s|
  {
    if s != [] {
      LessOrAtLeast(s[1..], x);
    }
  }

  /** When the first n elements are all at most x, at least n are. */
  lemma {:induction false} AtMostFromPrefix(s: seq<real>, x: real, n: nat)
    requires n <= |s|
    requires forall i :: 0 <= i < n ==> s[i] <= x
    ensures CountAtMost(s, x) >= n
  {
    if n > 0 {
      AtMostFromPrefix(s[1..], x, n - 1);
    }
  }

  /** When every element from index n on exceeds x, at most n are at most x. */
  lemma {:induction false} AtMostFromSuffix(s: seq<real>, x: real, n: nat)
    requires n <= |s|
    requires forall i :: n <= i < |s| ==> s[i] > x
    ensures CountAtMost(s, x) <= n
  {
    if s != [] {
      if n == 0 {
        AtMostFromSuffix(s[1..], x, 0);
      } else {
        AtMostFromSuffix(s[1..], x, n - 1);
      }
    }
  }

  /** When the first n elements are all below x, at least n are. */
  lemma {:induction false} LessFromPrefix(s: seq<real>, x: real, n: nat)
    requires n <= |s|
    requires forall i :: 0 <= i < n ==> s[i] < x
    ensures CountLess(s, x) >= n
  {
    if n > 0 {
      LessFromPrefix(s[1..], x, n - 1);
    }
  }

  /** When every element from index n on is at least x, at most n are below it. */
  lemma {:induction false} LessFromSuffix(s: seq<real>, x: real, n: nat)
    requires n <= |s|
    requires forall i :: n <= i < |s| ==> s[i] >= x
    ensures CountLess(s, x) <= n
  {
    if s != [] {
      if n == 0 {
        LessFromSuffix(s[1..], x, 0);
      } else {
        LessFromSuffix(s[1..], x, n - 1);
      }
    }
  }

  /** Everything at most a is below any b greater than a. */
  lemma {:induction false} CountMonotone(s: seq<real>, a: real, b: real)
    requires a < b
    ensures CountAtMost(s, a) <= CountLess(s, b)
  {
    if s != [] {
      CountMonotone(s[1..], a, b);
    }
  }

  /** m is the element of rank k of s (counting from 0 in ascending order):
      at most k elements lie strictly below m and more than k lie at or
      below it. This does not mention sorting. */
  predicate IsRank(s: seq<real>, k: nat, m: real) {
    CountLess(s, m) <= k < CountAtMost(s, m)
  }

  /** In a sorted sequence the element at index k has rank k. */
  lemma SortedElementRank(r: seq<real>, k: nat)
    requires Sorted(r) && k < |r|
    ensures CountLess(r, r[k]) <= k < CountAtMost(r, r[k])
  {
    LessFromSuffix(r, r[k], k);
    AtMostFromPrefix(r, r[k], k + 1);
  }

  /** In a sorted sequence no value other than the element at index k has
      rank k. */
  lemma SortedRankUnique(r: seq<real>, k: nat, m: real)
    requires Sorted(r) && k < |r|
    requires CountLess(r, m) <= k < CountAtMost(r, m)
    ensures m == r[k]
  {
    if m < r[k] {
      AtMostFromSuffix(r, m, k);
    } else if m > r[k] {
      LessFromPrefix(r, m, k + 1);
    }
  }

  /** The element at index k of the sorted sequence has rank k, and it is
      the only value that does. */
  lemma SortedIndexIsRank(s: seq<real>, k: nat, m: real)
    requires k < |s|
    ensures IsRank(s, k, Sort(s)[k])
    ensures IsRank(s, k, m) ==> m == Sort(s)[k]
  {
    var r := Sort(s);
    SortCounts(s, r[k]);
    SortCounts(s, m);
    SortedElementRank(r, k);
    if IsRank(s, k, m) {
      SortedRankUnique(r, k, m);
    }
  }

  /** Only one value has a given rank. */
  lemma RankUnique(s: seq<real>, k: nat, m: real, m': real)
    requires k < |s|
    requires IsRank(s, k, m) && IsRank(s, k, m')
    ensures m == m'
  {
    SortedIndexIsRank(s, k, m);
    SortedIndexIsRank(s, k, m');
  }

  /** The median as the calibrator takes it: the element at index
      `len / 2` of the sorted samples. It is one of the samples, more than
      half of the samples are at or below it, and at least as many as lie
      above the middle index are at or above it. */
  function Median(s: seq<real>): (m: real)
    requires |s| > 0
    ensures m in s
    ensures IsRank(s, |s| / 2, m)
    ensures CountAtMost(s, m) >= |s| / 2 + 1
    ensures CountAtLeast(s, m) >= |s| - |s| / 2
  {
    var r := Sort(s);
    assert r[|s| / 2] in multiset(s);
    SortedIndexIsRank(s, |s| / 2, r[|s| / 2]);
    LessOrAtLeast(s, r[|s| / 2]);
    r[|s| / 2]
  }

  /** On a constant stream the median is that constant. */
  lemma MedianOfConstant(s: seq<real>, c: real)
    requires |s| > 0
    requires forall i :: 0 <= i < |s| ==> s[i] == c
    ensures Median(s) == c
  {
  }

  /** When every element except the one at index k is at most x, all but
      at most one are at most x. */
  lemma {:induction false} AllButOneAtMost(s: seq<real>, k: nat, x: real)
    requires k < |s|
    requires forall i :: 0 <= i < |s| && i != k ==> s[i] <= x
    ensures CountAtMost(s, x) >= |s| - 1
  {
    if k == 0 {
      AtMostFromPrefix(s[1..], x, |s| - 1);
    } else {
      AllButOneAtMost(s[1..], k - 1, x);
    }
  }

  /** When every element except the one at index k is at least x, all but
      at most one are at least x. */
  lemma {:induction false} AllButOneAtLeast(s: seq<real>, k: nat, x: real)
    requires k < |s|
    requires forall i :: 0 <= i < |s| && i != k ==> s[i] >= x
    ensures CountAtLeast(s, x) >= |s| - 1
  {
    if k == 0 {
      LessFromSuffix(s[1..], x, 0);
      LessOrAtLeast(s[1..], x);
    } else {
      AllButOneAtLeast(s[1..], k - 1, x);
    }
  }

  /** A single outlier cannot move the median out of the range of the other
      samples once there are at least three of them in all (a mean would
      be dragged arbitrarily far). */
  lemma MedianResistsOutlier(s: seq<real>, k: nat, lo: real, hi: real)
    requires |s| >= 3 && k < |s|
    requires forall i :: 0 <= i < |s| && i != k ==> lo <= s[i] <= hi
    ensures lo <= Median(s) <= hi
  {
    var m := Median(s);
    if m > hi {
      AllButOneAtMost(s, k, hi);
      CountMonotone(s, hi, m);
    } else if m < lo {
      AllButOneAtLeast(s, k, lo);
      CountMonotone(s, m, lo);
      LessOrAtLeast(s, lo);
    }
  }

  /** The pitch angles of a window of readings, in reading order. */
  function Pitches(window: seq<Orientation>): (ps: seq<real>)
    ensures |ps| == |window|
    ensures forall i :: 0 <= i < |window| ==> ps[i] == window[i].pitch
  {
    if window == [] then [] else [window[0].pitch] + Pitches(window[1..])
  }

  /** The roll angles of a window of readings, in reading order. */
  function Rolls(window: seq<Orientation>): (rs: seq<real>)
    ensures |rs| == |window|
    ensures forall i :: 0 <= i < |window| ==> rs[i] == window[i].roll
  {
    if window == [] then [] else [window[0].roll] + Rolls(window[1..])
  }

  /** Derives the baseline from the readings taken during the calibration
      window: the median pitch and the median roll, each taken on its own.
      An empty window fails, as the source's index into an empty list does. */
  function CalibrateBaseline(window: seq<Orientation>): (r: Result<Orientation, CalibrationError>)
    ensures r.Failure? <==> window == []
    ensures r.Success? ==> exists i :: 0 <= i < |window| && r.value.pitch == window[i].pitch
    ensures r.Success? ==> exists j :: 0 <= j < |window| && r.value.roll == window[j].roll
    ensures r.Success? ==> IsRank(Pitches(window), |window| / 2, r.value.pitch)
    ensures r.Success? ==> IsRank(Rolls(window), |window| / 2, r.value.roll)
  {
    if window == [] then Failure(EmptyWindow)
    else
      var p0 := Median(Pitches(window));
      var r0 := Median(Rolls(window));
      Success(Orientation(p0, r0))
  }

  /** A non-empty window calibrates to its median pitch and median roll. */
  lemma CalibrateIsMedians(window: seq<Orientation>)
    requires window != []
    ensures CalibrateBaseline(window) == Success(Orientation(Median(Pitches(window)), Median(Rolls(window))))
  {
  }

  /** Holding perfectly still yields exactly the held orientation. */
  lemma CalibrateConstant(window: seq<Orientation>, o: Orientation)
    requires |window| > 0
    requires forall i :: 0 <= i < |window| ==> window[i] == o
    ensures CalibrateBaseline(window) == Success(o)
  {
    MedianOfConstant(Pitches(window), o.pitch);
    MedianOfConstant(Rolls(window), o.roll);
  }

  /** The counts of a three-element sequence, spelled out. */
  lemma CountsOfThree(a: real, b: real, c: real, y: real)
    ensures CountLess([a, b, c], y) == (if a < y then 1 else 0) + (if b < y then 1 else 0) + (if c < y then 1 else 0)
    ensures CountAtMost([a, b, c], y) == (if a <= y then 1 else 0) + (if b <= y then 1 else 0) + (if c <= y then 1 else 0)
  {
    assert [a, b, c][1..] == [b, c];
    assert [b, c][1..] == [c];
    assert [c][1..] == [];
    assert CountLess([c], y) == (if c < y then 1 else 0);
    assert CountLess([b, c], y) == (if b < y then 1 else 0) + CountLess([c], y);
    assert CountAtMost([c], y) == (if c <= y then 1 else 0);
    assert CountAtMost([b, c], y) == (if b <= y then 1 else 0) + CountAtMost([c], y);
  }

  /** The middle of three distinct values is their median, in whichever
      of the six orders they arrive. */
  lemma MedianOfThree(s: seq<real>, a: real, b: real, c: real)
    requires a < b < c
    requires || s == [a, b, c] || s == [b, a, c] || s == [a, c, b]
             || s == [c, b, a] || s == [b, c, a] || s == [c, a, b]
    ensures Median(s) == b
  {
    CountsOfThree(s[0], s[1], s[2], b);
    assert s == [s[0], s[1], s[2]];
    RankUnique(s, 1, Median(s), b);
  }

  /** Pitch and roll are calibrated independently, so the baseline need
      not be any single orientation that was observed: with a < b < c, the
      readings (a, b), (b, a) and (c, c) calibrate to (b, b). */
  lemma BaselineNeedNotBeObserved(w: seq<Orientation>, a: real, b: real, c: real)
    requires a < b < c
    requires w == [Orientation(a, b), Orientation(b, a), Orientation(c, c)]
    ensures CalibrateBaseline(w) == Success(Orientation(b, b))
    ensures Orientation(b, b) !in w
  {
    var ps, rs := Pitches(w), Rolls(w);
    assert ps[0] == a && ps[1] == b && ps[2] == c;
    assert ps == [a, b, c];
    assert rs[0] == b && rs[1] == a && rs[2] == c;
    assert rs == [b, a, c];
    MedianOfThree(ps, a, b, c);
    MedianOfThree(rs, a, b, c);
    CalibrateIsMedians(w);
  }
}
