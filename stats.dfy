/**
  Robust statistics over float64 series (stats/median.go,
  stats/deviations.go, stats/MAD.go, stats/hampel.go), with float64 taken as
  exact real arithmetic. Series are passed by value; the buffers the source
  allocates and sorts or writes in place are arrays.
 */
module Stats {
  import opened Wrappers

  /** The error of a median of no numbers. */
  datatype StatsError = ErrEmptyInput

  /** The scale factor that makes the MAD a consistent estimator of a Gaussian's standard deviation. */
  const K: real := 1.4826

  function Abs(x: real): (r: real)
    ensures r >= 0.0 && (r == x || r == -x)
  {
    if x < 0.0 then -x else x
  }

  predicate Sorted(s: seq<real>) {
    forall i, j :: 0 <= i < j < |s| ==> s[i] <= s[j]
  }

  // ----- Sorting (stats/median.go `copySlice`, `sortedCopy`) -----

  /** x inserted into s before the first element not below it. */
  function Insert(x: real, s: seq<real>): (r: seq<real>)
    ensures |r| == |s| + 1
  {
    if |s| == 0 then [x]
    else if x <= s[0] then [x] + s
    else [s[0]] + Insert(x, s[1..])
  }

  /** Insertion adds exactly x. */
  lemma {:induction false} InsertPermutes(x: real, s: seq<real>)
    ensures multiset(Insert(x, s)) == multiset(s) + multiset{x}
  {
    if |s| > 0 && x > s[0] {
      var t := s[1..];
      assert s == [s[0]] + t;
      InsertPermutes(x, t);
      assert Insert(x, s) == [s[0]] + Insert(x, t);
    } else if |s| > 0 {
      assert Insert(x, s) == [x] + s;
    }
  }

  /** Insertion into a sorted sequence keeps it sorted. */
  lemma {:induction false} InsertSorted(x: real, s: seq<real>)
    requires Sorted(s)
    ensures Sorted(Insert(x, s))
  {
    if |s| > 0 && x > s[0] {
      var t := s[1..];
      assert s == [s[0]] + t;
      InsertSorted(x, t);
      InsertPermutes(x, t);
      var r := Insert(x, t);
      assert Insert(x, s) == [s[0]] + r;
      forall i | 0 <= i < |r| ensures s[0] <= r[i] {
        assert r[i] in multiset(r);
        if r[i] != x {
          assert r[i] in multiset(t);
          var k :| 0 <= k < |t| && t[k] == r[i];
          assert s[k + 1] == r[i];
        }
      }
    }
  }

  /** The insertion sort of s, taken as the definition of its sorted permutation. */
  function SortSpec(s: seq<real>): (r: seq<real>)
    ensures |r| == |s|
  {
    if |s| == 0 then [] else Insert(s[|s| - 1], SortSpec(s[..|s| - 1]))
  }

  /** `SortSpec(s)` is sorted and a permutation of s. */
  lemma {:induction false} SortSpecSorted(s: seq<real>)
    ensures Sorted(SortSpec(s)) && multiset(SortSpec(s)) == multiset(s)
  {
    if |s| > 0 {
      var init := s[..|s| - 1];
      assert s == init + [s[|s| - 1]];
      SortSpecSorted(init);
      InsertSorted(s[|s| - 1], SortSpec(init));
      InsertPermutes(s[|s| - 1], SortSpec(init));
    }
  }

  /** The first element of a sorted sequence is its least. */
  lemma SortedHeadLeast(a: seq<real>, y: real)
    requires Sorted(a) && y in multiset(a)
    ensures a[0] <= y
  {
    var j :| 0 <= j < |a| && a[j] == y;
  }

  /** Removing the first element. */
  lemma TailMultiset(a: seq<real>)
    requires |a| > 0
    ensures multiset(a[1..]) == multiset(a) - multiset{a[0]}
    ensures Sorted(a) ==> Sorted(a[1..])
  {
    assert a == [a[0]] + a[1..];
  }

  /** Two non-empty sorted sequences with the same elements start alike. */
  lemma SortedHeadsEqual(a: seq<real>, b: seq<real>)
    requires Sorted(a) && Sorted(b) && multiset(a) == multiset(b) && |a| > 0
    ensures |b| > 0 && a[0] == b[0]
  {
    assert a[0] in multiset(b);
    assert |b| > 0;
    assert b[0] in multiset(a);
    SortedHeadLeast(a, b[0]);
    SortedHeadLeast(b, a[0]);
  }

  /** Two sorted sequences with the same elements are equal. */
  lemma {:induction false} SortedUnique(a: seq<real>, b: seq<real>)
    requires Sorted(a) && Sorted(b) && multiset(a) == multiset(b)
    ensures a == b
    decreases |a|
  {
    if |a| == 0 {
      assert |multiset(b)| == 0;
    } else {
      SortedHeadsEqual(a, b);
      TailMultiset(a);
      TailMultiset(b);
      SortedUnique(a[1..], b[1..]);
      assert a == [a[0]] + a[1..];
      assert b == [b[0]] + b[1..];
    }
  }

  /** `copySlice`: a fresh buffer holding the input's elements. */
  method CopySlice(input: seq<real>) returns (s: array<real>)
    ensures fresh(s) && s[..] == input
  {
    s := new real[|input|];
    for i := 0 to |input|
      invariant s[..i] == input[..i]
    {
      s[i] := input[i];
    }
  }

  /** `sort.Float64s`: sorts the buffer in place (an insertion sort by adjacent swaps). */
  method SortInPlace(a: array<real>)
    modifies a
    ensures Sorted(a[..]) && multiset(a[..]) == multiset(old(a[..]))
  {
    var i := 0;
    while i < a.Length
      invariant 0 <= i <= a.Length
      invariant forall p, q :: 0 <= p < q < i ==> a[p] <= a[q]
      invariant multiset(a[..]) == multiset(old(a[..]))
    {
      SinkInto(a, i);
      i := i + 1;
    }
  }

  /** One insertion step: moves a[i] down into the sorted prefix a[..i], leaving a[..i+1] sorted. */
  method SinkInto(a: array<real>, i: nat)
    modifies a
    requires i < a.Length
    requires forall p, q :: 0 <= p < q < i ==> a[p] <= a[q]
    ensures forall p, q :: 0 <= p < q <= i ==> a[p] <= a[q]
    ensures multiset(a[..]) == multiset(old(a[..]))
  {
    var j := i;
    while j > 0 && a[j - 1] > a[j]
      invariant 0 <= j <= i
      invariant forall p, q :: 0 <= p < q <= i && p != j && q != j ==> a[p] <= a[q]
      invariant forall q :: j < q <= i ==> a[j] <= a[q]
      invariant multiset(a[..]) == multiset(old(a[..]))
    {
      a[j - 1], a[j] := a[j], a[j - 1];
      j := j - 1;
    }
  }

  /** `sortedCopy`: a fresh buffer holding the sorted permutation of the input. */
  method SortedCopy(input: seq<real>) returns (c: array<real>)
    ensures fresh(c) && c[..] == SortSpec(input)
    ensures Sorted(c[..]) && multiset(c[..]) == multiset(input)
  {
    c := CopySlice(input);
    SortInPlace(c);
    SortSpecSorted(input);
    SortedUnique(c[..], SortSpec(input));
  }

  // ----- Median (stats/median.go) -----

  /** The middle element of a sorted sequence of odd length, or the mean of the two middle ones. */
  function Middle(c: seq<real>): real
    requires |c| > 0
  {
    var middle := |c| / 2;
    if |c| % 2 == 0 then (c[middle - 1] + c[middle]) / 2.0 else c[middle]
  }

  /** `Median`: an error for no numbers, else the middle of the sorted copy. */
  function Median(input: seq<real>): (r: Result<real, StatsError>)
    ensures r.Failure? <==> |input| == 0
    ensures r.Failure? ==> r.error == ErrEmptyInput
  {
    if |input| == 0 then Failure(ErrEmptyInput)
    else Success(Middle(SortSpec(input)))
  }

  /**
    The median is the middle of any sorted arrangement of the input: the
    element at l/2 for odd length l, the mean of those at l/2-1 and l/2 for
    even length.
   */
  lemma MedianOfSorted(input: seq<real>, c: seq<real>)
    requires Sorted(c) && multiset(c) == multiset(input) && |input| > 0
    ensures |c| == |input|
    ensures |input| % 2 == 1 ==> Median(input) == Success(c[|input| / 2])
    ensures |input| % 2 == 0 ==> Median(input) == Success((c[|input| / 2 - 1] + c[|input| / 2]) / 2.0)
  {
    SortedIsSortSpec(input, c);
  }

  /** Any sorted arrangement of the input is its sorted permutation. */
  lemma SortedIsSortSpec(input: seq<real>, c: seq<real>)
    requires Sorted(c) && multiset(c) == multiset(input)
    ensures c == SortSpec(input)
  {
    SortSpecSorted(input);
    SortedUnique(c, SortSpec(input));
  }

  /** The median lies between the input's smallest and largest elements. */
  lemma MedianWithin(input: seq<real>, lo: real, hi: real)
    requires forall i :: 0 <= i < |input| ==> lo <= input[i] <= hi
    requires |input| > 0
    ensures lo <= Median(input).value <= hi
  {
    var c := SortSpec(input);
    SortSpecSorted(input);
    forall k | 0 <= k < |c| ensures lo <= c[k] <= hi {
      assert c[k] in multiset(input);
    }
  }

  /** The median of 5,3,4,2,1 is 3. */
  lemma MedianOddVector()
    ensures Median([5.0, 3.0, 4.0, 2.0, 1.0]) == Success(3.0)
  {
    OddVectorSorted();
    MedianOfSorted([5.0, 3.0, 4.0, 2.0, 1.0], [1.0, 2.0, 3.0, 4.0, 5.0]);
  }

  /** 1,...,5 is an arrangement of 5,3,4,2,1. */
  lemma OddVectorSorted()
    ensures multiset([1.0, 2.0, 3.0, 4.0, 5.0]) == multiset([5.0, 3.0, 4.0, 2.0, 1.0])
  {
  }

  /** 1,...,6 is sorted. */
  lemma EvenVectorSorted()
    ensures Sorted([1.0, 2.0, 3.0, 4.0, 5.0, 6.0])
  {
  }

  /** 1,...,6 is an arrangement of 6,3,2,4,5,1. */
  lemma EvenVectorArranged()
    ensures multiset([1.0, 2.0, 3.0, 4.0, 5.0, 6.0]) == multiset([6.0, 3.0, 2.0, 4.0, 5.0, 1.0])
  {
  }

  /** The median of 6,3,2,4,5,1 is 3.5. */
  lemma MedianEvenVector()
    ensures Median([6.0, 3.0, 2.0, 4.0, 5.0, 1.0]) == Success(3.5)
  {
    var input, c := [6.0, 3.0, 2.0, 4.0, 5.0, 1.0], [1.0, 2.0, 3.0, 4.0, 5.0, 6.0];
    EvenVectorSorted();
    EvenVectorArranged();
    MedianOfSorted(input, c);
    assert (c[2] + c[3]) / 2.0 == 3.5;
  }

  /** The median of 1 is 1, of 1,3 it is 2, and of no numbers it is an error. */
  lemma MedianShortVectors()
    ensures Median([1.0]) == Success(1.0)
    ensures Median([1.0, 3.0]) == Success(2.0)
    ensures Median([]) == Failure(ErrEmptyInput)
  {
    MedianOfSorted([1.0, 3.0], [1.0, 3.0]);
  }

  // ----- Deviations and MAD (stats/deviations.go, stats/MAD.go) -----

  /** The absolute difference between each element and x. */
  function Deviations(series: seq<real>, x: real): (d: seq<real>)
    ensures |d| == |series|
    ensures forall i :: 0 <= i < |d| ==> d[i] >= 0.0
  {
    seq(|series|, i requires 0 <= i < |series| => Abs(series[i] - x))
  }

  /** `AbsoluteDeviation`: fills a fresh slice with |series[i] - x|. */
  method AbsoluteDeviation(series: seq<real>, x: real) returns (r: seq<real>)
    ensures |r| == |series|
    ensures forall i :: 0 <= i < |r| ==> r[i] >= 0.0 && (r[i] == series[i] - x || r[i] == x - series[i])
    ensures r == Deviations(series, x)
  {
    var s := new real[|series|];
    for i := 0 to |series|
      invariant forall j :: 0 <= j < i ==> s[j] == Abs(series[j] - x)
    {
      s[i] := Abs(series[i] - x);
    }
    r := s[..];
  }

  /** `MAD`: the median of the absolute deviations around `central`. */
  function MAD(series: seq<real>, central: real): (r: Result<real, StatsError>)
    ensures r.Failure? <==> |series| == 0
    ensures r.Success? ==> r.value >= 0.0
  {
    var d := Deviations(series, central);
    if |d| > 0 then MedianWithin(d, 0.0, Max(d)); Median(d) else Median(d)
  }

  /** The largest element of a non-empty sequence. */
  function Max(s: seq<real>): (m: real)
    requires |s| > 0
    ensures forall i :: 0 <= i < |s| ==> s[i] <= m
  {
    if |s| == 1 then s[0]
    else
      var m := Max(s[..|s| - 1]);
      assert forall i :: 0 <= i < |s| - 1 ==> s[..|s| - 1][i] == s[i];
      if s[|s| - 1] > m then s[|s| - 1] else m
  }

  datatype Spread = Spread(mad: real, median: real)

  /** `MMAD`: the median and the MAD around it, or the error of an empty series. */
  function MMAD(series: seq<real>): (r: Result<Spread, StatsError>)
    ensures r.Failure? <==> |series| == 0
    ensures r.Success? ==> Median(series) == Success(r.value.median)
    ensures r.Success? ==> MAD(series, r.value.median) == Success(r.value.mad) && r.value.mad >= 0.0
  {
    match Median(series)
    case Failure(e) => Failure(e)
    case Success(median) =>
      match MAD(series, median)
      case Failure(e) => Failure(e)
      case Success(mad) => Success(Spread(mad, median))
  }

  // ----- Hampel filter (stats/hampel.go) -----

  datatype HampelOut = HampelOut(newSeries: seq<real>, indexes: seq<int>)

  /** Position i has a full window: i in [wSize, n - wSize). */
  predicate Examined(n: nat, w: nat, i: int) {
    w <= i < n - w
  }

  /** The window of position i: the 2·w elements series[i-w .. i+w) of the original series. */
  function Window(series: seq<real>, w: nat, i: nat): (win: seq<real>)
    requires Examined(|series|, w, i)
    ensures |win| == 2 * w
  {
    series[i - w..i + w]
  }

  /**
    `float64(nSigmas) * x`, written as repeated addition so that the solver
    sees no product of two unknowns; `ScaledIsProduct` shows it is the product.
   */
  function Scaled(n: int, x: real): real
    decreases if n < 0 then -n else n
  {
    if n == 0 then 0.0 else if n > 0 then Scaled(n - 1, x) + x else Scaled(n + 1, x) - x
  }

  /** `Scaled(n, x)` is n·x. */
  lemma {:induction false} ScaledIsProduct(n: int, x: real)
    ensures Scaled(n, x) == n as real * x
    decreases if n < 0 then -n else n
  {
    if n > 0 {
      ScaledIsProduct(n - 1, x);
    } else if n < 0 {
      ScaledIsProduct(n + 1, x);
    }
  }

  /** Whether position i differs from its window median by more than nSigmas·K·MAD of the window. */
  predicate IsOutlier(series: seq<real>, w: nat, nSigmas: int, i: nat)
    requires Examined(|series|, w, i)
  {
    match MMAD(Window(series, w, i))
    case Failure(_) => false
    case Success(sp) => Abs(series[i] - sp.median) > Scaled(nSigmas, K * sp.mad)
  }

  /** The window median of an examined position of a positive window size. */
  function WindowMedian(series: seq<real>, w: nat, i: nat): real
    requires w >= 1 && Examined(|series|, w, i)
  {
    Median(Window(series, w, i)).value
  }

  /** The series with every position j below hi where p(j) holds replaced by m(j). */
  function Replaced(series: seq<real>, p: int -> bool, m: int -> real, hi: int): (f: seq<real>)
    ensures |f| == |series|
  {
    seq(|series|, j requires 0 <= j < |series| => if j < hi && p(j) then m(j) else series[j])
  }

  /** Extending the replaced range by position i replaces at most that position. */
  lemma ReplacedStep(series: seq<real>, p: int -> bool, m: int -> real, i: int)
    requires 0 <= i < |series|
    ensures Replaced(series, p, m, i + 1) == if p(i) then Replaced(series, p, m, i)[i := m(i)] else Replaced(series, p, m, i)
  {
  }

  /** The window median of each examined position, for a positive window size. */
  function MedianAt(series: seq<real>, w: nat): int -> real {
    j => if w >= 1 && Examined(|series|, w, j) then WindowMedian(series, w, j) else 0.0
  }

  /** The filtered series: outliers replaced by their window median, every other position as in the input. */
  function Filtered(series: seq<real>, w: nat, nSigmas: int): (f: seq<real>)
    ensures |f| == |series|
    ensures forall j :: 0 <= j < |series| && !Examined(|series|, w, j) ==> f[j] == series[j]
  {
    Replaced(series, OutlierTest(series, w, nSigmas), MedianAt(series, w), |series|)
  }

  /** The positions j in [lo, hi) with p(j), ascending. */
  function Positions(p: int -> bool, lo: int, hi: int): seq<int>
    decreases hi - lo
  {
    if hi <= lo then [] else Positions(p, lo, hi - 1) + (if p(hi - 1) then [hi - 1] else [])
  }

  /** The positions are strictly increasing, lie in [lo, hi), and are exactly those where p holds. */
  lemma {:induction false} PositionsFacts(p: int -> bool, lo: int, hi: int)
    ensures forall a, b :: 0 <= a < b < |Positions(p, lo, hi)| ==> Positions(p, lo, hi)[a] < Positions(p, lo, hi)[b]
    ensures forall a :: 0 <= a < |Positions(p, lo, hi)| ==> lo <= Positions(p, lo, hi)[a] < hi && p(Positions(p, lo, hi)[a])
    ensures forall j :: lo <= j < hi && p(j) ==> j in Positions(p, lo, hi)
    decreases hi - lo
  {
    if hi > lo {
      PositionsFacts(p, lo, hi - 1);
      var prev := Positions(p, lo, hi - 1);
      var ix := Positions(p, lo, hi);
      assert forall a :: 0 <= a < |prev| ==> ix[a] == prev[a];
    }
  }

  /** The test the filter applies at position j. */
  function OutlierTest(series: seq<real>, w: nat, nSigmas: int): int -> bool {
    j => Examined(|series|, w, j) && IsOutlier(series, w, nSigmas, j)
  }

  /** The outlier positions in [w, hi), ascending. */
  function Outliers(series: seq<real>, w: nat, nSigmas: int, hi: int): seq<int> {
    Positions(OutlierTest(series, w, nSigmas), w, hi)
  }

  /** The reported outlier positions are strictly increasing, examined, and exactly the outliers. */
  lemma OutliersFacts(series: seq<real>, w: nat, nSigmas: int)
    ensures var ix := Outliers(series, w, nSigmas, |series| - w);
      && (forall a, b :: 0 <= a < b < |ix| ==> ix[a] < ix[b])
      && (forall a :: 0 <= a < |ix| ==> w <= ix[a] < |series| - w && IsOutlier(series, w, nSigmas, ix[a]))
      && (forall j :: Examined(|series|, w, j) ==> (IsOutlier(series, w, nSigmas, j) <==> j in ix))
  {
    FilterDescribed(series, w, nSigmas);
    DescribedPositions(series, w, nSigmas, OutlierTest(series, w, nSigmas), MedianAt(series, w));
  }

  /** The positions of a test that describes the filter are increasing, examined, and exactly the outliers. */
  lemma DescribedPositions(series: seq<real>, w: nat, nSigmas: int, test: int -> bool, median: int -> real)
    requires Describes(series, w, nSigmas, test, median)
    ensures var ix := Positions(test, w, |series| - w);
      && (forall a, b :: 0 <= a < b < |ix| ==> ix[a] < ix[b])
      && (forall a :: 0 <= a < |ix| ==> w <= ix[a] < |series| - w && IsOutlier(series, w, nSigmas, ix[a]))
      && (forall j :: Examined(|series|, w, j) ==> (IsOutlier(series, w, nSigmas, j) <==> j in ix))
  {
    PositionsFacts(test, w, |series| - w);
  }

  /** At an examined position the filter's test is the source's comparison against the window's MMAD. */
  lemma OutlierTestAt(series: seq<real>, w: nat, nSigmas: int, i: nat, sp: Spread)
    requires Examined(|series|, w, i) && MMAD(Window(series, w, i)) == Success(sp)
    ensures IsOutlier(series, w, nSigmas, i) <==> Abs(series[i] - sp.median) > Scaled(nSigmas, K * sp.mad)
    ensures w >= 1 && WindowMedian(series, w, i) == sp.median
  {
  }

  /**
    test holds only at examined positions, and there test and median agree
    with the outlier test and the window median. The triggers keep the two definitions apart
    until a position's window is actually examined.
   */
  ghost predicate Describes(series: seq<real>, w: nat, nSigmas: int, test: int -> bool, median: int -> real) {
    && (forall j :: !Examined(|series|, w, j) ==> !test(j))
    && (forall j {:trigger IsOutlier(series, w, nSigmas, j)} ::
          Examined(|series|, w, j) ==> (test(j) <==> IsOutlier(series, w, nSigmas, j)))
    && (forall j {:trigger WindowMedian(series, w, j)} ::
          w >= 1 && Examined(|series|, w, j) ==> median(j) == WindowMedian(series, w, j))
  }

  /** The filter's own test and replacement are described by the outlier test and the window median. */
  lemma FilterDescribed(series: seq<real>, w: nat, nSigmas: int)
    ensures Describes(series, w, nSigmas, OutlierTest(series, w, nSigmas), MedianAt(series, w))
  {
  }

  /** The filter's test fails at every position that is not examined. */
  lemma TestOnlyExamined(series: seq<real>, w: nat, nSigmas: int)
    ensures forall j :: !Examined(|series|, w, j) ==> !OutlierTest(series, w, nSigmas)(j)
  {
  }

  /** Extending the range by position i appends i exactly when p holds there. */
  lemma PositionsStep(p: int -> bool, lo: int, i: int)
    requires i >= lo
    ensures Positions(p, lo, i + 1) == Positions(p, lo, i) + (if p(i) then [i] else [])
  {
  }

  /**
    One iteration of the loop of `Hampel` at position i: the MMAD of the
    window, or its error, and the window median when position i is an outlier.
   */
  method Examine(series: seq<real>, w: nat, nSigmas: int, i: nat) returns (r: Result<Option<real>, StatsError>)
    requires Examined(|series|, w, i)
    ensures r.Failure? <==> w == 0
    ensures r.Failure? ==> r.error == ErrEmptyInput
    ensures r.Success? ==> (r.value.Some? <==> IsOutlier(series, w, nSigmas, i))
    ensures r.Success? && r.value.Some? ==> r.value.value == WindowMedian(series, w, i)
  {
    var mm := MMAD(Window(series, w, i));
    if mm.Failure? {
      return Failure(mm.error);
    }
    var s0 := K * mm.value.mad;
    OutlierTestAt(series, w, nSigmas, i, mm.value);
    if Abs(series[i] - mm.value.median) > Scaled(nSigmas, s0) {
      return Success(Some(mm.value.median));
    }
    return Success(None);
  }

  /**
    The body of the loop of `Hampel` at position i: it fails exactly when the
    window is empty; otherwise it replaces position i by its window median when
    it is an outlier, and records it.
   */
  method Step(series: seq<real>, w: nat, nSigmas: int, i: nat, newSeries: array<real>, indexes: seq<int>,
              ghost test: int -> bool, ghost median: int -> real)
    returns (failed: bool, ix: seq<int>)
    modifies newSeries
    requires Examined(|series|, w, i) && newSeries.Length == |series|
    requires Describes(series, w, nSigmas, test, median)
    requires indexes == Positions(test, w, i)
    requires newSeries[..] == Replaced(series, test, median, i)
    ensures failed <==> w == 0
    ensures failed ==> newSeries[..] == old(newSeries[..])
    ensures !failed ==> ix == Positions(test, w, i + 1) && newSeries[..] == Replaced(series, test, median, i + 1)
  {
    var check := Examine(series, w, nSigmas, i);
    if check.Failure? {
      return true, indexes;
    }
    ReplacedStep(series, test, median, i);
    PositionsStep(test, w, i);
    ix := indexes;
    if check.value.Some? {
      newSeries[i] := check.value.value;
      ix := ix + [i];
    }
    failed := false;
  }

  /** Once the loop of `Hampel` has passed the last examined position, its state is the filtered series and the outliers. */
  lemma FilterEnds(series: seq<real>, w: nat, nSigmas: int, i: int)
    requires i == |series| - w || (i == w && |series| - w < w)
    ensures Replaced(series, OutlierTest(series, w, nSigmas), MedianAt(series, w), i) == Filtered(series, w, nSigmas)
    ensures Positions(OutlierTest(series, w, nSigmas), w, i) == Outliers(series, w, nSigmas, |series| - w)
  {
    TestOnlyExamined(series, w, nSigmas);
    ReplacedEnds(series, OutlierTest(series, w, nSigmas), MedianAt(series, w), w, i);
  }

  /** Past the last examined position, a test that holds only at examined positions replaces nothing more. */
  lemma ReplacedEnds(series: seq<real>, p: int -> bool, m: int -> real, w: nat, i: int)
    requires forall j :: !Examined(|series|, w, j) ==> !p(j)
    requires i == |series| - w || (i == w && |series| - w < w)
    ensures Replaced(series, p, m, i) == Replaced(series, p, m, |series|)
    ensures Positions(p, w, i) == Positions(p, w, |series| - w)
  {
    assert forall j :: 0 <= j < |series| ==> (j < i && p(j) <==> j < |series| && p(j));
  }

  /**
    The loop of `Hampel` over the examined positions, on the copy of the
    series: it fails at the first window only when the window size is 0;
    otherwise it ends past the last examined position with the outliers
    replaced and recorded.
   */
  method Scan(series: seq<real>, w: nat, nSigmas: int, newSeries: array<real>,
              ghost test: int -> bool, ghost median: int -> real)
    returns (failed: bool, indexes: seq<int>, i: int)
    modifies newSeries
    requires newSeries[..] == series
    requires Describes(series, w, nSigmas, test, median)
    ensures failed <==> w == 0 && |series| > 0
    ensures !failed ==> i == |series| - w || (i == w && |series| - w < w)
    ensures !failed ==> indexes == Positions(test, w, i) && newSeries[..] == Replaced(series, test, median, i)
  {
    var n := |series|;
    indexes := [];
    i := w;
    while i < n - w
      invariant w <= i && (i <= n - w || i == w)
      invariant w == 0 ==> i == 0
      invariant newSeries.Length == |series|
      invariant indexes == Positions(test, w, i)
      invariant newSeries[..] == Replaced(series, test, median, i)
      decreases n - i
    {
      failed, indexes := Step(series, w, nSigmas, i, newSeries, indexes, test, median);
      if failed {
        return;
      }
      i := i + 1;
    }
    failed := false;
  }

  /**
    `Hampel`. A negative window size makes the source slice out of range, so
    it is excluded. With window size 0 the first window is empty and its
    median fails, unless the series is empty too.
   */
  method Hampel(series: seq<real>, wSize: int, nSigmas: int) returns (r: Result<HampelOut, StatsError>)
    requires wSize >= 0
    ensures r.Failure? <==> wSize == 0 && |series| > 0
    ensures r.Failure? ==> r.error == ErrEmptyInput
    ensures wSize == 0 && |series| == 0 ==> r == Success(HampelOut([], []))
    ensures wSize >= 1 ==> r == Success(HampelOut(Filtered(series, wSize, nSigmas), Outliers(series, wSize, nSigmas, |series| - wSize)))
  {
    var newSeries := CopySlice(series);
    FilterDescribed(series, wSize, nSigmas);
    var failed, indexes, i := Scan(series, wSize, nSigmas, newSeries, OutlierTest(series, wSize, nSigmas), MedianAt(series, wSize));
    if failed {
      return Failure(ErrEmptyInput);
    }
    FilterEnds(series, wSize, nSigmas, i);
    r := Success(HampelOut(newSeries[..], indexes));
  }

  /** With the threshold at 0 the filter is Tukey's median filter: every examined position takes its window median. */
  lemma TukeyMedianFilter(series: seq<real>, w: nat, j: nat)
    requires w >= 1 && Examined(|series|, w, j)
    ensures Filtered(series, w, 0)[j] == WindowMedian(series, w, j)
  {
    var sp := MMAD(Window(series, w, j)).value;
    if !IsOutlier(series, w, 0, j) {
      assert Abs(series[j] - sp.median) <= 0.0;
    }
  }

  /** A short series, of at most two windows' worth, is returned as it was with no outliers. */
  lemma ShortSeriesUnchanged(series: seq<real>, w: nat, nSigmas: int)
    requires w >= 1 && |series| <= 2 * w
    ensures Filtered(series, w, nSigmas) == series
    ensures Outliers(series, w, nSigmas, |series| - w) == []
  {
    assert Filtered(series, w, nSigmas) == series;
  }
}
