/** Recovering the one vertical offset between the levels' frame and the elements' frame from noisy
  * samples, and reporting the elements whose sample does not fit it. Exact reals.
  */
module WindowFrames {

  import opened Wrappers

  datatype Level = Level(id: string, elevation: real)

  datatype Element = Element(id: string, levelId: string,
                             sillHeight: Option<real>, levelOffset: Option<real>, bboxMinZ: Option<real>)

  datatype Sample = Sample(offset: real, element: Element)

  datatype Outlier = Outlier(id: string, offBy: real, storeys: Option<real>)

  datatype Report = Report(offset: real, spread: real, storey: Option<real>, tolerance: real,
                           sampled: nat, outliers: seq<Outlier>)

  // ---------------------------------------------------------------- samples

  /** The level a table keyed by id holds: the last one with that id. */
  function LevelOf(levels: seq<Level>, id: string): Option<Level> {
    if levels == [] then None
    else if levels[|levels| - 1].id == id then Some(levels[|levels| - 1])
    else LevelOf(levels[..|levels| - 1], id)
  }

  function SampleOf(levels: seq<Level>, e: Element): Option<Sample> {
    var sill := if e.sillHeight.Some? then e.sillHeight else e.levelOffset;
    var level := LevelOf(levels, e.levelId);
    if level.None? || sill.None? || e.bboxMinZ.None? then None
    else Some(Sample(level.value.elevation - (e.bboxMinZ.value - sill.value), e))
  }

  function Samples(levels: seq<Level>, elements: seq<Element>): seq<Sample> {
    if elements == [] then []
    else
      var rest := Samples(levels, elements[..|elements| - 1]);
      var s := SampleOf(levels, elements[|elements| - 1]);
      if s.None? then rest else rest + [s.value]
  }

  // ---------------------------------------------------------------- what a sample says

  /** The level an element is on: the last listed with its id. */
  predicate OnLevelAt(levels: seq<Level>, e: Element, k: nat) {
    k < |levels| && levels[k].id == e.levelId && forall j :: k < j < |levels| ==> levels[j].id != e.levelId
  }

  lemma {:induction false} LevelIsLast(levels: seq<Level>, e: Element)
    ensures LevelOf(levels, e.levelId).None? ==> forall k :: 0 <= k < |levels| ==> levels[k].id != e.levelId
    ensures LevelOf(levels, e.levelId).Some? ==>
              exists k: nat :: OnLevelAt(levels, e, k) && LevelOf(levels, e.levelId) == Some(levels[k])
  {
    if levels != [] {
      var n := |levels| - 1;
      if levels[n].id == e.levelId {
        assert OnLevelAt(levels, e, n);
      } else {
        LevelIsLast(levels[..n], e);
        assert levels == levels[..n] + [levels[n]];
        if LevelOf(levels[..n], e.levelId).Some? {
          var k: nat :| OnLevelAt(levels[..n], e, k) && LevelOf(levels[..n], e.levelId) == Some(levels[..n][k]);
          assert OnLevelAt(levels, e, k);
        }
      }
    }
  }

  /** An element on a listed level, with a sill height or at least an offset from it, and a box. */
  ghost predicate Usable(levels: seq<Level>, e: Element) {
    && (exists k: nat :: OnLevelAt(levels, e, k))
    && (e.sillHeight.Some? || e.levelOffset.Some?) && e.bboxMinZ.Some?
  }

  /** In a model whose levels are listed v above where the boxes put them, the box of this element starts where
    * its sill is: that far above its level. The sill height counts, and the offset only where there is none. */
  ghost predicate Fits(levels: seq<Level>, e: Element, v: real) {
    && Usable(levels, e)
    && exists k: nat :: OnLevelAt(levels, e, k) &&
         e.bboxMinZ.value == levels[k].elevation + (if e.sillHeight.Some? then e.sillHeight.value else e.levelOffset.value) - v
  }

  /** Exactly the usable elements give a sample, and one that fits an offset gives that offset, whatever its level
    * and sill. */
  lemma SampleIsOffset(levels: seq<Level>, e: Element, v: real)
    ensures SampleOf(levels, e).Some? <==> Usable(levels, e)
    ensures SampleOf(levels, e) == Some(Sample(v, e)) <==> Fits(levels, e, v)
    ensures SampleOf(levels, e).Some? ==> SampleOf(levels, e).value.element == e
  {
    LevelIsLast(levels, e);
    hide LevelOf;
  }

  ghost function CountUsable(levels: seq<Level>, elements: seq<Element>): nat {
    if elements == [] then 0
    else CountUsable(levels, elements[..|elements| - 1]) + if Usable(levels, elements[|elements| - 1]) then 1 else 0
  }

  ghost function CountFits(levels: seq<Level>, elements: seq<Element>, v: real): nat {
    if elements == [] then 0
    else CountFits(levels, elements[..|elements| - 1], v) + if Fits(levels, elements[|elements| - 1], v) then 1 else 0
  }

  lemma {:induction false} SamplesCount(levels: seq<Level>, elements: seq<Element>, v: real)
    ensures |Samples(levels, elements)| == CountUsable(levels, elements)
    ensures CountIn(Offsets(Samples(levels, elements)), v, v) == CountFits(levels, elements, v)
  {
    hide Usable, Fits, SampleOf;
    if elements != [] {
      var front, last := elements[..|elements| - 1], elements[|elements| - 1];
      SamplesCount(levels, front, v);
      SampleIsOffset(levels, last, v);
      hide CountIn;
      var s := SampleOf(levels, last);
      if s.Some? {
        assert Offsets(Samples(levels, front) + [s.value]) == Offsets(Samples(levels, front)) + [s.value.offset];
        AppendCounts(Offsets(Samples(levels, front)), s.value.offset, v, v);
      }
    }
  }

  /** When more than half of the usable elements fit one offset, that is the median. */
  lemma MostFitIsMedian(levels: seq<Level>, elements: seq<Element>, v: real)
    requires 2 * CountFits(levels, elements, v) > CountUsable(levels, elements)
    ensures Samples(levels, elements) != [] && Median(Samples(levels, elements)) == v
  {
    SamplesCount(levels, elements, v);
    var values := Offsets(Samples(levels, elements));
    SortingCounts(values, v, v);
    MedianFollowsMajority(Sorted(values), v, v);
    hide Samples, CountFits, CountUsable, CountIn, Sorted;
  }

  function Offsets(samples: seq<Sample>): (values: seq<real>)
    ensures |values| == |samples|
  {
    seq(|samples|, k requires 0 <= k < |samples| => samples[k].offset)
  }

  // ---------------------------------------------------------------- order statistics

  predicate Ascending(s: seq<real>) {
    forall i, j :: 0 <= i < j < |s| ==> s[i] <= s[j]
  }

  function Insert(x: real, s: seq<real>): (t: seq<real>)
    requires Ascending(s)
    ensures Ascending(t) && |t| == |s| + 1
    ensures t[0] == if s == [] || x <= s[0] then x else s[0]
  {
    if s == [] || x <= s[0] then [x] + s else [s[0]] + Insert(x, s[1..])
  }

  /** What `sorted` answers. */
  function Sorted(s: seq<real>): (t: seq<real>)
    ensures Ascending(t) && |t| == |s|
  {
    if s == [] then [] else Insert(s[|s| - 1], Sorted(s[..|s| - 1]))
  }

  lemma {:induction false} InsertArranges(x: real, s: seq<real>)
    requires Ascending(s)
    ensures multiset(Insert(x, s)) == multiset(s) + multiset{x}
  {
    if s != [] && x > s[0] {
      InsertArranges(x, s[1..]);
      assert s == [s[0]] + s[1..];
    }
  }

  /** Sorting only rearranges. */
  lemma {:induction false} SortedArranges(s: seq<real>)
    ensures multiset(Sorted(s)) == multiset(s)
  {
    hide Ascending;
    if s != [] {
      SortedArranges(s[..|s| - 1]);
      InsertArranges(s[|s| - 1], Sorted(s[..|s| - 1]));
      assert s == s[..|s| - 1] + [s[|s| - 1]];
    }
  }

  /** How many of the values lie in [lo, hi]. */
  function CountIn(s: seq<real>, lo: real, hi: real): nat {
    if s == [] then 0
    else CountIn(s[1..], lo, hi) + if lo <= s[0] <= hi then 1 else 0
  }

  lemma {:induction false} InsertCounts(x: real, s: seq<real>, lo: real, hi: real)
    requires Ascending(s)
    ensures CountIn(Insert(x, s), lo, hi) == CountIn(s, lo, hi) + if lo <= x <= hi then 1 else 0
  {
    if s == [] || x <= s[0] {
      assert ([x] + s)[1..] == s;
    } else {
      InsertCounts(x, s[1..], lo, hi);
      var t := Insert(x, s[1..]);
      assert ([s[0]] + t)[1..] == t;
    }
  }

  lemma {:induction false} AppendCounts(s: seq<real>, x: real, lo: real, hi: real)
    ensures CountIn(s + [x], lo, hi) == CountIn(s, lo, hi) + if lo <= x <= hi then 1 else 0
  {
    if s != [] {
      assert (s + [x])[1..] == s[1..] + [x];
      AppendCounts(s[1..], x, lo, hi);
    }
  }

  lemma {:induction false} SortingCounts(s: seq<real>, lo: real, hi: real)
    ensures CountIn(Sorted(s), lo, hi) == CountIn(s, lo, hi)
  {
    if s != [] {
      var front, x := s[..|s| - 1], s[|s| - 1];
      SortingCounts(front, lo, hi);
      InsertCounts(x, Sorted(front), lo, hi);
      AppendCounts(front, x, lo, hi);
      assert s == front + [x];
    }
  }

  lemma {:induction false} CountSplits(s: seq<real>, k: nat, lo: real, hi: real)
    requires k <= |s|
    ensures CountIn(s, lo, hi) == CountIn(s[..k], lo, hi) + CountIn(s[k..], lo, hi)
  {
    if k == 0 {
      assert s[..0] == [] && s[0..] == s;
    } else {
      CountSplits(s[1..], k - 1, lo, hi);
      assert s[1..][..k - 1] == s[..k][1..];
      assert s[1..][k - 1..] == s[k..];
    }
  }

  lemma {:induction false} CountBounds(s: seq<real>, lo: real, hi: real)
    ensures CountIn(s, lo, hi) <= |s|
    ensures (forall k :: 0 <= k < |s| ==> !(lo <= s[k] <= hi)) ==> CountIn(s, lo, hi) == 0
  {
    if s != [] {
      CountBounds(s[1..], lo, hi);
    }
  }

  lemma FewWhenMedianHigh(s: seq<real>, m: nat, lo: real, hi: real)
    requires Ascending(s) && m < |s| && s[m] > hi
    ensures CountIn(s, lo, hi) <= m
  {
    hide CountIn;
    CountSplits(s, m, lo, hi);
    CountBounds(s[..m], lo, hi);
    CountBounds(s[m..], lo, hi);
  }

  lemma FewWhenMedianLow(s: seq<real>, m: nat, lo: real, hi: real)
    requires Ascending(s) && m < |s| && s[m] < lo
    ensures CountIn(s, lo, hi) <= |s| - m - 1
  {
    hide CountIn;
    CountSplits(s, m + 1, lo, hi);
    CountBounds(s[..m + 1], lo, hi);
    CountBounds(s[m + 1..], lo, hi);
  }

  /** The middle of an ascending list lies in any interval that holds a strict majority of it. */
  lemma MedianFollowsMajority(s: seq<real>, lo: real, hi: real)
    requires Ascending(s) && 2 * CountIn(s, lo, hi) > |s|
    ensures s != [] && lo <= s[|s| / 2] <= hi
  {
    hide CountIn, Ascending;
    CountBounds(s, lo, hi);
    var m := |s| / 2;
    if s[m] > hi {
      FewWhenMedianHigh(s, m, lo, hi);
    } else if s[m] < lo {
      FewWhenMedianLow(s, m, lo, hi);
    }
  }

  // ---------------------------------------------------------------- reconciling

  function Gaps(levels: seq<Level>): (gaps: seq<real>)
    ensures |gaps| == if levels == [] then 0 else |levels| - 1
  {
    if levels == [] then []
    else seq(|levels| - 1, k requires 0 <= k < |levels| - 1 => levels[k + 1].elevation - levels[k].elevation)
  }

  function Least(s: seq<real>): (m: real)
    requires s != []
    ensures m in s && forall k :: 0 <= k < |s| ==> m <= s[k]
  {
    var x := s[|s| - 1];
    if |s| == 1 then x
    else
      var m := Least(s[..|s| - 1]);
      if x < m then x else m
  }

  /** The smallest gap between consecutive levels, if there are two. */
  function Storey(levels: seq<Level>): Option<real> {
    if Gaps(levels) == [] then None else Some(Least(Gaps(levels)))
  }

  /** Half a storey; a missing gap and a gap of zero both fall back to 1. */
  function Tolerance(levels: seq<Level>): real {
    var storey := Storey(levels);
    if storey.Some? && storey.value != 0.0 then storey.value / 2.0 else 1.0
  }

  function Median(samples: seq<Sample>): real
    requires samples != []
  {
    Sorted(Offsets(samples))[|samples| / 2]
  }

  function Abs(x: real): real { if x < 0.0 then -x else x }

  lemma MedianIsMiddle(samples: seq<Sample>)
    requires samples != []
    ensures Median(samples) == Sorted(Offsets(samples))[|samples| / 2]
  {
  }

  predicate IsOutlier(levels: seq<Level>, samples: seq<Sample>, s: Sample)
    requires samples != []
  {
    Abs(s.offset - Median(samples)) > Tolerance(levels)
  }

  function OutlierRow(levels: seq<Level>, offset: real, s: Sample): Outlier {
    var storey := Storey(levels);
    Outlier(s.element.id, s.offset - offset,
            if storey.Some? && storey.value != 0.0 then Some((s.offset - offset) / storey.value) else None)
  }

  /** The rows reported for the first n samples, in order. */
  function OutlierRows(levels: seq<Level>, samples: seq<Sample>, n: nat): seq<Outlier>
    requires samples != [] && n <= |samples|
  {
    if n == 0 then []
    else
      var rest := OutlierRows(levels, samples, n - 1);
      if IsOutlier(levels, samples, samples[n - 1])
      then rest + [OutlierRow(levels, Median(samples), samples[n - 1])]
      else rest
  }

  method Reconcile(levels: seq<Level>, elements: seq<Element>) returns (report: Option<Report>)
    ensures report.None? <==> CountUsable(levels, elements) == 0
    ensures forall v: real :: 2 * CountFits(levels, elements, v) > CountUsable(levels, elements) ==>
              report.Some? && report.value.offset == v && report.value.sampled == CountUsable(levels, elements)
    ensures report.None? <==> Samples(levels, elements) == []
    ensures report.Some? ==>
            var samples := Samples(levels, elements);
            var values := Sorted(Offsets(samples));
            && report.value.offset == Median(samples)
            && report.value.spread == values[|values| - 1] - values[0]
            && report.value.storey == Storey(levels)
            && report.value.tolerance == Tolerance(levels)
            && report.value.sampled == |samples|
            && report.value.outliers == OutlierRows(levels, samples, |samples|)
  {
    hide LevelOf, Sorted, Storey, Ascending;
    var samples: seq<Sample> := [];
    for k := 0 to |elements|
      invariant samples == Samples(levels, elements[..k])
    {
      assert elements[..k + 1][..k] == elements[..k];
      var element := elements[k];
      var level := LevelOf(levels, element.levelId);
      var sill := element.sillHeight;
      if sill == None {
        sill := element.levelOffset;
      }
      if level != None && sill != None && element.bboxMinZ != None {
        samples := samples + [Sample(level.value.elevation - (element.bboxMinZ.value - sill.value), element)];
      }
    }
    assert elements[..|elements|] == elements;
    hide CountFits, CountUsable, Median, CountIn;
    SamplesCount(levels, elements, 0.0);
    forall v: real | 2 * CountFits(levels, elements, v) > CountUsable(levels, elements)
      ensures samples != [] && Median(samples) == v
    {
      MostFitIsMedian(levels, elements, v);
    }
    if samples == [] {
      return None;
    }
    assert Median(samples) == Sorted(Offsets(samples))[|samples| / 2] by {
      MedianIsMiddle(samples);
    }
    var values := Sorted(Offsets(samples));
    var offset := values[|values| / 2];
    var storey := Storey(levels);
    var tolerance := if storey != None && storey.value != 0.0 then storey.value / 2.0 else 1.0;
    var outliers: seq<Outlier> := [];
    for k := 0 to |samples|
      invariant outliers == OutlierRows(levels, samples, k)
    {
      if Abs(samples[k].offset - offset) > tolerance {
        outliers := outliers + [OutlierRow(levels, offset, samples[k])];
      }
    }
    report := Some(Report(offset, values[|values| - 1] - values[0], storey, tolerance, |samples|, outliers));
  }

  // ---------------------------------------------------------------- what the report means

  /** How many of the values meet a test. */
  function CountIf(s: seq<real>, p: real -> bool): nat {
    if s == [] then 0 else CountIf(s[1..], p) + if p(s[0]) then 1 else 0
  }

  lemma {:induction false} InsertCountsIf(x: real, s: seq<real>, p: real -> bool)
    requires Ascending(s)
    ensures CountIf(Insert(x, s), p) == CountIf(s, p) + if p(x) then 1 else 0
  {
    if s == [] || x <= s[0] {
      assert ([x] + s)[1..] == s;
    } else {
      InsertCountsIf(x, s[1..], p);
      var t := Insert(x, s[1..]);
      assert ([s[0]] + t)[1..] == t;
    }
  }

  lemma {:induction false} AppendCountsIf(s: seq<real>, x: real, p: real -> bool)
    ensures CountIf(s + [x], p) == CountIf(s, p) + if p(x) then 1 else 0
  {
    if s != [] {
      assert (s + [x])[1..] == s[1..] + [x];
      AppendCountsIf(s[1..], x, p);
    }
  }

  lemma {:induction false} SortingCountsIf(s: seq<real>, p: real -> bool)
    ensures CountIf(Sorted(s), p) == CountIf(s, p)
  {
    if s != [] {
      var front, x := s[..|s| - 1], s[|s| - 1];
      SortingCountsIf(front, p);
      InsertCountsIf(x, Sorted(front), p);
      AppendCountsIf(front, x, p);
      assert s == front + [x];
    }
  }

  /** Of the values, at most those in places from..to meet a test that the others do not. */
  lemma {:induction false} CountInPlaces(s: seq<real>, p: real -> bool, from: nat, end: nat)
    requires from <= end <= |s|
    requires forall k :: 0 <= k < |s| && !(from <= k < end) ==> !p(s[k])
    ensures CountIf(s, p) <= end - from
  {
    if s != [] {
      assert forall k :: 0 <= k < |s| - 1 ==> s[1..][k] == s[k + 1];
      CountInPlaces(s[1..], p, if from == 0 then 0 else from - 1, if end == 0 then 0 else end - 1);
    }
  }

  function LessThan(x: real): real -> bool { (y: real) => y < x }

  function MoreThan(x: real): real -> bool { (y: real) => y > x }

  /** The offset is one of the samples; no more than half of them are below it and fewer than half above, so of an
    * even number it is the upper of the two in the middle. */
  lemma MedianIsInTheMiddle(samples: seq<Sample>)
    requires samples != []
    ensures Median(samples) in Offsets(samples)
    ensures 2 * CountIf(Offsets(samples), LessThan(Median(samples))) <= |samples|
    ensures 2 * CountIf(Offsets(samples), MoreThan(Median(samples))) < |samples|
  {
    var offsets := Offsets(samples);
    var m := Median(samples);
    SortedArranges(offsets);
    assert m in Sorted(offsets);
    assert m in multiset(Sorted(offsets));
    hide CountIf, Sorted;
    SortingCountsIf(offsets, LessThan(m));
    SortingCountsIf(offsets, MoreThan(m));
    MiddleCounts(Sorted(offsets));
  }

  lemma MiddleCounts(values: seq<real>)
    requires Ascending(values) && values != []
    ensures var m := values[|values| / 2];
            2 * CountIf(values, LessThan(m)) <= |values| && 2 * CountIf(values, MoreThan(m)) < |values|
  {
    var k := |values| / 2;
    hide CountIf;
    CountInPlaces(values, LessThan(values[k]), 0, k);
    CountInPlaces(values, MoreThan(values[k]), k + 1, |values|);
  }

  /** The spread is the widest two samples lie apart. */
  lemma SpreadIsWidest(samples: seq<Sample>, a: Sample, b: Sample)
    requires a in samples && b in samples
    ensures var values := Sorted(Offsets(samples)); var spread := values[|values| - 1] - values[0];
            && a.offset - b.offset <= spread
            && values[0] in Offsets(samples) && values[|values| - 1] in Offsets(samples)
  {
    var values, offsets := Sorted(Offsets(samples)), Offsets(samples);
    SortedArranges(offsets);
    hide Sorted;
    assert a.offset in multiset(offsets) by { OffsetIsThere(samples, a); }
    assert b.offset in multiset(offsets) by { OffsetIsThere(samples, b); }
    assert a.offset in values && b.offset in values;
    assert values[0] in multiset(values) && values[|values| - 1] in multiset(values);
  }

  lemma OffsetIsThere(samples: seq<Sample>, a: Sample)
    requires a in samples
    ensures a.offset in Offsets(samples)
  {
    var k :| 0 <= k < |samples| && samples[k] == a;
    assert Offsets(samples)[k] == a.offset;
  }

  /** A row names its element, how far its sample is from the offset, and how many storeys that is. */
  lemma RowSaysHowFar(levels: seq<Level>, offset: real, s: Sample, storeys: real)
    ensures OutlierRow(levels, offset, s).id == s.element.id
    ensures s.offset == offset + OutlierRow(levels, offset, s).offBy
    ensures Storey(levels).Some? && Storey(levels).value != 0.0 && s.offset == offset + storeys * Storey(levels).value ==>
              OutlierRow(levels, offset, s).storeys == Some(storeys)
    ensures Storey(levels).None? || Storey(levels).value == 0.0 ==> OutlierRow(levels, offset, s).storeys.None?
  {
    hide Storey;
    if Storey(levels).Some? && Storey(levels).value != 0.0 && s.offset == offset + storeys * Storey(levels).value {
      Quotient(s.offset - offset, storeys, Storey(levels).value);
    }
  }

  lemma Quotient(a: real, n: real, d: real)
    requires d != 0.0 && a == n * d
    ensures a / d == n
  {
    assert a / d * d == a;
    assert (a / d - n) * d == 0.0;
  }

  /** The rows are exactly the outliers' rows. */
  lemma {:induction false} RowsAreOutliers(levels: seq<Level>, samples: seq<Sample>, n: nat, row: Outlier)
    requires samples != [] && n <= |samples|
    ensures row in OutlierRows(levels, samples, n)
       <==> exists k :: 0 <= k < n && IsOutlier(levels, samples, samples[k])
                        && row == OutlierRow(levels, Median(samples), samples[k])
  {
    hide IsOutlier, OutlierRow, Median;
    if n > 0 {
      RowsAreOutliers(levels, samples, n - 1, row);
    }
  }

  /** A strict majority decides: if more than half of the samples lie in an interval narrower than the
    * tolerance, the offset lies in it too, no sample of the interval is reported, and every sample at
    * least two tolerances away from some value of the interval is. */
  lemma MajorityDecides(levels: seq<Level>, samples: seq<Sample>, lo: real, hi: real, s: Sample)
    requires 2 * CountIn(Offsets(samples), lo, hi) > |samples|
    requires lo <= hi && hi - lo < Tolerance(levels)
    ensures samples != [] && lo <= Median(samples) <= hi
    ensures lo <= s.offset <= hi ==> !IsOutlier(levels, samples, s)
    ensures s.offset >= lo + 2.0 * Tolerance(levels) || s.offset <= hi - 2.0 * Tolerance(levels)
        ==> IsOutlier(levels, samples, s)
  {
    hide Storey;
    var values := Offsets(samples);
    SortingCounts(values, lo, hi);
    MedianFollowsMajority(Sorted(values), lo, hi);
  }

  /** With ascending levels, any two of them are at least a storey apart. */
  lemma {:induction false} LevelsAreApart(levels: seq<Level>, i: nat, j: nat)
    requires i < j < |levels|
    requires Storey(levels).Some? && Storey(levels).value > 0.0
    ensures levels[j].elevation - levels[i].elevation >= Storey(levels).value
    decreases j
  {
    var gaps := Gaps(levels);
    assert gaps[j - 1] == levels[j].elevation - levels[j - 1].elevation;
    if i < j - 1 {
      LevelsAreApart(levels, i, j - 1);
    }
  }

  /** Most of the samples lie in [lo, hi]. */
  predicate StrictMajority(samples: seq<Sample>, lo: real, hi: real) {
    lo <= hi && 2 * CountIn(Offsets(samples), lo, hi) > |samples|
  }

  // ---------------------------------------------------------------- which displacements are always reported

  lemma SortedThree(a: real, b: real, c: real)
    requires a <= b <= c
    ensures Sorted([a, b, c]) == [a, b, c]
  {
    assert [a, b, c][..2] == [a, b] && [a, b][..1] == [a] && [a][..0] == [];
    assert Sorted([a]) == [a];
    assert [a][1..] == [] && [a, b][1..] == [b] && [b][1..] == [];
    assert Insert(b, [a]) == [a, b];
    assert Insert(c, [b]) == [b, c];
  }

  lemma CountThree(a: real, b: real, c: real, lo: real, hi: real)
    ensures CountIn([a, b, c], lo, hi)
         == (if lo <= a <= hi then 1 else 0) + (if lo <= b <= hi then 1 else 0) + (if lo <= c <= hi then 1 else 0)
  {
    assert [a, b, c][1..] == [b, c] && [b, c][1..] == [c] && [c][1..] == [];
    assert CountIn([c], lo, hi) == if lo <= c <= hi then 1 else 0;
    assert CountIn([b, c], lo, hi) == CountIn([c], lo, hi) + if lo <= b <= hi then 1 else 0;
  }

  const SOME_ELEMENT := Element("w", "L", None, None, None)

  function Three(a: real, b: real, c: real): seq<Sample> {
    [Sample(a, SOME_ELEMENT), Sample(b, SOME_ELEMENT), Sample(c, SOME_ELEMENT)]
  }

  lemma ThreeSamples(a: real, b: real, c: real, lo: real, hi: real)
    requires a <= b <= c && lo <= hi
    ensures Median(Three(a, b, c)) == b
    ensures (lo <= a && b <= hi) || (lo <= b && c <= hi) ==> StrictMajority(Three(a, b, c), lo, hi)
  {
    assert Offsets(Three(a, b, c)) == [a, b, c];
    SortedThree(a, b, c);
    CountThree(a, b, c, lo, hi);
    hide CountIn, Sorted;
  }

  /** A sample that lies d above one the majority agrees with is reported, whatever the samples are. */
  ghost predicate AlwaysReported(levels: seq<Level>, d: real) {
    forall samples: seq<Sample>, lo: real, hi: real, y: Sample, s: Sample ::
      StrictMajority(samples, lo, hi) && hi - lo < Tolerance(levels) && y in samples && lo <= y.offset <= hi
      && s in samples && s.offset == y.offset + d
      ==> IsOutlier(levels, samples, s)
  }

  /** Three samples that hide a displacement of less than two tolerances: the displaced one, one that agrees, and
    * the median between them. */
  lemma SmallDisplacementHides(levels: seq<Level>, d: real)
    requires Abs(d) < 2.0 * Tolerance(levels)
    ensures !AlwaysReported(levels, d)
  {
    hide Tolerance, Median, StrictMajority;
    var t := Tolerance(levels);
    var w := if Abs(d) > t then Abs(d) - t else 0.0;
    if d >= 0.0 {
      var samples := Three(0.0, w, d);
      ThreeSamples(0.0, w, d, 0.0, w);
      assert StrictMajority(samples, 0.0, w) && samples[0] in samples && samples[2] in samples;
      assert !IsOutlier(levels, samples, samples[2]);
    } else {
      var samples := Three(d, -w, 0.0);
      ThreeSamples(d, -w, 0.0, -w, 0.0);
      assert StrictMajority(samples, -w, 0.0) && samples[2] in samples && samples[0] in samples;
      assert !IsOutlier(levels, samples, samples[0]);
    }
  }

  /** The measure is exactly this sharp: a displacement is reported in every sample set whose majority interval is
    * narrower than the tolerance if and only if it is at least two tolerances. */
  lemma AlwaysReportedIffTwoTolerances(levels: seq<Level>, d: real)
    ensures AlwaysReported(levels, d) <==> Abs(d) >= 2.0 * Tolerance(levels)
  {
    hide Tolerance, IsOutlier, CountIn;
    if Abs(d) < 2.0 * Tolerance(levels) {
      SmallDisplacementHides(levels, d);
    } else {
      forall samples: seq<Sample>, lo: real, hi: real, y: Sample, s: Sample | StrictMajority(samples, lo, hi) && hi - lo < Tolerance(levels) && y in samples
                                     && lo <= y.offset <= hi && s in samples && s.offset == y.offset + d
        ensures IsOutlier(levels, samples, s)
      {
        MajorityDecides(levels, samples, lo, hi, s);
      }
    }
  }

  /** An element that belongs on level j and is reported on level i has its sample thrown off by the difference of
    * the two elevations. It is reported in every such sample set if and only if the two are at least two
    * tolerances apart; on levels listed strictly upwards any two are. */
  lemma WrongLevelIsReported(levels: seq<Level>, i: nat, j: nat)
    requires i < |levels| && j < |levels|
    ensures AlwaysReported(levels, levels[i].elevation - levels[j].elevation)
       <==> Abs(levels[i].elevation - levels[j].elevation) >= 2.0 * Tolerance(levels)
    ensures i != j && Storey(levels).Some? && Storey(levels).value > 0.0
        ==> AlwaysReported(levels, levels[i].elevation - levels[j].elevation)
  {
    hide AlwaysReported, Storey, Gaps;
    AlwaysReportedIffTwoTolerances(levels, levels[i].elevation - levels[j].elevation);
    if Storey(levels).Some? && Storey(levels).value > 0.0 {
      if i < j {
        LevelsAreApart(levels, i, j);
      } else if j < i {
        LevelsAreApart(levels, j, i);
      }
    }
  }

  function GapAt(levels: seq<Level>, k: nat): real
    requires k < |levels| - 1
  {
    levels[k + 1].elevation - levels[k].elevation
  }

  lemma StoreyIsLeastGap(levels: seq<Level>)
    ensures Storey(levels).Some? <==> |levels| >= 2
    ensures forall k: nat :: k < |levels| - 1 ==> Storey(levels).value <= GapAt(levels, k)
    ensures Storey(levels).Some? ==> exists k: nat :: k < |levels| - 1 && Storey(levels).value == GapAt(levels, k)
  {
    var gaps := Gaps(levels);
    forall k: nat | k < |levels| - 1
      ensures GapAt(levels, k) == gaps[k]
    {
    }
    if gaps != [] {
      var k: nat :| k < |gaps| && gaps[k] == Least(gaps);
      assert Storey(levels).value == GapAt(levels, k);
    }
  }

  /** No gap is smaller than the one at k. */
  predicate LeastGapAt(levels: seq<Level>, k: nat) {
    k < |levels| - 1 && forall j: nat :: j < |levels| - 1 ==> GapAt(levels, k) <= GapAt(levels, j)
  }

  /** Half a storey to either side of the median passes: the smallest gap halved, or 1 where that is 0 or none. */
  lemma ToleranceIsHalfGap(levels: seq<Level>)
    ensures |levels| < 2 ==> Tolerance(levels) == 1.0
    ensures forall k: nat :: LeastGapAt(levels, k) ==>
              Tolerance(levels) == if GapAt(levels, k) == 0.0 then 1.0 else GapAt(levels, k) / 2.0
    ensures |levels| >= 2 ==> exists k: nat :: LeastGapAt(levels, k)
  {
    StoreyIsLeastGap(levels);
    if |levels| >= 2 {
      var k: nat :| k < |levels| - 1 && Storey(levels).value == GapAt(levels, k);
      assert LeastGapAt(levels, k);
    }
    hide Storey;
  }

  // ---------------------------------------------------------------- the promise, and when it holds

  /** The promise for a storey of p: no sample of a majority interval narrower than half a storey is reported, and
    * every sample a storey or more from a value of it is. */
  ghost predicate Promise(levels: seq<Level>, p: real) {
    forall samples: seq<Sample>, lo: real, hi: real, s: Sample :: StrictMajority(samples, lo, hi) && hi - lo < p / 2.0 && s in samples ==>
      && (lo <= s.offset <= hi ==> !IsOutlier(levels, samples, s))
      && (s.offset >= lo + p || s.offset <= hi - p ==> IsOutlier(levels, samples, s))
  }

  lemma ToleranceIsNeverZero(levels: seq<Level>)
    ensures Tolerance(levels) != 0.0
  {
    hide Storey;
  }

  /** A tolerance over half a storey lets a sample a whole storey off pass; one under it reports a sample that
    * agrees. */
  lemma OtherToleranceBreaksPromise(levels: seq<Level>, p: real)
    requires p > 0.0 && Tolerance(levels) != p / 2.0
    ensures !Promise(levels, p)
  {
    ToleranceIsNeverZero(levels);
    hide Tolerance, Median, StrictMajority;
    var t := Tolerance(levels);
    if t > p / 2.0 {
      var w := if p > t then p - t else 0.0;
      var samples := Three(0.0, w, p);
      ThreeSamples(0.0, w, p, 0.0, w);
      assert StrictMajority(samples, 0.0, w) && samples[2] in samples && !IsOutlier(levels, samples, samples[2]);
    } else {
      var w := if t > 0.0 then (t + p / 2.0) / 2.0 else 0.0;
      var samples := Three(0.0, w, w);
      ThreeSamples(0.0, w, w, 0.0, w);
      assert StrictMajority(samples, 0.0, w) && samples[0] in samples && IsOutlier(levels, samples, samples[0]);
    }
  }

  lemma PromiseIsHalfStorey(levels: seq<Level>, p: real)
    requires p > 0.0
    ensures Promise(levels, p) <==> Tolerance(levels) == p / 2.0
  {
    hide Tolerance, IsOutlier, CountIn;
    if Tolerance(levels) != p / 2.0 {
      OtherToleranceBreaksPromise(levels, p);
    } else {
      forall samples: seq<Sample>, lo: real, hi: real, s: Sample | StrictMajority(samples, lo, hi) && hi - lo < p / 2.0 && s in samples
        ensures lo <= s.offset <= hi ==> !IsOutlier(levels, samples, s)
        ensures s.offset >= lo + p || s.offset <= hi - p ==> IsOutlier(levels, samples, s)
      {
        MajorityDecides(levels, samples, lo, hi, s);
      }
    }
  }

  /** The smallest of the gaps that are positive. */
  ghost predicate IsLeastPositiveGap(levels: seq<Level>, p: real) {
    && p > 0.0
    && (exists k: nat :: k < |levels| - 1 && GapAt(levels, k) == p)
    && (forall k: nat :: k < |levels| - 1 && GapAt(levels, k) > 0.0 ==> p <= GapAt(levels, k))
  }

  /** What the measure promises of the smallest positive gap holds if and only if every gap is positive, or the
    * smallest gap is 0, so that the tolerance is the constant 1, and the smallest positive one happens to be 2. */
  lemma PromiseHoldsIff(levels: seq<Level>, p: real)
    requires IsLeastPositiveGap(levels, p)
    ensures Promise(levels, p) <==>
            || (forall k: nat :: k < |levels| - 1 ==> GapAt(levels, k) > 0.0)
            || (p == 2.0 && (forall k: nat :: k < |levels| - 1 ==> GapAt(levels, k) >= 0.0))
  {
    PromiseIsHalfStorey(levels, p);
    StoreyIsLeastGap(levels);
    hide Promise, Storey, GapAt;
    var k: nat :| k < |levels| - 1 && GapAt(levels, k) == Storey(levels).value;
  }

  function OnLevel(name: string, level: string, bottom: real): Element {
    Element(name, level, Some(0.0), None, Some(bottom))
  }

  lemma SampleAt(levels: seq<Level>, elements: seq<Element>, more: Element, level: Level)
    requires LevelOf(levels, more.levelId) == Some(level) && more.sillHeight == Some(0.0) && more.bboxMinZ.Some?
    ensures Samples(levels, elements + [more]) == Samples(levels, elements) + [Sample(level.elevation - more.bboxMinZ.value, more)]
  {
    assert (elements + [more])[..|elements|] == elements;
    hide LevelOf;
  }

  lemma SamplesOfThree(levels: seq<Level>, a: Element, b: Element, c: Element, la: Level, lb: Level, lc: Level)
    requires LevelOf(levels, a.levelId) == Some(la) && a.sillHeight == Some(0.0) && a.bboxMinZ.Some?
    requires LevelOf(levels, b.levelId) == Some(lb) && b.sillHeight == Some(0.0) && b.bboxMinZ.Some?
    requires LevelOf(levels, c.levelId) == Some(lc) && c.sillHeight == Some(0.0) && c.bboxMinZ.Some?
    ensures var za, zb, zc := la.elevation - a.bboxMinZ.value, lb.elevation - b.bboxMinZ.value, lc.elevation - c.bboxMinZ.value;
            && Samples(levels, [a, b, c]) == [Sample(za, a), Sample(zb, b), Sample(zc, c)]
            && Offsets(Samples(levels, [a, b, c])) == [za, zb, zc]
  {
    SampleAt(levels, [], a, la);
    SampleAt(levels, [a], b, lb);
    SampleAt(levels, [a, b], c, lc);
    assert [] + [a] == [a] && [a] + [b] == [a, b] && [a, b] + [c] == [a, b, c];
    hide LevelOf;
  }

  /** The failing side occurs with no level listed downwards. Beside two levels at one elevation, an element seven
    * eighths up that is reported on the ground passes unreported... */
  lemma EqualLevelsHideWrongLevel()
    ensures var levels := [Level("G", 0.0), Level("S", 0.0), Level("M", 0.875)];
            var wrong := OnLevel("c", "G", 0.875);
            var samples := Samples(levels, [wrong, OnLevel("a", "G", 0.0), OnLevel("b", "S", 0.0)]);
            && Tolerance(levels) == 1.0 && IsLeastPositiveGap(levels, 0.875)
            && |samples| == 3 && samples[0] == Sample(-0.875, wrong)
            && StrictMajority(samples, 0.0, 0.0) && !IsOutlier(levels, samples, samples[0])
  {
    hide Samples, LevelOf, Gaps, Sorted, CountIn, Least;
    var g, s, m := Level("G", 0.0), Level("S", 0.0), Level("M", 0.875);
    LevelsOfThree(g, s, m);
    SamplesOfThree([g, s, m], OnLevel("c", "G", 0.875), OnLevel("a", "G", 0.0), OnLevel("b", "S", 0.0), g, g, s);
    SortedThree(-0.875, 0.0, 0.0);
    CountThree(-0.875, 0.0, 0.0, 0.0, 0.0);
    GapsOfThree(g, s, m);
    assert GapAt([g, s, m], 1) == 0.875;
  }

  /** ...and with the third level ten up instead, one of two samples that agree to within three is reported. */
  lemma EqualLevelsReportHonest()
    ensures var levels := [Level("G", 0.0), Level("S", 0.0), Level("M", 10.0)];
            var honest := OnLevel("a", "G", 0.0);
            var samples := Samples(levels, [honest, OnLevel("b", "G", -3.0), OnLevel("c", "S", -3.0)]);
            && Tolerance(levels) == 1.0 && IsLeastPositiveGap(levels, 10.0)
            && |samples| == 3 && samples[0] == Sample(0.0, honest)
            && StrictMajority(samples, 0.0, 3.0) && IsOutlier(levels, samples, samples[0])
  {
    hide Samples, LevelOf, Gaps, Sorted, CountIn, Least;
    var g, s, m := Level("G", 0.0), Level("S", 0.0), Level("M", 10.0);
    LevelsOfThree(g, s, m);
    SamplesOfThree([g, s, m], OnLevel("a", "G", 0.0), OnLevel("b", "G", -3.0), OnLevel("c", "S", -3.0), g, g, s);
    SortedThree(0.0, 3.0, 3.0);
    CountThree(0.0, 3.0, 3.0, 0.0, 3.0);
    GapsOfThree(g, s, m);
    assert GapAt([g, s, m], 1) == 10.0;
  }

  lemma LevelsOfThree(g: Level, s: Level, m: Level)
    requires g.id == "G" && s.id == "S" && m.id == "M"
    ensures LevelOf([g, s, m], "G") == Some(g) && LevelOf([g, s, m], "S") == Some(s)
  {
    assert [g, s, m][..2] == [g, s] && [g, s][..1] == [g];
    assert LevelOf([g, s], "G") == LevelOf([g], "G") == Some(g);
  }

  lemma GapsOfThree(g: Level, s: Level, m: Level)
    requires g.elevation == s.elevation <= m.elevation
    ensures Gaps([g, s, m]) == [0.0, m.elevation - s.elevation]
    ensures Storey([g, s, m]) == Some(0.0)
  {
    var gaps := Gaps([g, s, m]);
    assert gaps == [0.0, m.elevation - s.elevation];
    assert gaps[..1] == [0.0];
  }

  /** The tolerance is negative exactly when some level is listed below the one before it. */
  lemma OutOfOrderIsNegative(levels: seq<Level>)
    ensures Tolerance(levels) < 0.0 <==> exists k: nat :: k < |levels| - 1 && GapAt(levels, k) < 0.0
  {
    StoreyIsLeastGap(levels);
    hide Storey, GapAt;
  }

  /** Out of order, every sample is reported, the median itself included; in order, the median never. */
  lemma OutOfOrderReportsEverything(levels: seq<Level>, samples: seq<Sample>, s: Sample)
    requires samples != []
    ensures Tolerance(levels) < 0.0 ==> IsOutlier(levels, samples, s)
    ensures s.offset == Median(samples) ==> (IsOutlier(levels, samples, s) <==> Tolerance(levels) < 0.0)
  {
    hide Tolerance, Median;
  }

  /** The failing side occurs: two levels listed downwards, and the one element, which fits perfectly and is the
    * median itself, is reported as off by nothing. */
  lemma MedianIsReported()
    ensures var levels := [Level("L2", 10.0), Level("L1", 0.0)];
            var window := Element("w", "L2", Some(0.0), None, Some(10.0));
            var samples := [Sample(0.0, window)];
            && Samples(levels, [window]) == samples
            && Median(samples) == 0.0 && Tolerance(levels) == -5.0
            && OutlierRows(levels, samples, 1) == [Outlier("w", 0.0, Some(0.0))]
  {
    var levels := [Level("L2", 10.0), Level("L1", 0.0)];
    var window := Element("w", "L2", Some(0.0), None, Some(10.0));
    var samples := [Sample(0.0, window)];
    assert levels[..1] == [levels[0]];
    assert LevelOf(levels, "L2") == LevelOf([levels[0]], "L2") == Some(levels[0]);
    assert [window][..0] == [];
    assert Samples(levels, [window]) == samples by {
      assert SampleOf(levels, window) == Some(samples[0]);
    }
    assert Gaps(levels) == [-10.0];
    assert Offsets(samples) == [0.0] && [0.0][..0] == [];
    assert Sorted(Offsets(samples)) == [0.0];
  }
}
