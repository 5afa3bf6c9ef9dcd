/**
 * The response of the `getStudyStats` endpoint: one breakdown entry per bucket
 * with its share of the total, sorted in place by hours, most first.
 *
 * Rounding (`toFixed` followed by `parseFloat`) is a presentation step; the
 * model takes it as two functions, `round2` for hours and `round1` for
 * percentages, and applies them only to values that are emitted.
 */
module Breakdown {
  import opened Accumulation
  import opened StudyStats

  /** One line of the breakdown: the bucket key, its rounded hours and its rounded share in percent. */
  datatype Entry = Entry(course: string, hours: real, percentage: real)

  /** The response body: the rounded total and the sorted breakdown. */
  datatype Stats = Stats(totalHours: real, courseBreakdown: seq<Entry>)

  /** A bucket's share of the total in percent; 0 when the total is not positive. */
  function Percentage(hours: real, total: real): (p: real)
    ensures total > 0.0 ==> p * total == hours * 100.0
    ensures total <= 0.0 ==> p == 0.0
  {
    if total > 0.0 then hours / total * 100.0 else 0.0
  }

  /** The entry built for one bucket: both emitted numbers come from the unrounded bucket and total. */
  function MakeEntry(course: string, hours: real, total: real, round2: real -> real, round1: real -> real): (e: Entry)
    ensures e.course == course
    ensures e.hours == round2(hours)
    ensures e.percentage == round1(Percentage(hours, total))
  {
    Entry(course, round2(hours), round1(Percentage(hours, total)))
  }

  /** Entries for the buckets named in `ks`, in that order. */
  function EntriesFor(ks: seq<string>, t: Totals, round2: real -> real, round1: real -> real): (es: seq<Entry>)
    ensures |es| == |ks|
  {
    seq(|ks|, i requires 0 <= i < |ks| => MakeEntry(ks[i], HoursIn(t, ks[i]), t.totalHours, round2, round1))
  }

  /** The unsorted breakdown: one entry per bucket, in the order the buckets were created. */
  function BreakdownOf(t: Totals, round2: real -> real, round1: real -> real): (es: seq<Entry>)
    ensures |es| == |t.courses|
    ensures forall i :: 0 <= i < |es| ==>
      && es[i].course == t.courses[i]
      && es[i].hours == round2(HoursIn(t, t.courses[i]))
      && es[i].percentage == round1(Percentage(HoursIn(t, t.courses[i]), t.totalHours))
  {
    EntriesFor(t.courses, t, round2, round1)
  }

  /** No rounding: the value as computed. */
  function Unrounded(x: real): real { x }

  function SumHours(es: seq<Entry>): real
    decreases |es|
  {
    if es == [] then 0.0 else SumHours(es[..|es| - 1]) + es[|es| - 1].hours
  }

  function SumPercentages(es: seq<Entry>): real
    decreases |es|
  {
    if es == [] then 0.0 else SumPercentages(es[..|es| - 1]) + es[|es| - 1].percentage
  }

  /**
   * The breakdown has exactly one entry per bucket: each bucket's key appears in
   * exactly one entry, and the entry carries the rounding of that bucket's
   * unrounded hours and of its unrounded share of the unrounded total.
   */
  lemma {:induction false} BreakdownOnePerBucket(t: Totals, round2: real -> real, round1: real -> real)
    requires Consistent(t)
    ensures var es := BreakdownOf(t, round2, round1);
      && |es| == |t.courses|
      && (forall k :: k in t.byCourse <==> exists i :: 0 <= i < |es| && es[i].course == k)
      && (forall i, j :: 0 <= i < j < |es| ==> es[i].course != es[j].course)
      && (forall i :: 0 <= i < |es| ==>
            && es[i].course in t.byCourse
            && es[i].hours == round2(t.byCourse[es[i].course])
            && es[i].percentage == round1(Percentage(t.byCourse[es[i].course], t.totalHours)))
  {
    var es := BreakdownOf(t, round2, round1);
    forall k ensures k in t.byCourse <==> exists i :: 0 <= i < |es| && es[i].course == k {
      if k in t.byCourse {
        var i :| 0 <= i < |t.courses| && t.courses[i] == k;
        assert es[i].course == k;
      }
    }
  }

  /** A total that is not positive gives every entry the rounding of 0 percent. */
  lemma {:induction false} NoTotalNoShares(t: Totals, round2: real -> real, round1: real -> real)
    requires t.totalHours <= 0.0
    ensures forall e :: e in BreakdownOf(t, round2, round1) ==> e.percentage == round1(0.0)
  {
  }

  /**
   * Without rounding, the entries' hours add up to the total, and when the total
   * is positive their percentages add up to exactly 100.
   */
  lemma {:induction false} UnroundedSharesAddUp(t: Totals)
    requires Consistent(t)
    ensures SumHours(BreakdownOf(t, Unrounded, Unrounded)) == t.totalHours
    ensures t.totalHours > 0.0 ==> SumPercentages(BreakdownOf(t, Unrounded, Unrounded)) == 100.0
  {
    EntryHoursSum(t.courses, t);
    if t.totalHours > 0.0 {
      EntryPercentagesSum(t.courses, t);
      WholeIsHundredPercent(SumPercentages(BreakdownOf(t, Unrounded, Unrounded)), SumOf(t.courses, t.byCourse), t.totalHours);
    }
  }

  lemma {:induction false} WholeIsHundredPercent(p: real, sum: real, total: real)
    requires total > 0.0 && sum == total && p * total == sum * 100.0
    ensures p == 100.0
  {
    assert (p - 100.0) * total == 0.0;
  }

  lemma {:induction false} EntryHoursSum(ks: seq<string>, t: Totals)
    requires forall k :: k in ks ==> k in t.byCourse
    ensures SumHours(EntriesFor(ks, t, Unrounded, Unrounded)) == SumOf(ks, t.byCourse)
    decreases |ks|
  {
    if ks != [] {
      var es := EntriesFor(ks, t, Unrounded, Unrounded);
      EntryHoursSum(ks[..|ks| - 1], t);
      assert es[..|es| - 1] == EntriesFor(ks[..|ks| - 1], t, Unrounded, Unrounded);
    }
  }

  lemma {:induction false} EntryPercentagesSum(ks: seq<string>, t: Totals)
    requires forall k :: k in ks ==> k in t.byCourse
    requires t.totalHours > 0.0
    ensures SumPercentages(EntriesFor(ks, t, Unrounded, Unrounded)) * t.totalHours == SumOf(ks, t.byCourse) * 100.0
    decreases |ks|
  {
    if ks != [] {
      var init, last := ks[..|ks| - 1], ks[|ks| - 1];
      var es := EntriesFor(ks, t, Unrounded, Unrounded);
      EntryPercentagesSum(init, t);
      assert es[..|es| - 1] == EntriesFor(init, t, Unrounded, Unrounded);
      var e := es[|es| - 1];
      assert e.percentage * t.totalHours == t.byCourse[last] * 100.0;
      ScaleSum(SumPercentages(EntriesFor(init, t, Unrounded, Unrounded)), e.percentage, t.totalHours);
    }
  }

  lemma {:induction false} ScaleSum(a: real, b: real, c: real)
    ensures (a + b) * c == a * c + b * c
  {
  }

  /** Entries in non-increasing order of their (rounded) hours. */
  predicate SortedByHours(es: seq<Entry>) {
    forall i, j :: 0 <= i < j < |es| ==> es[i].hours >= es[j].hours
  }

  /**
   * The in-place sort of the breakdown, most hours first. The array ends up in
   * non-increasing order of hours and holds the same entries as before.
   */
  method SortByHoursDescending(a: array<Entry>)
    modifies a
    ensures SortedByHours(a[..])
    ensures multiset(a[..]) == multiset(old(a[..]))
  {
    var i := 0;
    while i < a.Length
      invariant 0 <= i <= a.Length
      invariant SortedByHours(a[..i])
      invariant multiset(a[..]) == multiset(old(a[..]))
    {
      InsertAt(a, i);
      i := i + 1;
    }
    assert a[..a.Length] == a[..];
  }

  /**
   * One step of the sort: moves `a[i]` left past every entry with fewer hours,
   * so that the first `i + 1` entries are in order.
   */
  method InsertAt(a: array<Entry>, i: int)
    requires 0 <= i < a.Length && SortedByHours(a[..i])
    modifies a
    ensures SortedByHours(a[..i + 1])
    ensures multiset(a[..]) == multiset(old(a[..]))
    ensures forall k :: i < k < a.Length ==> a[k] == old(a[k])
  {
    var j := i;
    while j > 0 && a[j - 1].hours < a[j].hours
      invariant 0 <= j <= i
      invariant forall p, q :: 0 <= p < q <= i && q != j ==> a[p].hours >= a[q].hours
      invariant multiset(a[..]) == multiset(old(a[..]))
      invariant forall k :: i < k < a.Length ==> a[k] == old(a[k])
    {
      SwapAdjacent(a, j);
      j := j - 1;
    }
  }

  /** Exchanges `a[j - 1]` and `a[j]`. */
  method SwapAdjacent(a: array<Entry>, j: int)
    requires 0 < j < a.Length
    modifies a
    ensures a[..] == old(a[..])[j - 1 := old(a[j])][j := old(a[j - 1])]
    ensures multiset(a[..]) == multiset(old(a[..]))
  {
    a[j - 1], a[j] := a[j], a[j - 1];
  }

  /**
   * The statistics computed by the handler once both record sets are fetched:
   * accumulate, build the breakdown, sort it, and round the total for output.
   */
  method GetStudyStats(manual: seq<ManualRecord>, timers: seq<TimerRecord>, round2: real -> real, round1: real -> real)
    returns (stats: Stats)
    ensures var t := Aggregated(manual, timers);
      && stats.totalHours == round2(t.totalHours)
      && SortedByHours(stats.courseBreakdown)
      && multiset(stats.courseBreakdown) == multiset(BreakdownOf(t, round2, round1))
      && |stats.courseBreakdown| == |t.byCourse|
      && (forall k :: k in t.byCourse <==>
            exists i :: 0 <= i < |stats.courseBreakdown| && stats.courseBreakdown[i].course == k)
  {
    var t := Aggregate(manual, timers);
    var entries := BreakdownOf(t, round2, round1);
    var a := new Entry[|entries|](i requires 0 <= i < |entries| => entries[i]);
    assert a[..] == entries;
    SortByHoursDescending(a);
    stats := Stats(round2(t.totalHours), a[..]);
    BreakdownOnePerBucket(t, round2, round1);
    DistinctCount(t);
    forall k ensures k in t.byCourse <==>
      exists i :: 0 <= i < |stats.courseBreakdown| && stats.courseBreakdown[i].course == k
    {
      SameCourses(entries, stats.courseBreakdown, k);
    }
  }

  /** Two orderings of the same entries name the same courses. */
  lemma {:induction false} SameCourses(es: seq<Entry>, fs: seq<Entry>, k: string)
    requires multiset(es) == multiset(fs)
    ensures (exists i :: 0 <= i < |es| && es[i].course == k) <==> (exists i :: 0 <= i < |fs| && fs[i].course == k)
  {
    if exists i :: 0 <= i < |es| && es[i].course == k {
      var i :| 0 <= i < |es| && es[i].course == k;
      assert es[i] in multiset(fs);
      var j :| 0 <= j < |fs| && fs[j] == es[i];
    }
    if exists i :: 0 <= i < |fs| && fs[i].course == k {
      var i :| 0 <= i < |fs| && fs[i].course == k;
      assert fs[i] in multiset(es);
      var j :| 0 <= j < |es| && es[j] == fs[i];
    }
  }

  /** Every bucket is listed once, so there are as many keys as buckets. */
  lemma {:induction false} DistinctCount(t: Totals)
    requires Consistent(t)
    ensures |t.courses| == |t.byCourse|
  {
    DistinctSetSize(t.courses);
    assert t.byCourse.Keys == set k | k in t.courses;
  }

  lemma {:induction false} DistinctSetSize(s: seq<string>)
    requires Distinct(s)
    ensures |set k | k in s| == |s|
    decreases |s|
  {
    if s != [] {
      var init, last := s[..|s| - 1], s[|s| - 1];
      DistinctSetSize(init);
      assert last !in init by {
        forall i | 0 <= i < |init| ensures init[i] != last {
          assert s[i] != s[|s| - 1];
        }
      }
      assert (set k | k in s) == (set k | k in init) + {last};
    }
  }

  /** No records give a total of 0 and an empty breakdown. */
  lemma NoRecordsEmptyBreakdown(round2: real -> real, round1: real -> real)
    ensures Aggregated([], []).totalHours == 0.0
    ensures BreakdownOf(Aggregated([], []), round2, round1) == []
  {
    NoRecordsNoBuckets();
  }

  /** Buckets of 2, 5 and 1 hours, sorted most first, come out as 5, 2, 1. */
  lemma {:induction false} SortExample(es: seq<Entry>, a: Entry, b: Entry, c: Entry)
    requires a.hours == 2.0 && b.hours == 5.0 && c.hours == 1.0
    requires SortedByHours(es) && multiset(es) == multiset([a, b, c])
    ensures es == [b, a, c]
  {
    assert |es| == |multiset([a, b, c])| == 3;
    forall i | 0 <= i < 3 ensures es[i] == a || es[i] == b || es[i] == c {
      assert es[i] in multiset([a, b, c]);
    }
    assert b in multiset(es);
    assert a in multiset(es);
    assert c in multiset(es);
  }
}
