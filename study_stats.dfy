/**
 * The study-statistics aggregation of the `getStudyStats` endpoint: manually
 * logged hours and timer sessions, already fetched for one user, are summed into
 * per-course buckets keyed by the lower-cased course name, and into a grand total.
 */
module StudyStats {
  import opened Wrappers
  import opened Clock
  import opened CourseKey
  import opened Accumulation

  /**
   * An entry of the manually logged hours. `hoursLogged` is the number that
   * parseFloat reads from the stored field, or None where it reads NaN.
   */
  datatype ManualRecord = ManualRecord(course: string, hoursLogged: Option<real>)

  /** A finished timer session, its "HH:MM" start and end read as integers. */
  datatype TimerRecord = TimerRecord(course: string, startTime: ClockTime, endTime: ClockTime)

  /** Hours a manual entry adds: the parsed number, or 0 when the field does not parse. */
  function ManualHours(r: ManualRecord): (h: real)
    ensures r.hoursLogged.Some? ==> h == r.hoursLogged.value
    ensures r.hoursLogged.None? ==> h == 0.0
  {
    r.hoursLogged.GetOr(0.0)
  }

  /** Hours a timer session adds: its length in minutes divided by 60. */
  function TimerHours(r: TimerRecord): (h: real)
    ensures h * 60.0 == ElapsedMinutes(r.startTime, r.endTime) as real
  {
    ElapsedMinutes(r.startTime, r.endTime) as real / 60.0
  }

  function ManualContribution(r: ManualRecord): Contribution {
    Contribution(ToLower(r.course), ManualHours(r))
  }

  function TimerContribution(r: TimerRecord): Contribution {
    Contribution(ToLower(r.course), TimerHours(r))
  }

  function ManualContributions(rs: seq<ManualRecord>): (cs: seq<Contribution>)
    ensures |cs| == |rs|
  {
    seq(|rs|, i requires 0 <= i < |rs| => ManualContribution(rs[i]))
  }

  function TimerContributions(rs: seq<TimerRecord>): (cs: seq<Contribution>)
    ensures |cs| == |rs|
  {
    seq(|rs|, i requires 0 <= i < |rs| => TimerContribution(rs[i]))
  }

  /**
   * The buckets and total after every manual entry and then every timer session
   * has been added: every bucket is listed once in key order, and the total
   * equals the sum of the buckets.
   */
  function Aggregated(manual: seq<ManualRecord>, timers: seq<TimerRecord>): (t: Totals)
    ensures Consistent(t)
  {
    assert Consistent(Empty);
    AddAllKeepsConsistent(Empty, Contributions(manual, timers));
    AddAll(Empty, Contributions(manual, timers))
  }

  /**
   * The two accumulation loops: manual entries first, then timer sessions, each
   * adding the record's hours to its course's bucket and to the running total.
   */
  method Aggregate(manual: seq<ManualRecord>, timers: seq<TimerRecord>) returns (t: Totals)
    ensures t == Aggregated(manual, timers)
    ensures Consistent(t)
  {
    var byCourse: map<string, real> := map[];
    var courses: seq<string> := [];
    var totalHours := 0.0;

    var i := 0;
    while i < |manual|
      invariant 0 <= i <= |manual|
      invariant Totals(byCourse, courses, totalHours) == AddAll(Empty, ManualContributions(manual[..i]))
    {
      ghost var before := Totals(byCourse, courses, totalHours);
      var course := ToLower(manual[i].course);
      var hours := ManualHours(manual[i]);
      byCourse, courses, totalHours := AddToBucket(byCourse, courses, totalHours, course, hours);
      ManualStep(manual, i, before, Totals(byCourse, courses, totalHours));
      i := i + 1;
    }

    var j := 0;
    ManualDone(manual, timers);
    while j < |timers|
      invariant 0 <= j <= |timers|
      invariant Totals(byCourse, courses, totalHours) == AddAll(Empty, Contributions(manual, timers[..j]))
    {
      ghost var before := Totals(byCourse, courses, totalHours);
      var course := ToLower(timers[j].course);
      var hours := TimerHours(timers[j]);
      byCourse, courses, totalHours := AddToBucket(byCourse, courses, totalHours, course, hours);
      TimerStep(manual, timers, j, before, Totals(byCourse, courses, totalHours));
      j := j + 1;
    }
    TimersDone(manual, timers);
    t := Totals(byCourse, courses, totalHours);
  }

  /**
   * The body both loops share: a bucket that is missing or holds 0 is set to 0
   * (and a missing one takes its place at the end of the key order), then the
   * hours are added to the bucket and to the total.
   */
  method AddToBucket(byCourse: map<string, real>, courses: seq<string>, totalHours: real, course: string, hours: real)
    returns (byCourse': map<string, real>, courses': seq<string>, totalHours': real)
    ensures Totals(byCourse', courses', totalHours') == Add(Totals(byCourse, courses, totalHours), course, hours)
  {
    byCourse', courses' := byCourse, courses;
    if course !in byCourse' || byCourse'[course] == 0.0 {
      if course !in byCourse' {
        courses' := courses' + [course];
      }
      byCourse' := byCourse'[course := 0.0];
    }
    byCourse' := byCourse'[course := byCourse'[course] + hours];
    totalHours' := totalHours + hours;
    assert byCourse' == Add(Totals(byCourse, courses, totalHours), course, hours).byCourse;
  }

  function Contributions(manual: seq<ManualRecord>, timers: seq<TimerRecord>): seq<Contribution> {
    ManualContributions(manual) + TimerContributions(timers)
  }

  lemma {:induction false} ManualStep(manual: seq<ManualRecord>, i: int, before: Totals, after: Totals)
    requires 0 <= i < |manual|
    requires before == AddAll(Empty, ManualContributions(manual[..i]))
    requires after == Add(before, ToLower(manual[i].course), ManualHours(manual[i]))
    ensures after == AddAll(Empty, ManualContributions(manual[..i + 1]))
  {
    var done, c := ManualContributions(manual[..i]), ManualContribution(manual[i]);
    assert ManualContributions(manual[..i + 1]) == done + [c] by {
      assert manual[..i + 1] == manual[..i] + [manual[i]];
      ManualContributionsSnoc(manual[..i], manual[i]);
    }
    AddAllSnoc(Empty, done, c);
  }

  lemma {:induction false} ManualDone(manual: seq<ManualRecord>, timers: seq<TimerRecord>)
    ensures AddAll(Empty, ManualContributions(manual[..|manual|])) == AddAll(Empty, Contributions(manual, timers[..0]))
  {
    assert manual[..|manual|] == manual;
    assert timers[..0] == [];
    assert Contributions(manual, timers[..0]) == ManualContributions(manual);
  }

  lemma {:induction false} TimerStep(manual: seq<ManualRecord>, timers: seq<TimerRecord>, j: int, before: Totals, after: Totals)
    requires 0 <= j < |timers|
    requires before == AddAll(Empty, Contributions(manual, timers[..j]))
    requires after == Add(before, ToLower(timers[j].course), TimerHours(timers[j]))
    ensures after == AddAll(Empty, Contributions(manual, timers[..j + 1]))
  {
    assert timers[..j + 1] == timers[..j] + [timers[j]];
    TimerContributionsSnoc(timers[..j], timers[j]);
    var done := Contributions(manual, timers[..j]);
    assert Contributions(manual, timers[..j + 1]) == done + [TimerContribution(timers[j])];
    AddAllSnoc(Empty, done, TimerContribution(timers[j]));
  }

  lemma {:induction false} TimersDone(manual: seq<ManualRecord>, timers: seq<TimerRecord>)
    ensures AddAll(Empty, Contributions(manual, timers[..|timers|])) == Aggregated(manual, timers)
  {
    assert timers[..|timers|] == timers;
  }

  lemma {:induction false} ManualContributionsSnoc(rs: seq<ManualRecord>, r: ManualRecord)
    ensures ManualContributions(rs + [r]) == ManualContributions(rs) + [ManualContribution(r)]
  {
  }

  lemma {:induction false} TimerContributionsSnoc(rs: seq<TimerRecord>, r: TimerRecord)
    ensures TimerContributions(rs + [r]) == TimerContributions(rs) + [TimerContribution(r)]
  {
  }

  /** Hours of the manual entries whose course lower-cases to `key`: the reference for a bucket. */
  function ManualHoursFor(rs: seq<ManualRecord>, key: string): real
    decreases |rs|
  {
    if rs == [] then 0.0
    else
      var last := rs[|rs| - 1];
      ManualHoursFor(rs[..|rs| - 1], key) + (if ToLower(last.course) == key then ManualHours(last) else 0.0)
  }

  /** Hours of the timer sessions whose course lower-cases to `key`. */
  function TimerHoursFor(rs: seq<TimerRecord>, key: string): real
    decreases |rs|
  {
    if rs == [] then 0.0
    else
      var last := rs[|rs| - 1];
      TimerHoursFor(rs[..|rs| - 1], key) + (if ToLower(last.course) == key then TimerHours(last) else 0.0)
  }

  /** Hours of all manual entries. */
  function ManualHoursTotal(rs: seq<ManualRecord>): real
    decreases |rs|
  {
    if rs == [] then 0.0 else ManualHoursTotal(rs[..|rs| - 1]) + ManualHours(rs[|rs| - 1])
  }

  /** Hours of all timer sessions. */
  function TimerHoursTotal(rs: seq<TimerRecord>): real
    decreases |rs|
  {
    if rs == [] then 0.0 else TimerHoursTotal(rs[..|rs| - 1]) + TimerHours(rs[|rs| - 1])
  }

  /** There is a bucket for exactly the lower-cased course names of the two inputs. */
  lemma {:induction false} AggregatedKeys(manual: seq<ManualRecord>, timers: seq<TimerRecord>)
    ensures forall k :: k in Aggregated(manual, timers).byCourse <==>
      (exists i :: 0 <= i < |manual| && ToLower(manual[i].course) == k) ||
      (exists j :: 0 <= j < |timers| && ToLower(timers[j].course) == k)
  {
    AddAllKeys(Empty, Contributions(manual, timers));
    forall k ensures k in Aggregated(manual, timers).byCourse <==>
      (exists i :: 0 <= i < |manual| && ToLower(manual[i].course) == k) ||
      (exists j :: 0 <= j < |timers| && ToLower(timers[j].course) == k)
    {
      ContributionKeys(manual, timers, k);
    }
  }

  lemma {:induction false} ContributionKeys(manual: seq<ManualRecord>, timers: seq<TimerRecord>, k: string)
    ensures var cs := ManualContributions(manual) + TimerContributions(timers);
      (exists n :: 0 <= n < |cs| && cs[n].key == k) <==>
      (exists i :: 0 <= i < |manual| && ToLower(manual[i].course) == k) ||
      (exists j :: 0 <= j < |timers| && ToLower(timers[j].course) == k)
  {
    var ms, ts := ManualContributions(manual), TimerContributions(timers);
    var cs := ms + ts;
    if exists n :: 0 <= n < |cs| && cs[n].key == k {
      var n :| 0 <= n < |cs| && cs[n].key == k;
      if n < |ms| {
        assert ToLower(manual[n].course) == k;
      } else {
        assert ToLower(timers[n - |ms|].course) == k;
      }
    }
    if exists i :: 0 <= i < |manual| && ToLower(manual[i].course) == k {
      var i :| 0 <= i < |manual| && ToLower(manual[i].course) == k;
      assert cs[i].key == k;
    }
    if exists j :: 0 <= j < |timers| && ToLower(timers[j].course) == k {
      var j :| 0 <= j < |timers| && ToLower(timers[j].course) == k;
      assert cs[|ms| + j].key == k;
    }
  }

  /**
   * Each bucket holds exactly the hours of the manual entries and timer sessions
   * whose course lower-cases to its key, and the total is the hours of all records.
   */
  lemma {:induction false} AggregatedBucketHours(manual: seq<ManualRecord>, timers: seq<TimerRecord>)
    ensures forall k :: k in Aggregated(manual, timers).byCourse ==>
      Aggregated(manual, timers).byCourse[k] == ManualHoursFor(manual, k) + TimerHoursFor(timers, k)
    ensures Aggregated(manual, timers).totalHours == ManualHoursTotal(manual) + TimerHoursTotal(timers)
  {
    var ms, ts := ManualContributions(manual), TimerContributions(timers);
    AddAllValues(Empty, ms + ts);
    AddAllTotal(Empty, ms + ts);
    forall k ensures HoursFor(ms + ts, k) == ManualHoursFor(manual, k) + TimerHoursFor(timers, k) {
      HoursForAppend(ms, ts, k);
      ManualHoursForMatches(manual, k);
      TimerHoursForMatches(timers, k);
    }
    HoursOfAppend(ms, ts);
    ManualHoursTotalMatches(manual);
    TimerHoursTotalMatches(timers);
  }

  lemma {:induction false} HoursForAppend(cs: seq<Contribution>, ds: seq<Contribution>, key: string)
    ensures HoursFor(cs + ds, key) == HoursFor(cs, key) + HoursFor(ds, key)
    decreases |ds|
  {
    if ds == [] {
      assert cs + ds == cs;
    } else {
      HoursForAppend(cs, ds[..|ds| - 1], key);
      assert (cs + ds)[..|cs + ds| - 1] == cs + ds[..|ds| - 1];
    }
  }

  lemma {:induction false} HoursOfAppend(cs: seq<Contribution>, ds: seq<Contribution>)
    ensures HoursOf(cs + ds) == HoursOf(cs) + HoursOf(ds)
    decreases |ds|
  {
    if ds == [] {
      assert cs + ds == cs;
    } else {
      HoursOfAppend(cs, ds[..|ds| - 1]);
      assert (cs + ds)[..|cs + ds| - 1] == cs + ds[..|ds| - 1];
    }
  }

  lemma {:induction false} ManualHoursForMatches(rs: seq<ManualRecord>, key: string)
    ensures HoursFor(ManualContributions(rs), key) == ManualHoursFor(rs, key)
    decreases |rs|
  {
    if rs != [] {
      ManualHoursForMatches(rs[..|rs| - 1], key);
      assert ManualContributions(rs)[..|rs| - 1] == ManualContributions(rs[..|rs| - 1]);
    }
  }

  lemma {:induction false} TimerHoursForMatches(rs: seq<TimerRecord>, key: string)
    ensures HoursFor(TimerContributions(rs), key) == TimerHoursFor(rs, key)
    decreases |rs|
  {
    if rs != [] {
      TimerHoursForMatches(rs[..|rs| - 1], key);
      assert TimerContributions(rs)[..|rs| - 1] == TimerContributions(rs[..|rs| - 1]);
    }
  }

  lemma {:induction false} ManualHoursTotalMatches(rs: seq<ManualRecord>)
    ensures HoursOf(ManualContributions(rs)) == ManualHoursTotal(rs)
    decreases |rs|
  {
    if rs != [] {
      ManualHoursTotalMatches(rs[..|rs| - 1]);
      assert ManualContributions(rs)[..|rs| - 1] == ManualContributions(rs[..|rs| - 1]);
    }
  }

  lemma {:induction false} TimerHoursTotalMatches(rs: seq<TimerRecord>)
    ensures HoursOf(TimerContributions(rs)) == TimerHoursTotal(rs)
    decreases |rs|
  {
    if rs != [] {
      TimerHoursTotalMatches(rs[..|rs| - 1]);
      assert TimerContributions(rs)[..|rs| - 1] == TimerContributions(rs[..|rs| - 1]);
    }
  }

  /**
   * A manual entry whose hours do not parse adds nothing: the total and every
   * existing bucket stay as they were. Its course still gets a bucket, holding 0
   * when it is new, and the records after it are still read.
   */
  lemma {:induction false} UnparsedHoursAddNothing(manual: seq<ManualRecord>, timers: seq<TimerRecord>, r: ManualRecord)
    requires r.hoursLogged.None?
    ensures var before, after := Aggregated(manual, timers), Aggregated(manual + [r], timers);
      && after.totalHours == before.totalHours
      && after.byCourse.Keys == before.byCourse.Keys + {ToLower(r.course)}
      && (forall k :: k in before.byCourse ==> after.byCourse[k] == before.byCourse[k])
      && (ToLower(r.course) !in before.byCourse ==> after.byCourse[ToLower(r.course)] == 0.0)
  {
    SnocKeys(manual, timers, r);
    UnparsedKeepsHours(manual, timers, r);
    if ToLower(r.course) !in Aggregated(manual, timers).byCourse {
      UnparsedNewBucket(manual, timers, r);
    }
  }

  lemma {:induction false} UnparsedKeepsHours(manual: seq<ManualRecord>, timers: seq<TimerRecord>, r: ManualRecord)
    requires r.hoursLogged.None?
    ensures var before, after := Aggregated(manual, timers), Aggregated(manual + [r], timers);
      && after.totalHours == before.totalHours
      && (forall k :: k in before.byCourse && k in after.byCourse ==> after.byCourse[k] == before.byCourse[k])
  {
    var manual' := manual + [r];
    assert manual'[..|manual'| - 1] == manual;
    assert ManualHoursTotal(manual') == ManualHoursTotal(manual);
    assert forall k :: ManualHoursFor(manual', k) == ManualHoursFor(manual, k);
    AggregatedBucketHours(manual, timers);
    AggregatedBucketHours(manual', timers);
  }

  lemma {:induction false} UnparsedNewBucket(manual: seq<ManualRecord>, timers: seq<TimerRecord>, r: ManualRecord)
    requires r.hoursLogged.None?
    requires ToLower(r.course) !in Aggregated(manual, timers).byCourse
    ensures ToLower(r.course) in Aggregated(manual + [r], timers).byCourse
    ensures Aggregated(manual + [r], timers).byCourse[ToLower(r.course)] == 0.0
  {
    var manual', key := manual + [r], ToLower(r.course);
    assert manual'[..|manual'| - 1] == manual;
    SnocKeys(manual, timers, r);
    AggregatedKeys(manual, timers);
    AggregatedBucketHours(manual', timers);
    assert ManualHoursFor(manual, key) == 0.0 by { NoManualEntryNoHours(manual, key); }
    assert TimerHoursFor(timers, key) == 0.0 by { NoTimerNoHours(timers, key); }
  }

  /** One more manual entry adds its key to the buckets and nothing else. */
  lemma {:induction false} SnocKeys(manual: seq<ManualRecord>, timers: seq<TimerRecord>, r: ManualRecord)
    ensures Aggregated(manual + [r], timers).byCourse.Keys == Aggregated(manual, timers).byCourse.Keys + {ToLower(r.course)}
  {
    var manual' := manual + [r];
    AggregatedKeys(manual, timers);
    AggregatedKeys(manual', timers);
    forall k ensures k in Aggregated(manual', timers).byCourse <==> k in Aggregated(manual, timers).byCourse || k == ToLower(r.course) {
      NamedBySnoc(manual, r, k);
    }
  }

  /** A key is named by the entries followed by `r` exactly when it is named by
      the entries or is `r`'s key. */
  lemma {:induction false} NamedBySnoc(manual: seq<ManualRecord>, r: ManualRecord, k: string)
    ensures (exists i :: 0 <= i < |manual + [r]| && ToLower((manual + [r])[i].course) == k) <==>
      (exists i :: 0 <= i < |manual| && ToLower(manual[i].course) == k) || k == ToLower(r.course)
  {
    var manual' := manual + [r];
    if exists i :: 0 <= i < |manual'| && ToLower(manual'[i].course) == k {
      var i :| 0 <= i < |manual'| && ToLower(manual'[i].course) == k;
      if i < |manual| { assert ToLower(manual[i].course) == k; }
    }
    if exists i :: 0 <= i < |manual| && ToLower(manual[i].course) == k {
      var i :| 0 <= i < |manual| && ToLower(manual[i].course) == k;
      assert ToLower(manual'[i].course) == k;
    }
    if k == ToLower(r.course) {
      assert ToLower(manual'[|manual|].course) == k;
    }
  }

  lemma {:induction false} NoManualEntryNoHours(rs: seq<ManualRecord>, key: string)
    requires forall i :: 0 <= i < |rs| ==> ToLower(rs[i].course) != key
    ensures ManualHoursFor(rs, key) == 0.0
    decreases |rs|
  {
    if rs != [] {
      NoManualEntryNoHours(rs[..|rs| - 1], key);
    }
  }

  lemma {:induction false} NoTimerNoHours(rs: seq<TimerRecord>, key: string)
    requires forall i :: 0 <= i < |rs| ==> ToLower(rs[i].course) != key
    ensures TimerHoursFor(rs, key) == 0.0
    decreases |rs|
  {
    if rs != [] {
      NoTimerNoHours(rs[..|rs| - 1], key);
    }
  }

  /** For well-formed times a session adds at least 0 and under 24 hours, and 0
      exactly when it starts and ends at the same clock time. */
  lemma {:induction false} TimerHoursWithinDay(r: TimerRecord)
    requires WellFormed(r.startTime) && WellFormed(r.endTime)
    ensures 0.0 <= TimerHours(r) < 24.0
    ensures TimerHours(r) == 0.0 <==> r.startTime == r.endTime
  {
    ElapsedWithinDay(r.startTime, r.endTime);
  }

  /** A session from 22:00 to 02:00 crosses midnight and adds 4 hours; one from
      09:00 to 10:30 adds an hour and a half. */
  lemma TimerHoursExamples(course: string)
    ensures TimerHours(TimerRecord(course, ClockTime(22, 0), ClockTime(2, 0))) == 4.0
    ensures TimerHours(TimerRecord(course, ClockTime(9, 0), ClockTime(10, 30))) == 1.5
  {
  }

  /** With nothing logged there is no bucket and the total is 0. */
  lemma NoRecordsNoBuckets()
    ensures Aggregated([], []) == Empty
  {
    assert ManualContributions([]) + TimerContributions([]) == [];
  }

  /** "Biology" logged by hand for 3.5 hours and "biology" timed from 08:00 to
      09:00 make one bucket "biology" of 4.5 hours. */
  lemma BiologyExample()
    ensures Aggregated([ManualRecord("Biology", Some(3.5))],
                       [TimerRecord("biology", ClockTime(8, 0), ClockTime(9, 0))])
      == Totals(map["biology" := 4.5], ["biology"], 4.5)
  {
    BiologyContributions();
    BiologyFold();
  }

  lemma BiologyContributions()
    ensures Contributions([ManualRecord("Biology", Some(3.5))],
                          [TimerRecord("biology", ClockTime(8, 0), ClockTime(9, 0))])
      == [Contribution("biology", 3.5)] + [Contribution("biology", 1.0)]
  {
    assert ToLower("Biology") == "biology";
    assert ToLower("biology") == "biology";
    assert TimerHours(TimerRecord("biology", ClockTime(8, 0), ClockTime(9, 0))) == 1.0;
  }

  lemma BiologyFold()
    ensures AddAll(Empty, [Contribution("biology", 3.5)] + [Contribution("biology", 1.0)])
      == Totals(map["biology" := 4.5], ["biology"], 4.5)
  {
    var first, second := Contribution("biology", 3.5), Contribution("biology", 1.0);
    AddAllSnoc(Empty, [], first);
    AddAllSnoc(Empty, [first], second);
    assert AddAll(Empty, []) == Empty;
    assert AddAll(Empty, [first]) == Totals(map["biology" := 3.5], ["biology"], 3.5);
  }
}
