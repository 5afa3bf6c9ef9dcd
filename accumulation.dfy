/**
 * Per-course running totals: the handler's `courseTotals` dictionary together
 * with its `totalHours` accumulator, and what adding one record's hours does to
 * them.
 */
module Accumulation {

  /** One record's share of the statistics: the bucket it lands in and the hours it adds. */
  datatype Contribution = Contribution(key: string, hours: real)

  /**
   * The dictionary and the running total. `byCourse` holds the dictionary's own
   * entries; `courses` lists its keys in the order they were first created, which
   * is the order in which the breakdown is built from them.
   */
  datatype Totals = Totals(byCourse: map<string, real>, courses: seq<string>, totalHours: real)

  /** The empty dictionary and a total of 0, before any record is read. */
  const Empty: Totals := Totals(map[], [], 0.0)

  /** The hours already in `key`'s bucket; a missing bucket holds none. */
  function HoursIn(t: Totals, key: string): real {
    if key in t.byCourse then t.byCourse[key] else 0.0
  }

  /**
   * Adds one record's hours: a missing (or zero) bucket is first set to 0, then
   * the hours are added to the bucket and to the total. Only that bucket changes,
   * by exactly the hours, and the total rises by the same amount.
   */
  function Add(t: Totals, key: string, hours: real): (r: Totals)
    ensures r.byCourse.Keys == t.byCourse.Keys + {key}
    ensures r.byCourse[key] == HoursIn(t, key) + hours
    ensures forall k :: k in t.byCourse && k != key ==> r.byCourse[k] == t.byCourse[k]
    ensures r.totalHours == t.totalHours + hours
    ensures r.courses == if key in t.byCourse then t.courses else t.courses + [key]
  {
    var start := if key in t.byCourse && t.byCourse[key] != 0.0 then t.byCourse[key] else 0.0;
    var courses := if key in t.byCourse then t.courses else t.courses + [key];
    Totals(t.byCourse[key := start + hours], courses, t.totalHours + hours)
  }

  /** Adds the contributions one after another, in sequence order. */
  function AddAll(t: Totals, cs: seq<Contribution>): Totals
    decreases |cs|
  {
    if cs == [] then t
    else
      var last := cs[|cs| - 1];
      Add(AddAll(t, cs[..|cs| - 1]), last.key, last.hours)
  }

  /** Hours of all contributions to bucket `key`: the reference the buckets are checked against. */
  function HoursFor(cs: seq<Contribution>, key: string): real
    decreases |cs|
  {
    if cs == [] then 0.0
    else HoursFor(cs[..|cs| - 1], key) + (if cs[|cs| - 1].key == key then cs[|cs| - 1].hours else 0.0)
  }

  /** Hours of all contributions together. */
  function HoursOf(cs: seq<Contribution>): real
    decreases |cs|
  {
    if cs == [] then 0.0 else HoursOf(cs[..|cs| - 1]) + cs[|cs| - 1].hours
  }

  predicate Distinct(s: seq<string>) {
    forall i, j :: 0 <= i < j < |s| ==> s[i] != s[j]
  }

  /** Sum of the buckets named in `ks`, in that order. */
  function SumOf(ks: seq<string>, m: map<string, real>): real
    requires forall k :: k in ks ==> k in m
    decreases |ks|
  {
    if ks == [] then 0.0 else SumOf(ks[..|ks| - 1], m) + m[ks[|ks| - 1]]
  }

  /**
   * The invariant the two loops keep: every bucket is listed exactly once, and
   * the running total equals the sum of all buckets.
   */
  ghost predicate Consistent(t: Totals) {
    && Distinct(t.courses)
    && (forall k :: k in t.byCourse <==> k in t.courses)
    && t.totalHours == SumOf(t.courses, t.byCourse)
  }

  lemma {:induction false} SumOfOtherKey(ks: seq<string>, m: map<string, real>, key: string, v: real)
    requires forall k :: k in ks ==> k in m
    requires key !in ks
    ensures SumOf(ks, m[key := v]) == SumOf(ks, m)
    decreases |ks|
  {
    if ks != [] {
      SumOfOtherKey(ks[..|ks| - 1], m, key, v);
    }
  }

  lemma {:induction false} SumOfChangedKey(ks: seq<string>, m: map<string, real>, key: string, v: real)
    requires forall k :: k in ks ==> k in m
    requires Distinct(ks) && key in ks
    ensures SumOf(ks, m[key := v]) == SumOf(ks, m) - m[key] + v
    decreases |ks|
  {
    var init := ks[..|ks| - 1];
    if ks[|ks| - 1] == key {
      assert key !in init by {
        forall i | 0 <= i < |init| ensures init[i] != key {
          assert ks[i] != ks[|ks| - 1];
        }
      }
      SumOfOtherKey(init, m, key, v);
    } else {
      assert key in init by {
        var i :| 0 <= i < |ks| && ks[i] == key;
        assert i < |ks| - 1 && init[i] == key;
      }
      SumOfChangedKey(init, m, key, v);
    }
  }

  /** Adding one record keeps every bucket listed once and the total equal to their sum. */
  lemma {:induction false} AddKeepsConsistent(t: Totals, key: string, hours: real)
    requires Consistent(t)
    ensures Consistent(Add(t, key, hours))
  {
    if key in t.byCourse {
      AddToExisting(t, key, hours);
    } else {
      AddToNew(t, key, hours);
    }
  }

  lemma {:induction false} AddToExisting(t: Totals, key: string, hours: real)
    requires Consistent(t) && key in t.byCourse
    ensures Consistent(Add(t, key, hours))
  {
    var r := Add(t, key, hours);
    assert r.courses == t.courses;
    assert r.byCourse == t.byCourse[key := t.byCourse[key] + hours];
    SumOfChangedKey(t.courses, t.byCourse, key, t.byCourse[key] + hours);
  }

  lemma {:induction false} AddToNew(t: Totals, key: string, hours: real)
    requires Consistent(t) && key !in t.byCourse
    ensures Consistent(Add(t, key, hours))
  {
    var r := Add(t, key, hours);
    var m := t.byCourse[key := hours];
    assert r.courses == t.courses + [key];
    assert r.byCourse == m;
    assert Distinct(r.courses) by {
      forall i, j | 0 <= i < j < |r.courses| ensures r.courses[i] != r.courses[j] {
        if j == |t.courses| {
          assert r.courses[i] == t.courses[i];
        }
      }
    }
    SumOfOtherKey(t.courses, t.byCourse, key, hours);
    assert r.courses[..|r.courses| - 1] == t.courses;
    assert SumOf(r.courses, m) == SumOf(t.courses, m) + hours;
  }

  /** Any run of additions keeps every bucket listed once and the total equal to their sum. */
  lemma {:induction false} AddAllKeepsConsistent(t: Totals, cs: seq<Contribution>)
    requires Consistent(t)
    ensures Consistent(AddAll(t, cs))
    decreases |cs|
  {
    if cs != [] {
      AddAllKeepsConsistent(t, cs[..|cs| - 1]);
      AddKeepsConsistent(AddAll(t, cs[..|cs| - 1]), cs[|cs| - 1].key, cs[|cs| - 1].hours);
    }
  }

  /** After the additions, a bucket exists exactly for the keys that were there
      before or that some contribution names. */
  lemma {:induction false} AddAllKeys(t: Totals, cs: seq<Contribution>)
    ensures forall k :: k in AddAll(t, cs).byCourse <==>
      k in t.byCourse || exists i :: 0 <= i < |cs| && cs[i].key == k
    decreases |cs|
  {
    if cs != [] {
      var init := cs[..|cs| - 1];
      AddAllKeys(t, init);
      forall k ensures k in AddAll(t, cs).byCourse <==> k in t.byCourse || exists i :: 0 <= i < |cs| && cs[i].key == k {
        if k in AddAll(t, init).byCourse && k !in t.byCourse {
          var i :| 0 <= i < |init| && init[i].key == k;
          assert cs[i].key == k;
        }
        if exists i :: 0 <= i < |cs| && cs[i].key == k {
          var i :| 0 <= i < |cs| && cs[i].key == k;
          if i < |init| { assert init[i].key == k; }
        }
      }
    }
  }

  /** After the additions, each bucket holds what it held before plus the hours
      of the contributions naming it. */
  lemma {:induction false} AddAllValues(t: Totals, cs: seq<Contribution>)
    ensures forall k :: k in AddAll(t, cs).byCourse ==> AddAll(t, cs).byCourse[k] == HoursIn(t, k) + HoursFor(cs, k)
    decreases |cs|
  {
    if cs != [] {
      var init, last := cs[..|cs| - 1], cs[|cs| - 1];
      AddAllValues(t, init);
      var before := AddAll(t, init);
      forall k | k in AddAll(t, cs).byCourse
        ensures AddAll(t, cs).byCourse[k] == HoursIn(t, k) + HoursFor(cs, k)
      {
        if k == last.key && k !in before.byCourse {
          AddAllKeys(t, init);
          NoContributionNoHours(init, k);
        }
      }
    }
  }

  /** After the additions, the total has risen by the hours of all of them. */
  lemma {:induction false} AddAllTotal(t: Totals, cs: seq<Contribution>)
    ensures AddAll(t, cs).totalHours == t.totalHours + HoursOf(cs)
    decreases |cs|
  {
    if cs != [] {
      AddAllTotal(t, cs[..|cs| - 1]);
    }
  }

  /** A key no contribution names gets no hours. */
  lemma {:induction false} NoContributionNoHours(cs: seq<Contribution>, key: string)
    requires forall i :: 0 <= i < |cs| ==> cs[i].key != key
    ensures HoursFor(cs, key) == 0.0
    decreases |cs|
  {
    if cs != [] {
      NoContributionNoHours(cs[..|cs| - 1], key);
    }
  }

  /** Adding one more contribution after a run of them. */
  lemma {:induction false} AddAllSnoc(t: Totals, cs: seq<Contribution>, c: Contribution)
    ensures AddAll(t, cs + [c]) == Add(AddAll(t, cs), c.key, c.hours)
  {
    assert (cs + [c])[..|cs|] == cs;
  }
}
