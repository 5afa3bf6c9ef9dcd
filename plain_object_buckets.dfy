/**
 * The bucket dictionary as the handler writes it: a plain object literal `{}`.
 * Reading a key the object does not own falls through to what every object
 * inherits from `Object.prototype`. Two inherited names are all lower case, so a
 * lower-cased course name can reach them: "__proto__" and "constructor".
 *
 * - "__proto__": the read returns the prototype object, which is truthy, so no 0
 *   is stored; `+=` then produces a string, and writing a string to `__proto__`
 *   is ignored. No bucket appears, yet the hours still go into the total.
 * - "constructor": the read returns the inherited `Object` function, `+=` stores a
 *   string as an own entry, and building the breakdown later calls `toFixed` on
 *   that string, which throws; the request then fails as a whole.
 *
 * The rest of the model uses `Accumulation.Add`, a dictionary that only has what
 * was put into it, for which the running total is the sum of the buckets.
 */
module PlainObjectBuckets {
  import opened Wrappers
  import opened CourseKey
  import opened Accumulation
  import opened StudyStats

  const ProtoKey: string := "__proto__"
  const ConstructorKey: string := "constructor"

  /** One addition on the plain object; None once the request is bound to fail. */
  function AddAsWritten(t: Option<Totals>, key: string, hours: real): (r: Option<Totals>)
    ensures t.None? ==> r.None?
    ensures key != ProtoKey && key != ConstructorKey && t.Some? ==> r == Some(Add(t.value, key, hours))
    ensures key == ConstructorKey ==> r == None
    ensures key == ProtoKey && t.Some? ==> r == Some(t.value.(totalHours := t.value.totalHours + hours))
  {
    match t
    case None => None
    case Some(before) =>
      if key == ProtoKey then Some(before.(totalHours := before.totalHours + hours))
      else if key == ConstructorKey then None
      else Some(Add(before, key, hours))
  }

  function AddAllAsWritten(cs: seq<Contribution>): Option<Totals>
    decreases |cs|
  {
    if cs == [] then Some(Empty)
    else AddAsWritten(AddAllAsWritten(cs[..|cs| - 1]), cs[|cs| - 1].key, cs[|cs| - 1].hours)
  }

  /** A key that reads an inherited member of a plain object. */
  predicate Inherited(key: string) {
    key == ProtoKey || key == ConstructorKey
  }

  /** Both loops of the handler run on the plain object. When no course
      lower-cases to an inherited name, they give what the dictionary gives. */
  function AggregatedAsWritten(manual: seq<ManualRecord>, timers: seq<TimerRecord>): (r: Option<Totals>)
    ensures (forall i :: 0 <= i < |manual| ==> !Inherited(ToLower(manual[i].course)))
         && (forall j :: 0 <= j < |timers| ==> !Inherited(ToLower(timers[j].course)))
         ==> r == Some(Aggregated(manual, timers))
  {
    var cs := Contributions(manual, timers);
    assert (forall i :: 0 <= i < |manual| ==> !Inherited(ToLower(manual[i].course)))
        && (forall j :: 0 <= j < |timers| ==> !Inherited(ToLower(timers[j].course)))
        ==> AddAllAsWritten(cs) == Some(AddAll(Empty, cs)) by {
      if (forall i :: 0 <= i < |manual| ==> !Inherited(ToLower(manual[i].course)))
         && (forall j :: 0 <= j < |timers| ==> !Inherited(ToLower(timers[j].course))) {
        forall n | 0 <= n < |cs| ensures cs[n].key != ProtoKey && cs[n].key != ConstructorKey {
          if n < |manual| {
            assert cs[n].key == ToLower(manual[n].course);
          } else {
            assert cs[n].key == ToLower(timers[n - |manual|].course);
          }
        }
        AsWrittenAgreesOtherwise(cs);
      }
    }
    AddAllAsWritten(cs)
  }

  /** When no course lower-cases to an inherited name, the plain object behaves
      exactly like the dictionary the rest of the model uses. */
  lemma {:induction false} AsWrittenAgreesOtherwise(cs: seq<Contribution>)
    requires forall i :: 0 <= i < |cs| ==> cs[i].key != ProtoKey && cs[i].key != ConstructorKey
    ensures AddAllAsWritten(cs) == Some(AddAll(Empty, cs))
    decreases |cs|
  {
    if cs != [] {
      AsWrittenAgreesOtherwise(cs[..|cs| - 1]);
    }
  }

  /** A course named "__PROTO__" (2 hours) vanishes from the buckets but not from the
      total, so the total no longer equals the sum of the buckets. */
  lemma ProtoCourseDropped()
    ensures var r := AggregatedAsWritten([ManualRecord("__PROTO__", Some(2.0))], []);
      && r == Some(Totals(map[], [], 2.0))
      && !Consistent(r.value)
  {
    assert ToLower("__PROTO__") == ProtoKey;
    var cs := ManualContributions([ManualRecord("__PROTO__", Some(2.0))]) + TimerContributions([]);
    assert cs == [Contribution(ProtoKey, 2.0)];
    assert cs[..0] == [];
    assert AddAllAsWritten(cs) == AddAsWritten(Some(Empty), ProtoKey, 2.0);
    assert Empty.(totalHours := 0.0 + 2.0) == Totals(map[], [], 2.0);
  }

  /** A course named "Constructor" makes the whole request fail. */
  lemma ConstructorCourseFails()
    ensures AggregatedAsWritten([ManualRecord("Constructor", Some(1.0))], []) == None
  {
    assert ToLower("Constructor") == ConstructorKey;
    var cs := ManualContributions([ManualRecord("Constructor", Some(1.0))]) + TimerContributions([]);
    assert cs == [Contribution(ConstructorKey, 1.0)];
    assert cs[..0] == [];
  }

  /** With a dictionary that has only what was put into it, both courses get
      their own bucket and the total is the sum of the buckets. */
  lemma InheritedNamesAreOrdinaryBuckets()
    ensures Aggregated([ManualRecord("__PROTO__", Some(2.0))], []) == Totals(map[ProtoKey := 2.0], [ProtoKey], 2.0)
    ensures Aggregated([ManualRecord("Constructor", Some(1.0))], []) == Totals(map[ConstructorKey := 1.0], [ConstructorKey], 1.0)
    ensures Consistent(Aggregated([ManualRecord("__PROTO__", Some(2.0))], []))
    ensures Consistent(Aggregated([ManualRecord("Constructor", Some(1.0))], []))
  {
    assert ToLower("__PROTO__") == ProtoKey;
    assert ToLower("Constructor") == ConstructorKey;
    var proto := ManualContributions([ManualRecord("__PROTO__", Some(2.0))]) + TimerContributions([]);
    assert proto == [Contribution(ProtoKey, 2.0)];
    assert proto[..0] == [];
    var ctor := ManualContributions([ManualRecord("Constructor", Some(1.0))]) + TimerContributions([]);
    assert ctor == [Contribution(ConstructorKey, 1.0)];
    assert ctor[..0] == [];
  }
}
