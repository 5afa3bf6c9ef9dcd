# Study statistics of `getStudyStats`

This project models the one piece of real computation in the EduTrack Cloud
Functions backend: the statistics that the `getStudyStats` HTTP endpoint
computes from a user's study records (`functions/index.js`, lines 394-456).
Two kinds of record are read:

- manually logged entries, each a course name and a number of hours;
- finished timer sessions, each a course name and an "HH:MM" start and end time.

The handler does four things:

1. It adds every record's hours into a bucket keyed by the lower-cased course name, and into a grand total.
2. It builds one breakdown entry per bucket, holding the bucket's hours and its percentage of the total.
3. It sorts the breakdown so that the courses with the most hours come first.
4. It rounds the emitted numbers.

The Dafny modules follow that pipeline:

| file | module | what it holds |
|---|---|---|
| `clock.dfy` | `Clock` | a timer's clock times, and the session length with its midnight wrap |
| `course_key.dfy` | `CourseKey` | the bucket key, which is the course name in lower case |
| `accumulation.dfy` | `Accumulation` | the bucket dictionary with its key order and running total; adding one record's hours |
| `study_stats.dfy` | `StudyStats` | the records and the two accumulation loops (`Aggregate`, an imperative method proved against the fold `Aggregated`) |
| `breakdown.dfy` | `Breakdown` | the breakdown entries, the percentage guard, the in-place sort of an array of entries, and the whole computation `GetStudyStats` |
| `plain_object_buckets.dfy` | `PlainObjectBuckets` | the bucket dictionary as written (a plain object), for the finding below |
| `wrappers.dfy` | `Wrappers` | an `Option` type |

Rounding (`toFixed(2)` / `toFixed(1)` followed by `parseFloat`) is taken as two
function parameters, `round2` and `round1`. Every property below that does not
mention them holds whatever they are. The model applies them only to the values
that are emitted.

Two behaviours of the handler on unusual records:

- The handler does not check the timer strings. Where `parseInt` yields NaN, the session's hours become NaN, and so do its bucket and the total. The model takes timer times as the integers that `parseInt` produced, so that case is outside it (see "Left out").
- A manual entry whose hours do not parse contributes 0, and the handler still creates a bucket for its course, holding 0 if it is new. The model does the same (`StudyStats.UnparsedHoursAddNothing`).

## Model

| member | source | states |
|---|---|---|
| Clock.MinuteOfDay | functions/index.js:420-421 | a time's minute of the day is hours times 60 plus minutes, and lies in 0 to 1439 for a real clock time |
| Clock.ElapsedMinutes | functions/index.js:420-427 | for any integers read from the time strings, the session length is the end minute minus the start minute, plus exactly one day when that difference is negative and nothing otherwise |
| Clock.ElapsedWithinDay | functions/index.js:423-427 | for real clock times a session lasts 0 to 1439 minutes, and lasts 0 exactly when start and end are the same time, never a full day |
| Clock.ElapsedIsForwardDistance | functions/index.js:423-427 | for real clock times the session length is the minute difference reduced modulo 1440 |
| Clock.AdvanceByElapsed | functions/index.js:423-427 | moving the start time forward by the session length on a 24-hour dial lands on the end time |
| Clock.ElapsedIsOnlyForwardReading | functions/index.js:423-427 | any length under a day that moves the start onto the end is the session length, so the midnight rule picks the only forward reading |
| Clock.MinuteOfDayInjective | functions/index.js:420-421 | hours times 60 plus minutes determines a real clock time, and identifies two times exactly when they are equal |
| Clock.ClockOfMinuteOfDay | functions/index.js:420-421 | a real clock time is recovered from its minute of the day by division and remainder by 60 |
| CourseKey.ToLower | functions/index.js:400 | the key has the course name's length; each capital letter becomes its small letter and every other character is kept |
| CourseKey.SameKeyIffEqualIgnoringCase | functions/index.js:400 | two records share a bucket if and only if their course names are equal up to letter case, letter case being stated by position in the alphabet |
| CourseKey.ToLowerIdempotent | functions/index.js:400 | a key holds no capital letter, and lower-casing it again gives the same key |
| Accumulation.Add | functions/index.js:403-408 | adding one record creates its bucket if missing (last in key order), raises that bucket by the hours from what it held (0 if missing), leaves every other bucket unchanged and raises the total by the same hours |
| Accumulation.AddKeepsConsistent | functions/index.js:403-408 | one addition keeps every bucket listed once in key order and keeps the total equal to the sum of the buckets |
| Accumulation.AddAllKeepsConsistent | functions/index.js:398-437 | any run of additions keeps the total equal to the sum of the buckets |
| Accumulation.AddAllKeys | functions/index.js:398-437 | after a run of additions, the buckets are the earlier ones plus one for each key that some record names, and no others |
| Accumulation.AddAllValues | functions/index.js:398-437 | after a run of additions, each bucket holds its earlier hours plus the hours of exactly the records naming it |
| Accumulation.AddAllTotal | functions/index.js:394-437 | after a run of additions, the total has risen by the hours of all records |
| Accumulation.NoContributionNoHours | functions/index.js:398-437 | a key that no record names receives no hours |
| StudyStats.ManualHours | functions/index.js:401 | a manual entry adds the number its hours field parses to, or 0 when it parses to NaN |
| StudyStats.TimerHours | functions/index.js:429 | a timer session adds its length in minutes divided by 60 |
| StudyStats.Aggregated | functions/index.js:394-437 | the buckets and total after all manual entries and then all timer sessions: every bucket is listed once in key order and the total equals the sum of the buckets |
| StudyStats.Aggregate | functions/index.js:394-437 | the two loops (manual entries, then timer sessions) leave exactly the fold of all records' contributions, which keeps the total equal to the sum of the buckets; the loop invariant ties each prefix to the fold of that prefix |
| StudyStats.AddToBucket | functions/index.js:403-408 | the shared loop body (a missing or zero bucket is set to 0, then the bucket and the total are raised by the hours) is exactly one `Accumulation.Add` |
| StudyStats.ManualStep | functions/index.js:398-409 | one pass of the manual loop extends the fold by that entry's key and hours |
| StudyStats.TimerStep | functions/index.js:412-437 | one pass of the timer loop extends the fold by that session's key and hours |
| StudyStats.AggregatedKeys | functions/index.js:400-414 | there is a bucket for exactly the lower-cased course names of the manual entries and timer sessions |
| StudyStats.AggregatedBucketHours | functions/index.js:398-437 | each bucket holds exactly the hours of the records whose course lower-cases to its key; the total is the hours of all records, each computed by an independent recursive reference |
| StudyStats.UnparsedHoursAddNothing | functions/index.js:401-408 | a manual entry whose hours do not parse leaves the total and every existing bucket unchanged; its course still gets a bucket, holding 0 when new |
| StudyStats.TimerHoursWithinDay | functions/index.js:424-429 | for real clock times a session adds at least 0 and under 24 hours, and 0 exactly when start equals end |
| StudyStats.TimerHoursExamples | functions/index.js:424-429 | 22:00 to 02:00 adds 4 hours; 09:00 to 10:30 adds 1.5 hours |
| StudyStats.NoRecordsNoBuckets | functions/index.js:394-395 | with no records there is no bucket and the total is 0 |
| StudyStats.BiologyExample | functions/index.js:398-437 | "Biology" logged for 3.5 hours and "biology" timed 08:00 to 09:00 make the single bucket "biology" of 4.5 hours, total 4.5 |
| Breakdown.Percentage | functions/index.js:441 | with a positive total the share times the total is the hours times 100; otherwise the share is 0 |
| Breakdown.MakeEntry | functions/index.js:440-448 | an entry carries the bucket's key, the rounding of its unrounded hours, and the rounding of its unrounded share of the unrounded total |
| Breakdown.BreakdownOf | functions/index.js:440-448 | the unsorted breakdown has one entry per key, in the order the buckets were created, each built from that bucket's unrounded hours and the unrounded total |
| Breakdown.BreakdownOnePerBucket | functions/index.js:440-448 | the breakdown has one entry per bucket and each bucket's key appears in exactly one entry; an entry's hours and percentage are the rounding of the unrounded bucket and of its unrounded share of the unrounded total |
| Breakdown.NoTotalNoShares | functions/index.js:441 | when the total is not positive every entry's percentage is the rounding of 0 |
| Breakdown.UnroundedSharesAddUp | functions/index.js:440-448 | before rounding, the entries' hours add up to the total, and with a positive total their percentages add up to 100 |
| Breakdown.EntryHoursSum | functions/index.js:440-448 | the unrounded hours of the entries for a list of buckets add up to the sum of those buckets |
| Breakdown.EntryPercentagesSum | functions/index.js:441 | the unrounded percentages of the entries for a list of buckets, times the total, add up to 100 times the sum of those buckets |
| Breakdown.SortByHoursDescending | functions/index.js:451 | the breakdown array ends in non-increasing order of hours and is a permutation of what it held |
| Breakdown.InsertAt | functions/index.js:451 | one insertion step extends the sorted prefix by one entry, keeps the array a permutation and leaves the entries after the step's index unchanged |
| Breakdown.SortExample | functions/index.js:451 | buckets of 2, 5 and 1 hours, once sorted, come out in the order 5, 2, 1 |
| Breakdown.GetStudyStats | functions/index.js:394-456 | the response's total is the rounding of the accumulated total; the breakdown is sorted by hours, is a permutation of the one-entry-per-bucket breakdown, has one entry per bucket and names exactly the buckets |
| Breakdown.NoRecordsEmptyBreakdown | functions/index.js:394-456 | no records give a total of 0 and an empty breakdown |
| PlainObjectBuckets.AddAsWritten | functions/index.js:403-408 | on the plain object, the key "__proto__" raises the total by the hours and changes nothing else, the key "constructor" makes the request fail, any other key behaves as `Accumulation.Add`, and a failed request stays failed |
| PlainObjectBuckets.AggregatedAsWritten | functions/index.js:394-437 | both loops on the plain object give exactly what the model's dictionary gives when no course lower-cases to "__proto__" or "constructor" |
| PlainObjectBuckets.AsWrittenAgreesOtherwise | functions/index.js:394-437 | when no course lower-cases to an inherited name, the plain object gives the same buckets and total as the model's dictionary |
| PlainObjectBuckets.ProtoCourseDropped | functions/index.js:400-408 | a course "__PROTO__" of 2 hours leaves no bucket but a total of 2, so the total is no longer the sum of the buckets |
| PlainObjectBuckets.ConstructorCourseFails | functions/index.js:400-448 | a course "Constructor" makes the whole request fail |
| PlainObjectBuckets.InheritedNamesAreOrdinaryBuckets | functions/index.js:394-408 | with a dictionary holding only what was put in it, "__proto__" and "constructor" are ordinary buckets and the total equals their sum |

## Left out

- HTTP handling: CORS, the GET-only check, the required `email` parameter, and the two Firestore queries (lines 366-391). The model starts from the fetched records, passed as sequences in query order. It ends with the response body; sending it (line 458) and the error response (lines 459-462) are not modelled.
- The other endpoints and triggers in `functions/index.js` (quotes, tips, notification tokens, and the commented-out scheduled jobs) are not part of this model.
- JavaScript numbers are modelled as exact reals. Floating-point rounding inside the sums and the division is not modelled, so `UnroundedSharesAddUp` states an exact 100 where the handler gets 100 up to floating-point error.
- `toFixed` followed by `parseFloat` is taken as the parameters `round2` and `round1`; the decimal rounding itself is not modelled.
- `parseFloat` on the logged hours is modelled only by its outcome: a number, or NaN (`None`), which counts as 0. Its input grammar is not modelled.
- `split(":")` and `parseInt` on the timer times are modelled only by their outcome, two integers per time. `parseInt` reads the leading digits of a part, so a part such as "3O" reads as 3 and is covered. A time string with no colon, or with a part that does not start with a digit (after optional blanks and sign), makes the handler's hours, bucket and total NaN; that case is not modelled.
- A timer record whose `startTime` or `endTime` is missing or not a string makes `split` throw (lines 417-418), and the request fails; the model's timer records always have both times.
- `toLowerCase` is modelled on the 26 ASCII capital letters only; the full Unicode case mapping is not.
- A record with no `course` field makes `toLowerCase` throw and the request fail; the model's records always have a course.
- `Object.entries` lists integer-like keys (such as a course named "101") first, in numeric order, before the other keys in creation order. The model uses creation order for every key. `Breakdown.GetStudyStats` states the breakdown only up to order among equal hours, so this affects only `BreakdownOf`, which is unsorted.
- Breakdown.SortByHoursDescending: the engine's own sort algorithm and the order it gives to equal hours are not modelled. Any non-increasing permutation is accepted, and the model sorts by insertion.
- Breakdown.SortByHoursDescending: the handler compares rounded hours. The model sorts the entries, whose hours are already rounded, so the two agree.

## Findings

| source | as written | input that shows it | evidently intended | confidence | as-written member | corrected member |
|---|---|---|---|---|---|---|
| functions/index.js:394-408 | buckets live in a plain object `{}`, so the key "__proto__" reads the inherited prototype (truthy, so no 0 is stored), and writing the resulting string back to `__proto__` is ignored; the hours reach the total but no bucket | one manual entry with course "__PROTO__" and 2 hours | a bucket "__proto__" of 2 hours, with the total equal to the sum of the buckets | high, not executed | PlainObjectBuckets.ProtoCourseDropped | PlainObjectBuckets.InheritedNamesAreOrdinaryBuckets |
| functions/index.js:394-448 | the key "constructor" reads the inherited `Object` function, so `+=` stores a string, and `toFixed` on that string throws while the breakdown is built | one manual entry with course "Constructor" and 1 hour | a bucket "constructor" of 1 hour | high, not executed | PlainObjectBuckets.ConstructorCourseFails | PlainObjectBuckets.InheritedNamesAreOrdinaryBuckets |
