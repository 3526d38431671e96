# go-test-report in Dafny

A model of `main.go` of go-test-report. The program reads the JSON event
stream of `go test -json` and builds a two-level report, which it writes as
XML: a list of packages, each holding its test units and pass/fail/skip
counters.

The pipeline, in the order `main` runs it:

- **Ingestion.** Each decoded record becomes an event whose `index` is its
  position in the stream. `Elapsed` starts at the -1 second sentinel.
- **Classification.** `setActionType` trims the action. It maps it to a
  start, end or in-progress phase, or rejects it.
- **Grouping.** Events are grouped by package into `pkgMp`.
- **Per-package loop.** For each package, in map iteration order:
  - Package-level events (empty test name) are folded into the package's
    own record: output, outcome, timestamp, sort key `index`, and timing
    through `initTime`.
  - The other events are grouped by test name into `teMap`.
- **`TestPkg.init`.** Folds each test's events into a test unit, times the
  unit with `initTime`, and counts its outcome with `TestPkg.setCount`.
- **`TestInfo.setCount`.** Sums the package counters into the report.
- **`writeToXml`.** Sorts the packages by `index`.

## Modules

- `wrappers.dfy` (`Wrappers`): the `Option` type.
- `events.dfy` (`Events`): covers `TestEvent`, the ingestion loop,
  `strings.TrimSpace` with Go's `unicode.IsSpace`, `setActionType` and
  `hasElapsed`.
- `grouping.dfy` (`Grouping`): covers the `m[k] = append(m[k], e)` grouping
  loops and the order of Go's `range` over a map.
- `units.dfy` (`Units`): covers `TestUt`, `Count`, `initTime`, the per-test
  fold inside `init`, and the counting of outcomes.
- `packages.dfy` (`Packages`): covers the package-level fold and class
  `TestPkg` with `setCount`, the body of main's per-package loop (`Collect`)
  and `init`.
- `report.dfy` (`Report`): covers class `TestInfo` with `setCount`, the sort
  of `writeToXml`, and `main` (`BuildReport`).

## How the model represents the source

- **State that the source updates in place** lives in classes:
  - `TestPkg` and `TestInfo` are classes.
  - `TEList`, `TpList` and `teMap` are `seq` and `map` fields that the
    methods reassign.
  - Events and units are values (`datatype`). The source never changes an
    event after `setActionType`, so sharing event pointers cannot be observed.
- **Times** are integer milliseconds.
- **Elapsed** is `Option<int>` milliseconds:
  - `None` is the sentinel.
  - A decoded value of exactly -1 second is the sentinel too, as in the
    source.
  - A fresh unit or package record starts with Go's zero value, 0.
  - `initTime` multiplies out a sentinel as -1 second.
- **Map iteration order** is unspecified in Go. `Grouping.RangeOrder` picks
  some order of the keys without specifying it. Every contract holds
  whatever order is picked.
- **Each panic of the source** becomes an `Error` value. The run stops
  without a report. The panics are:
  - an unknown action (`UnknownAction`);
  - a package-level elapsed value with no timestamp behind it: the nil
    dereference in `initTime` (`MissingTime`);
  - a test with no usable end event (`Incomplete`).
- **A test that never ends** makes `initTime` dereference a nil timestamp
  before `setCount` can report the empty outcome. Both failures are one
  result, `Incomplete(test)`.
- **An untrimmed outcome.** The source trims actions when it classifies them
  but not when it counts them. `" pass"` is therefore an end event that is
  counted in the total and in no bucket (`Units.PaddedPassIsEnd`,
  `Units.TallyOtherOutcome`).
- **Start time** is the timestamp plus the elapsed time, as the source
  computes it, so the start lies after the end.
- **`TestPkg.init`** reaches the error branch of `setCount` only when `initTime`
  has not already failed.
- **Package sort key.** A package's sort key is the index of its last
  package-level end event, or 0 without one (`main.go:204-208`), so the sort
  does not in general restore the order in which packages first appear.
- **Unresolved tests.** A test that cannot be finished aborts the whole run
  (`main.go:145-149`), so no reported total ever counts an unresolved test.

## Model

| member | source | states |
|---|---|---|
| Events.Ingest | main.go:177-186 | the i-th record becomes an event with index i and its decoded fields; indices are unique and strictly increasing; an event has an elapsed value iff its record carried one other than -1 s |
| Events.TrimSpaceSpec | main.go:252 | TrimSpace keeps a contiguous piece of the action that neither starts nor ends with whitespace, and everything around it is whitespace |
| Events.SetActionType | main.go:251-263 | setting the phase fails iff the action is not a known one; otherwise the event is unchanged except for its phase, which is the phase of its action |
| Events.DecodedHasElapsed | main.go:265-267 | an event has an elapsed value iff its record carried one other than the -1 second sentinel |
| Events.Classify | main.go:251-263 | after trimming, "run" and only "run" is a start, "pass"/"fail"/"skip" and only those are ends, "output"/"pause"/"cont"/"bench" and only those are in-progress; anything else is rejected |
| Events.ClassifyIgnoresSpace | main.go:252 | whitespace around an action never changes its phase |
| Events.ClassifyBlankFails | main.go:259-261 | the empty action, and any blank one, is rejected |
| Events.ClassifiedHasOutcome | main.go:252-256 | a classified end event has a non-empty action |
| Events.ClassifyAllSome | main.go:188-193 | the classification loop succeeds iff every action of the stream is known |
| Events.ClassifyAllEach | main.go:188-193 | on success each event is classified on its own, in place |
| Events.ClassifiedAll | main.go:188-193 | every event of a classified stream carries the phase of its action and keeps its index |
| Grouping.RangeOrder | main.go:126 | a `range` over a map visits every key exactly once, in some order |
| Grouping.GroupByMembers | main.go:187-195 | a key has a group iff some event carries it, and the group holds exactly that key's events in stream order; so every event lands in exactly one group |
| Grouping.GroupsNonEmpty | main.go:194 | every group holds at least one event |
| Units.InitTime | main.go:111-116 | initTime fails iff the timestamp is missing; otherwise end = timestamp, start = timestamp + elapsed, duration = elapsed, the event unchanged |
| Units.BuildUnit | main.go:127-144 | the inner loop of init yields a unit named after the test with the in-order concatenated output, and the action, timestamp and elapsed value of the last end event (empty action and no timestamp without one) |
| Units.FoldUnitOutput | main.go:130-131 | a unit's output is the in-order concatenation of the outputs of its events |
| Units.FoldUnitOutcome | main.go:137-143 | action, elapsed value, timestamp and phase come from the last end event; without one they keep their initial values |
| Units.FoldUnitStart | main.go:132-135 | index and package come from the last start event; without one they keep their initial values |
| Units.FinishIffEnded | main.go:137-149 | a test with classified events finishes iff it has an end event and its last end event has a timestamp |
| Units.FinishValue | main.go:126-145 | a finished unit has the test's name, the in-order output, the outcome and end time of its last end event, and start time = that time + elapsed |
| Units.NeverEndedFails | main.go:145 | a test without an end event aborts the run |
| Units.TallyBounded | main.go:151-168 | the counters of a package's units satisfy pass + fail + skip <= total, with no benchmark ever counted |
| Units.TallyOtherOutcome | main.go:155-166 | a unit whose outcome is none of "pass", "fail", "skip" adds to the total and to no bucket |
| Units.PaddedPassIsEnd | main.go:252 | " pass" is an end event yet differs from the "pass" that setCount compares (main.go:155-159) |
| Packages.PkgStepSpec | main.go:202-212 | a package-level event appends its output; an end event sets action, timestamp and index; an event with an elapsed value sets the elapsed value and duration to it, the end time to the record's timestamp and the start time to that timestamp plus the elapsed value, while any other event leaves those four fields as they were; name and test are never touched |
| Packages.PkgFoldKeepsName | main.go:199-213 | the fold of a package's events keeps the package name and the empty test name |
| Packages.PkgFoldOutput | main.go:202-203 | the package output is the in-order concatenation of its package-level events' outputs |
| Packages.PkgFoldOutcome | main.go:204-208 | the package's sort key, action and timestamp are those of its last package-level end event; without one the key stays 0 |
| Packages.PkgFoldFailsIff | main.go:209-211 | the fold fails iff some package-level event has an elapsed value while the record holds no timestamp, i.e. neither the last package-level end event up to and including it nor the initial record supplies one |
| Packages.PkgFoldTiming | main.go:209-211 | after the fold, the elapsed value and duration are those of the last package-level event with an elapsed value, the end time is the timestamp held at that event (the last end event up to it) and the start time is that plus the elapsed value; without such an event all four keep their initial values |
| Packages.PkgFoldUntimed | main.go:198-212 | a package none of whose package-level events has an elapsed value keeps elapsed 0 and has no start time, end time or duration |
| Packages.PkgFoldPrefixFails | main.go:201-212 | once the fold fails on a prefix of the events it fails on all of them |
| Packages.EnumeratesUnits | main.go:126-128 | init's units are one per test key of teMap, each the finished unit of its test |
| Packages.EnumeratesDistinct | main.go:126-128 | no test appears twice in TEList |
| Packages.EnumeratesCovers | main.go:126-128 | every test of teMap appears in TEList |
| Packages.UnitsAlongSpec | main.go:126-150 | visiting the tests in some order succeeds iff every test finishes, and then yields one unit per test in that order |
| Packages.EnumeratesAll | main.go:126-150 | units built along an order of all keys of teMap enumerate teMap, and every test finishes |
| Packages.BuiltTotals | main.go:151 | a built package has total = number of units = number of distinct test names, and pass + fail + skip <= total |
| Packages.TestPkg.constructor | main.go:198-199 | a fresh package record named after the package, with empty teMap and TEList and zero counters |
| Packages.TestPkg.SetCount | main.go:154-168 | "pass", "fail", "skip" increment exactly their counter; "" is an error and changes nothing; any other outcome changes nothing |
| Packages.TestPkg.Collect | main.go:201-217 | the package record becomes the fold of its package-level events and teMap the grouping of the others by test name; the only error is a package-level elapsed value without a timestamp |
| Packages.TestPkg.AddUnit | main.go:127-149 | one round of init: appends the finished unit of the test and bumps its outcome's counter, or fails with Incomplete iff the test cannot be finished |
| Packages.TestPkg.AddUnits | main.go:126-150 | init's loop in a given test order: appends exactly the units along that order and adds their outcome counts, or fails at a test that cannot be finished |
| Packages.TestPkg.Init | main.go:125-153 | init succeeds iff every test of teMap finishes; it appends an enumeration of the finished units, adds their outcome counts and sets total to the number of units; on failure it names an unfinished test |
| Report.SumCountsAppend | main.go:94-102 | summing the package counters distributes over concatenation |
| Report.SumCountsPermutation | main.go:94-102 | the summed counters do not depend on the order of the packages |
| Report.SumCountsBounded | main.go:94-102 | sums of bounded counters are bounded |
| Report.NamesPermutation | main.go:229-231 | reordering the packages only reorders their names |
| Report.InsertByIndexAdds | main.go:229-231 | inserting a package adds exactly that package |
| Report.InsertByIndexSorted | main.go:229-231 | inserting a package into an index-sorted list keeps it sorted |
| Report.TestInfo.constructor | main.go:196 | an empty report with creation time `now` and zero counters |
| Report.TestInfo.SetCount | main.go:94-102 | each report counter becomes its prior value plus that counter summed over all packages |
| Report.TestInfo.SortByIndex | main.go:229-231 | the sort yields a permutation of the packages in non-decreasing index order |
| Report.IngestedIndices | main.go:177-181 | every ingested event carries its own stream position and its record's package |
| Report.GroupEvents | main.go:187-195 | the classification and grouping loop fails iff some action is unknown, naming one; otherwise it yields the classified stream grouped by package in stream order |
| Report.AllOkKeys | main.go:197-223 | the per-package loop succeeds along an order of all packages iff every package folds |
| Report.AllBuiltPermutation | main.go:229-231 | reordering the packages keeps every one of them built from its own events |
| Report.AllBuiltBounded | main.go:94-102 | the report counters of built packages satisfy pass + fail + skip <= total |
| Report.BuildPackage | main.go:198-222 | one package: succeeds iff its package-level fold and all its tests finish; the record then carries the package's name and is built from its events; on failure the error says why |
| Report.AddPackage | main.go:197-223 | one round of main's per-package loop appends the built record of that package, or fails with the package's reason |
| Report.AddPackages | main.go:197-223 | main's per-package loop in a given order succeeds iff every package along it folds, and then appends one built record per package in that order |
| Report.Complete | main.go:224-231 | after setCount and the sort, the report holds the same packages in index order, and its counters equal their sum |
| Report.Reordered | main.go:197-231 | in any order, the records built along an order of all packages are all built, name each package exactly once, and have bounded summed counters |
| Report.Assemble | main.go:177-223 | main up to its per-package loop succeeds iff every action is known and every package folds, and then holds one built record per package; a failure is explained by an unknown action or a failing package |
| Report.BuildReport | main.go:170-231 | main succeeds iff every action is known and every package and test finishes. The report then has creation time `now`, one built record per package name, counters equal to their sum with pass + fail + skip <= total, and packages in index order. A failure names its cause |

## Left out

- Reading stdin and JSON decoding (`main.go:171-186`): the input is the given sequence of decoded records (`RawEvent`).
- XML marshalling, the temp path, `MkdirAll`, `WriteFile` and `log.Println` (`main.go:232-248`): serialisation and file-system I/O.
- `time.Now()` is the parameter `now`.
- The float-to-`Duration` conversion, `time.Format("15:04:05.000")` and `Duration.String()` (`main.go:112-115`): floating point and library formatting. Times and durations are integer milliseconds, and a formatted field is `Some` of its millisecond value.
- The unused constants `bigPass` and `updatesRun` through `skipLineSuffix` (`main.go:42-64`): nothing references them.
- Partial state at a panic: the source panics with half-built records, while the model stops and returns only the error.
- Report.TestInfo.SortByIndex: places packages with equal keys in the order of an insertion sort. Its contract, like `sort.Slice`, which is not stable, leaves that order open.
- Grouping.RangeOrder: Go randomises map iteration order; the model picks an unspecified order and proves nothing that depends on it. Test units are never sorted and stay in that order.
- Report.Complete: sorts before summing. The sum does not depend on the order (`Report.SumCountsPermutation`), so the result is the same as the source's sum-then-sort.
