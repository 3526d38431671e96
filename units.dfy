/** Test units (TestUt): the aggregate of all events of one test, their
    timing, and the counters (Count) a package keeps over its units. */
module Units {

  import opened Wrappers
  import opened Events

  /** TestUt: the embedded event record plus the derived timing fields; a
      timing field is None while it is still the empty string. Times and the
      duration are milliseconds. */
  datatype TestUt = TestUt(event: Event, starTime: Option<int>, endTime: Option<int>, dur: Option<int>)

  /** Count: the counters of a package or of the whole report. */
  datatype Count = Count(total: int, pass: int, skip: int, bench: int, fail: int) {

    function Plus(o: Count): Count {
      Count(total + o.total, pass + o.pass, skip + o.skip, bench + o.bench, fail + o.fail)
    }

    /** The three outcome buckets never hold more units than the total. */
    predicate Bounded() {
      0 <= pass && 0 <= skip && 0 <= fail && bench == 0 && pass + fail + skip <= total
    }
  }

  const Zero: Count := Count(0, 0, 0, 0, 0)

  // ---------------------------------------------------------------------
  // Timing (initTime)

  /** The elapsed value initTime multiplies out: the sentinel still reads as
      -1 second there. */
  function ElapsedMs(elapsed: Option<int>): int {
    match elapsed
    case Some(ms) => ms
    case None => SentinelMs
  }

  /** initTime: the end time is the timestamp and the start time is the
      timestamp PLUS the elapsed duration. A missing timestamp is the nil
      dereference of the source and yields None. */
  function InitTime(u: TestUt): (r: Option<TestUt>)
    ensures r.Some? <==> u.event.time.Some?
    ensures r.Some? ==> r.value.event == u.event && r.value.endTime == u.event.time
    ensures r.Some? ==>
      && r.value.starTime.Some? && r.value.dur.Some?
      && r.value.starTime.value - u.event.time.value == r.value.dur.value == ElapsedMs(u.event.elapsed)
  {
    match u.event.time
    case None => None
    case Some(t) =>
      var d := ElapsedMs(u.event.elapsed);
      Some(u.(endTime := Some(t), starTime := Some(t + d), dur := Some(d)))
  }

  // ---------------------------------------------------------------------
  // The per-test fold (the inner loop of TestPkg.init)

  /** `&TestUt{TestEvent: TestEvent{Test: testName}}`: all other fields hold
      Go's zero values, so Elapsed is 0 and not the sentinel. */
  function NewUnit(name: string): Event {
    Event("", "", name, "", Some(0), None, 0, Start)
  }

  /** What one event does to the unit under construction. */
  function UnitStep(u: Event, ev: Event): Event {
    var u1 := u.(output := u.output + ev.output);
    var u2 := if ev.actionType == Start then u1.(index := ev.index, package := ev.package) else u1;
    if ev.actionType == End then
      u2.(elapsed := ev.elapsed, action := ev.action, time := ev.time, actionType := End)
    else u2
  }

  function FoldUnit(u: Event, evs: seq<Event>): Event {
    if evs == [] then u else UnitStep(FoldUnit(u, evs[..|evs| - 1]), evs[|evs| - 1])
  }

  /** The output fragments of `evs`, concatenated in order. */
  function Outputs(evs: seq<Event>): string {
    if evs == [] then "" else Outputs(evs[..|evs| - 1]) + evs[|evs| - 1].output
  }

  /** The position of the last event of phase `kind`, if any. */
  function LastOf(evs: seq<Event>, kind: ActionType): (r: Option<nat>)
    ensures r.Some? ==> r.value < |evs| && evs[r.value].actionType == kind
    ensures r.Some? ==> forall j :: r.value < j < |evs| ==> evs[j].actionType != kind
    ensures r.None? ==> forall j :: 0 <= j < |evs| ==> evs[j].actionType != kind
  {
    if evs == [] then None
    else if evs[|evs| - 1].actionType == kind then Some(|evs| - 1)
    else
      var init := evs[..|evs| - 1];
      assert forall j :: 0 <= j < |init| ==> init[j] == evs[j];
      LastOf(init, kind)
  }

  /** The unit's output is its starting output followed by the output of
      every event, in arrival order. */
  lemma {:induction false} FoldUnitOutput(u: Event, evs: seq<Event>)
    ensures FoldUnit(u, evs).output == u.output + Outputs(evs)
    ensures FoldUnit(u, evs).test == u.test
  {
    if evs != [] {
      FoldUnitOutput(u, evs[..|evs| - 1]);
    }
  }

  /** Action, elapsed and timestamp come from the LAST end-phase event;
      without one they keep their initial values. */
  lemma {:induction false} FoldUnitOutcome(u: Event, evs: seq<Event>)
    ensures var r := FoldUnit(u, evs);
      match LastOf(evs, End)
      case None =>
        r.action == u.action && r.elapsed == u.elapsed && r.time == u.time && r.actionType == u.actionType
      case Some(j) =>
        r.action == evs[j].action && r.elapsed == evs[j].elapsed && r.time == evs[j].time && r.actionType == End
  {
    if evs != [] {
      var init := evs[..|evs| - 1];
      FoldUnitOutcome(u, init);
      assert forall j :: 0 <= j < |init| ==> init[j] == evs[j];
    }
  }

  /** Index and package come from the LAST start-phase event; without one
      they keep their initial values. */
  lemma {:induction false} FoldUnitStart(u: Event, evs: seq<Event>)
    ensures var r := FoldUnit(u, evs);
      match LastOf(evs, Start)
      case None => r.index == u.index && r.package == u.package
      case Some(j) => r.index == evs[j].index && r.package == evs[j].package
  {
    if evs != [] {
      var init := evs[..|evs| - 1];
      FoldUnitStart(u, init);
      assert forall j :: 0 <= j < |init| ==> init[j] == evs[j];
    }
  }

  /** The inner loop of TestPkg.init: fold the events of one test, in
      arrival order, into a fresh unit named after the test; `action` is the
      local that remembers the outcome of the last end event. */
  method BuildUnit(name: string, events: seq<Event>) returns (e: Event, action: string)
    ensures e == FoldUnit(NewUnit(name), events) && action == e.action
    ensures e.test == name && e.output == Outputs(events)
    ensures LastOf(events, End).None? ==> action == "" && e.time.None?
    ensures LastOf(events, End).Some? ==>
      var j := LastOf(events, End).value;
      action == events[j].action && e.time == events[j].time && e.elapsed == events[j].elapsed
  {
    e := NewUnit(name);
    action := "";
    for i := 0 to |events|
      invariant e == FoldUnit(NewUnit(name), events[..i]) && action == e.action
    {
      var event := events[i];
      assert events[..i + 1][..i] == events[..i];
      e := e.(output := e.output + event.output);
      if event.actionType == Start {
        e := e.(index := event.index, package := event.package);
      }
      if event.actionType == End {
        e := e.(elapsed := event.elapsed, action := event.action, time := event.time, actionType := End);
        action := event.action;
      }
    }
    assert events[..|events|] == events;
    FoldUnitOutput(NewUnit(name), events);
    FoldUnitOutcome(NewUnit(name), events);
  }

  /** The finished unit of one test: the fold, then initTime, then the
      emptiness check of setCount. Both failures of the source (the nil
      timestamp in initTime and the empty action in setCount) are None. */
  function Finish(name: string, evs: seq<Event>): Option<TestUt> {
    var u := FoldUnit(NewUnit(name), evs);
    match InitTime(TestUt(u, None, None, None))
    case None => None
    case Some(t) => if |u.action| < 1 then None else Some(t)
  }

  /** Finish, in terms of an already folded unit `e`. */
  lemma FinishOfFold(name: string, evs: seq<Event>, e: Event)
    requires e == FoldUnit(NewUnit(name), evs)
    ensures Finish(name, evs) ==
      match InitTime(TestUt(e, None, None, None))
      case None => None
      case Some(t) => if |e.action| < 1 then None else Some(t)
  {
  }

  /** When every end event carries an action (as every classified one
      does), a test finishes exactly when it has an end event and its last
      end event carries a timestamp. */
  lemma FinishIffEnded(name: string, evs: seq<Event>)
    requires forall i :: 0 <= i < |evs| ==> HasOutcome(evs[i])
    ensures Finish(name, evs).Some? <==>
      LastOf(evs, End).Some? && evs[LastOf(evs, End).value].time.Some?
  {
    var u := FoldUnit(NewUnit(name), evs);
    FoldUnitOutcome(NewUnit(name), evs);
    match LastOf(evs, End)
    case None =>
      assert u.time.None?;
    case Some(j) =>
      assert u.time == evs[j].time && u.action == evs[j].action;
      assert HasOutcome(evs[j]);
      assert |u.action| > 0;
  }

  /** A finished unit is named after its test, has the outcome of the last
      end event, ends at that event's timestamp and starts at the timestamp
      plus the elapsed duration. */
  lemma FinishValue(name: string, evs: seq<Event>)
    requires Finish(name, evs).Some?
    ensures LastOf(evs, End).Some?
    ensures var u, j := Finish(name, evs).value, LastOf(evs, End).value;
      && u.event == FoldUnit(NewUnit(name), evs) && u.event.test == name
      && u.event.output == Outputs(evs)
      && u.event.action == evs[j].action && u.endTime == evs[j].time
      && u.starTime == Some(evs[j].time.value + ElapsedMs(evs[j].elapsed))
  {
    FoldUnitOutput(NewUnit(name), evs);
    FoldUnitOutcome(NewUnit(name), evs);
  }

  /** A test that never ends aborts the run. */
  lemma NeverEndedFails(name: string, evs: seq<Event>)
    requires forall i :: 0 <= i < |evs| ==> evs[i].actionType != End
    ensures Finish(name, evs).None?
  {
    FoldUnitOutcome(NewUnit(name), evs);
  }

  // ---------------------------------------------------------------------
  // Counting (TestPkg.setCount over a package's units)

  /** The number of units whose outcome is exactly `action`. */
  function CountOf(us: seq<TestUt>, action: string): nat {
    if us == [] then 0
    else CountOf(us[..|us| - 1], action) + (if us[|us| - 1].event.action == action then 1 else 0)
  }

  /** The counters after setCount has seen the outcome `action`. */
  function Bumped(c: Count, action: string): Count {
    c.(pass := c.pass + (if action == "pass" then 1 else 0),
       skip := c.skip + (if action == "skip" then 1 else 0),
       fail := c.fail + (if action == "fail" then 1 else 0))
  }

  lemma CountOfSnoc(us: seq<TestUt>, u: TestUt, action: string)
    ensures CountOf(us + [u], action) == CountOf(us, action) + (if u.event.action == action then 1 else 0)
  {
    assert (us + [u])[..|us|] == us;
  }

  /** The counters of a package whose units are `us`: the total is the
      number of units and no unit is ever counted as a benchmark. */
  function Tally(us: seq<TestUt>): Count {
    Count(|us|, CountOf(us, "pass"), CountOf(us, "skip"), 0, CountOf(us, "fail"))
  }

  /** pass + fail + skip <= total: a unit lands in at most one bucket. */
  lemma {:induction false} TallyBounded(us: seq<TestUt>)
    ensures Tally(us).Bounded()
  {
    if us != [] {
      TallyBounded(us[..|us| - 1]);
    }
  }

  /** A unit whose outcome is not exactly "pass", "fail" or "skip" (such as
      the untrimmed " pass") is counted in the total and in no bucket. */
  lemma TallyOtherOutcome(us: seq<TestUt>, u: TestUt)
    requires u.event.action != "pass" && u.event.action != "fail" && u.event.action != "skip"
    ensures Tally(us + [u]) == Tally(us).(total := |us| + 1)
  {
    assert (us + [u])[..|us|] == us;
  }

  /** " pass" classifies as an end event, yet it is not the outcome
      "pass" that setCount compares against. */
  lemma PaddedPassIsEnd()
    ensures Classify(" pass") == Some(End) && " pass" != "pass"
  {
    assert " " + "pass" + "" == " pass";
    ClassifyIgnoresSpace(" ", "pass", "");
  }

}
