/** Packages (TestPkg): the package-level record, the grouping of a
    package's events by test, the per-test fold and the package counters. */
module Packages {

  import opened Wrappers
  import opened Events
  import opened Grouping
  import opened Units

  // ---------------------------------------------------------------------
  // The package-level record (the body of main's per-package loop)

  /** `&TestPkg{TestUt: &TestUt{}}` with `tp.Package = pkg`. */
  function PkgUnit(pkg: string): TestUt {
    TestUt(Event("", pkg, "", "", Some(0), None, 0, Start), None, None, None)
  }

  /** What one package-level event (empty test name) does to the package
      record. An event carrying an elapsed value re-runs initTime, which has
      no timestamp to work from unless an earlier end event left one. */
  function PkgStep(p: TestUt, ev: Event): Option<TestUt> {
    var e1 := p.event.(output := p.event.output + ev.output);
    var e2 := if ev.actionType == End then e1.(action := ev.action, time := ev.time, index := ev.index) else e1;
    if HasElapsed(ev) then InitTime(p.(event := e2.(elapsed := ev.elapsed)))
    else Some(p.(event := e2))
  }

  /** A successful step appends the event's output, takes action,
      timestamp and index from an end event, and leaves name and test alone.
      An event with an elapsed value sets the record's elapsed value and
      re-times it from the record's (new) timestamp; any other event leaves
      the elapsed value and the timing fields alone. */
  lemma PkgStepSpec(p: TestUt, ev: Event)
    requires PkgStep(p, ev).Some?
    ensures var q := PkgStep(p, ev).value.event;
      && q.package == p.event.package && q.test == p.event.test
      && q.output == p.event.output + ev.output
      && (ev.actionType == End ==> q.action == ev.action && q.time == ev.time && q.index == ev.index)
      && (ev.actionType != End ==> q.action == p.event.action && q.time == p.event.time && q.index == p.event.index)
    ensures var r := PkgStep(p, ev).value;
      && (HasElapsed(ev) ==>
            && r.event.elapsed == ev.elapsed && r.event.time.Some? && r.endTime == r.event.time
            && r.starTime == Some(r.event.time.value + ev.elapsed.value) && r.dur == ev.elapsed)
      && (!HasElapsed(ev) ==>
            r.event.elapsed == p.event.elapsed && r.endTime == p.endTime && r.starTime == p.starTime && r.dur == p.dur)
  {
  }

  /** The package record after all of a package's events; events with a test
      name leave it alone. None is the nil-timestamp panic of initTime. */
  function PkgFold(p: TestUt, evs: seq<Event>): Option<TestUt> {
    if evs == [] then Some(p)
    else
      var e := evs[|evs| - 1];
      match PkgFold(p, evs[..|evs| - 1])
      case None => None
      case Some(q) => if |e.test| < 1 then PkgStep(q, e) else Some(q)
  }

  /** The package-level events of `evs`, in stream order. */
  function PackageLevel(evs: seq<Event>): seq<Event> {
    if evs == [] then []
    else
      var e := evs[|evs| - 1];
      PackageLevel(evs[..|evs| - 1]) + (if |e.test| < 1 then [e] else [])
  }

  lemma LastOfAppend(evs: seq<Event>, e: Event, kind: ActionType)
    ensures LastOf(evs + [e], kind) == if e.actionType == kind then Some(|evs|) else LastOf(evs, kind)
  {
    assert (evs + [e])[..|evs|] == evs;
  }

  /** The package name and the (empty) test name are never touched. */
  lemma {:induction false} PkgFoldKeepsName(p: TestUt, evs: seq<Event>)
    requires PkgFold(p, evs).Some?
    ensures PkgFold(p, evs).value.event.package == p.event.package
    ensures PkgFold(p, evs).value.event.test == p.event.test
  {
    if evs != [] {
      PkgFoldKeepsName(p, evs[..|evs| - 1]);
      if |evs[|evs| - 1].test| < 1 {
        PkgStepSpec(PkgFold(p, evs[..|evs| - 1]).value, evs[|evs| - 1]);
      }
    }
  }

  /** The package record's output is its initial output followed by the
      output of every package-level event, in stream order. */
  lemma {:induction false} PkgFoldOutput(p: TestUt, evs: seq<Event>)
    requires PkgFold(p, evs).Some?
    ensures PkgFold(p, evs).value.event.output == p.event.output + Outputs(PackageLevel(evs))
  {
    if evs != [] {
      var init, e := evs[..|evs| - 1], evs[|evs| - 1];
      PkgFoldOutput(p, init);
      var q0, pl := PkgFold(p, init).value, PackageLevel(init);
      if |e.test| < 1 {
        assert PkgFold(p, evs) == PkgStep(q0, e);
        PkgStepSpec(q0, e);
        assert PackageLevel(evs) == pl + [e];
        assert Outputs(pl + [e]) == Outputs(pl) + e.output by {
          assert (pl + [e])[..|pl|] == pl;
        }
      } else {
        assert PkgFold(p, evs) == Some(q0);
        assert PackageLevel(evs) == pl + [];
        assert pl + [] == pl;
      }
    }
  }

  /** The package record's action, timestamp and sort key `index` are those
      of the LAST package-level end event; without one they keep their
      initial values, so the index stays 0. */
  lemma {:induction false} PkgFoldOutcome(p: TestUt, evs: seq<Event>)
    requires PkgFold(p, evs).Some?
    ensures var q, pl := PkgFold(p, evs).value, PackageLevel(evs);
      match LastOf(pl, End)
      case None => q.event.index == p.event.index && q.event.action == p.event.action && q.event.time == p.event.time
      case Some(j) => q.event.index == pl[j].index && q.event.action == pl[j].action && q.event.time == pl[j].time
  {
    if evs != [] {
      var init, e := evs[..|evs| - 1], evs[|evs| - 1];
      PkgFoldOutcome(p, init);
      var q0, pl := PkgFold(p, init).value, PackageLevel(init);
      if |e.test| < 1 {
        assert PkgFold(p, evs) == PkgStep(q0, e);
        PkgStepSpec(q0, e);
        LastOfAppend(pl, e, End);
        assert PackageLevel(evs) == pl + [e];
        assert forall j :: 0 <= j < |pl| ==> (pl + [e])[j] == pl[j];
      } else {
        assert PackageLevel(evs) == pl + [];
        assert pl + [] == pl;
      }
    }
  }

  /** The timestamp the package record holds after the package-level
      events `pl`: that of the last end event, or the initial one. */
  function TimeAfter(p: TestUt, pl: seq<Event>): Option<int> {
    match LastOf(pl, End)
    case None => p.event.time
    case Some(k) => pl[k].time
  }

  /** The position of the last event that carries an elapsed value, if any. */
  function LastElapsed(evs: seq<Event>): (r: Option<nat>)
    ensures r.Some? ==> r.value < |evs| && HasElapsed(evs[r.value])
    ensures r.Some? ==> forall j :: r.value < j < |evs| ==> !HasElapsed(evs[j])
    ensures r.None? ==> forall j :: 0 <= j < |evs| ==> !HasElapsed(evs[j])
  {
    if evs == [] then None
    else if HasElapsed(evs[|evs| - 1]) then Some(|evs| - 1)
    else
      var init := evs[..|evs| - 1];
      assert forall j :: 0 <= j < |init| ==> init[j] == evs[j];
      LastElapsed(init)
  }

  lemma LastElapsedAppend(evs: seq<Event>, e: Event)
    ensures LastElapsed(evs + [e]) == if HasElapsed(e) then Some(|evs|) else LastElapsed(evs)
  {
    assert (evs + [e])[..|evs|] == evs;
  }

  /** The i-th package-level event carries an elapsed value while the
      record holds no timestamp: neither the last package-level end event up
      to and including it, nor the initial record, supplies one. */
  predicate Untimed(p: TestUt, pl: seq<Event>, i: nat)
    requires i < |pl|
  {
    HasElapsed(pl[i]) && TimeAfter(p, pl[..i + 1]).None?
  }

  lemma UntimedPrefix(p: TestUt, pl: seq<Event>, tail: seq<Event>, i: nat)
    requires i < |pl|
    ensures Untimed(p, pl + tail, i) == Untimed(p, pl, i)
  {
    assert (pl + tail)[..i + 1] == pl[..i + 1];
  }

  /** Some package-level event of `pl` carries an elapsed value while the
      record holds no timestamp. */
  predicate SomeUntimed(p: TestUt, pl: seq<Event>) {
    exists i :: 0 <= i < |pl| && Untimed(p, pl, i)
  }

  lemma SomeUntimedGrow(p: TestUt, pl: seq<Event>, tail: seq<Event>)
    requires SomeUntimed(p, pl)
    ensures SomeUntimed(p, pl + tail)
  {
    var i :| 0 <= i < |pl| && Untimed(p, pl, i);
    UntimedPrefix(p, pl, tail, i);
    assert Untimed(p, pl + tail, i);
  }

  /** With no untimed event so far, the next package-level event makes the
      step fail exactly when it is untimed itself. */
  lemma SomeUntimedStep(p: TestUt, q0: TestUt, pl0: seq<Event>, e: Event)
    requires q0.event.time == TimeAfter(p, pl0)
    requires !SomeUntimed(p, pl0)
    ensures PkgStep(q0, e).None? <==> SomeUntimed(p, pl0 + [e])
  {
    var pl := pl0 + [e];
    LastOfAppend(pl0, e, End);
    assert pl[..|pl0| + 1] == pl;
    assert TimeAfter(p, pl) == if e.actionType == End then e.time else q0.event.time;
    assert PkgStep(q0, e).None? <==> Untimed(p, pl, |pl0|);
    forall i | 0 <= i < |pl0| ensures !Untimed(p, pl, i) {
      UntimedPrefix(p, pl0, [e], i);
    }
  }

  /** The fold fails exactly when some package-level event carries an
      elapsed value while the record holds no timestamp. */
  lemma {:induction false} PkgFoldFailsIff(p: TestUt, evs: seq<Event>)
    ensures PkgFold(p, evs).None? <==> SomeUntimed(p, PackageLevel(evs))
  {
    if evs != [] {
      var init, e := evs[..|evs| - 1], evs[|evs| - 1];
      var pl0, pl := PackageLevel(init), PackageLevel(evs);
      PkgFoldFailsIff(p, init);
      if PkgFold(p, init).None? {
        assert PkgFold(p, evs).None?;
        if |e.test| < 1 {
          assert pl == pl0 + [e];
          SomeUntimedGrow(p, pl0, [e]);
        } else {
          assert pl == pl0;
        }
      } else if |e.test| >= 1 {
        assert PkgFold(p, evs) == PkgFold(p, init);
        assert pl == pl0;
      } else {
        var q0 := PkgFold(p, init).value;
        assert PkgFold(p, evs) == PkgStep(q0, e);
        assert pl == pl0 + [e];
        PkgFoldOutcome(p, init);
        assert q0.event.time == TimeAfter(p, pl0);
        SomeUntimedStep(p, q0, pl0, e);
      }
    }
  }

  /** The package record `q`'s elapsed value and timing fields after the
      package-level events `pl`, starting from `p`: set by the last event of
      `pl` that carries an elapsed value, with the end time being the
      timestamp the record held at that event and the start time that
      timestamp plus the elapsed value. Without such an event they keep
      their initial values. */
  predicate TimedAlong(p: TestUt, q: TestUt, pl: seq<Event>) {
    match LastElapsed(pl)
    case None =>
      q.event.elapsed == p.event.elapsed && q.endTime == p.endTime && q.starTime == p.starTime && q.dur == p.dur
    case Some(j) =>
      && q.event.elapsed == pl[j].elapsed && q.dur == pl[j].elapsed
      && q.endTime == TimeAfter(p, pl[..j + 1]) && q.endTime.Some?
      && q.starTime == Some(q.endTime.value + pl[j].elapsed.value)
  }

  /** One package-level event keeps the record timed along the events. */
  lemma TimedAlongStep(p: TestUt, q0: TestUt, pl0: seq<Event>, e: Event)
    requires PkgStep(q0, e).Some?
    requires TimedAlong(p, q0, pl0)
    requires q0.event.time == TimeAfter(p, pl0)
    ensures TimedAlong(p, PkgStep(q0, e).value, pl0 + [e])
  {
    var q, pl := PkgStep(q0, e).value, pl0 + [e];
    PkgStepSpec(q0, e);
    LastElapsedAppend(pl0, e);
    LastOfAppend(pl0, e, End);
    if HasElapsed(e) {
      assert pl[..|pl0| + 1] == pl;
      assert q.event.time == TimeAfter(p, pl);
    } else if LastElapsed(pl0).Some? {
      var j := LastElapsed(pl0).value;
      assert pl[j] == pl0[j];
      assert pl[..j + 1] == pl0[..j + 1];
    }
  }

  /** The package's elapsed value and timing fields after the fold are
      those TimedAlong describes for its package-level events. */
  lemma {:induction false} PkgFoldTiming(p: TestUt, evs: seq<Event>)
    requires PkgFold(p, evs).Some?
    ensures TimedAlong(p, PkgFold(p, evs).value, PackageLevel(evs))
  {
    if evs != [] {
      var init, e := evs[..|evs| - 1], evs[|evs| - 1];
      var pl0, pl := PackageLevel(init), PackageLevel(evs);
      PkgFoldTiming(p, init);
      var q0 := PkgFold(p, init).value;
      if |e.test| < 1 {
        assert PkgFold(p, evs) == PkgStep(q0, e);
        assert pl == pl0 + [e];
        PkgFoldOutcome(p, init);
        assert q0.event.time == TimeAfter(p, pl0);
        TimedAlongStep(p, q0, pl0, e);
      } else {
        assert PkgFold(p, evs) == Some(q0);
        assert pl == pl0 + [];
        assert pl0 + [] == pl0;
      }
    }
  }

  /** The record of a fresh package keeps an elapsed value of 0 and no
      timing unless some package-level event carries an elapsed value. */
  lemma PkgFoldUntimed(pkg: string, evs: seq<Event>)
    requires PkgFold(PkgUnit(pkg), evs).Some?
    requires LastElapsed(PackageLevel(evs)).None?
    ensures var q := PkgFold(PkgUnit(pkg), evs).value;
      q.event.elapsed == Some(0) && q.endTime.None? && q.starTime.None? && q.dur.None?
  {
    PkgFoldTiming(PkgUnit(pkg), evs);
  }

  /** Once the fold has failed on a prefix it fails on the whole stream. */
  lemma {:induction false} PkgFoldPrefixFails(p: TestUt, evs: seq<Event>, n: nat)
    requires n <= |evs| && PkgFold(p, evs[..n]).None?
    ensures PkgFold(p, evs).None?
    decreases |evs| - n
  {
    if n < |evs| {
      assert evs[..n + 1][..n] == evs[..n];
      PkgFoldPrefixFails(p, evs, n + 1);
    } else {
      assert evs[..n] == evs;
    }
  }

  // ---------------------------------------------------------------------
  // The units of a package

  /** `us` lists every test of `m` exactly once, each as its finished unit,
      in some order (Go's map iteration order): the last unit is the
      finished unit of one test of `m`, and the others enumerate the rest. */
  ghost predicate Enumerates(us: seq<TestUt>, m: map<string, seq<Event>>)
    decreases |us|
  {
    if us == [] then m == map[]
    else
      var u := us[|us| - 1];
      var k := u.event.test;
      k in m && Finish(k, m[k]) == Some(u) && Enumerates(us[..|us| - 1], m - {k})
  }

  /** What an enumeration is, first part: one unit per test, each the
      finished unit of a test of `m`. */
  lemma {:induction false} EnumeratesUnits(us: seq<TestUt>, m: map<string, seq<Event>>)
    requires Enumerates(us, m)
    ensures |us| == |m.Keys|
    ensures forall i :: 0 <= i < |us| ==>
      us[i].event.test in m && Finish(us[i].event.test, m[us[i].event.test]) == Some(us[i])
    decreases |us|
  {
    if us == [] {
      assert m.Keys == {};
    } else {
      var init, u := us[..|us| - 1], us[|us| - 1];
      var k := u.event.test;
      var rest := m - {k};
      EnumeratesUnits(init, rest);
      assert m.Keys == rest.Keys + {k};
      assert forall i :: 0 <= i < |init| ==> us[i] == init[i];
    }
  }

  /** Second part: no test is listed twice. */
  lemma {:induction false} EnumeratesDistinct(us: seq<TestUt>, m: map<string, seq<Event>>)
    requires Enumerates(us, m)
    ensures forall i, j :: 0 <= i < j < |us| ==> us[i].event.test != us[j].event.test
    decreases |us|
  {
    if us != [] {
      var init, u := us[..|us| - 1], us[|us| - 1];
      var k := u.event.test;
      var rest := m - {k};
      EnumeratesDistinct(init, rest);
      EnumeratesUnits(init, rest);
      assert forall i :: 0 <= i < |init| ==> us[i] == init[i];
      assert forall i :: 0 <= i < |init| ==> init[i].event.test != k;
    }
  }

  /** Third part: no test of `m` is missing. */
  lemma {:induction false} EnumeratesCovers(us: seq<TestUt>, m: map<string, seq<Event>>)
    requires Enumerates(us, m)
    ensures forall k :: k in m ==> exists i :: 0 <= i < |us| && us[i].event.test == k
    decreases |us|
  {
    if us != [] {
      var init, u := us[..|us| - 1], us[|us| - 1];
      var k := u.event.test;
      var rest := m - {k};
      EnumeratesCovers(init, rest);
      forall k' | k' in m ensures exists i :: 0 <= i < |us| && us[i].event.test == k' {
        if k' == k {
          assert us[|us| - 1].event.test == k';
        } else {
          assert k' in rest;
          var i :| 0 <= i < |init| && init[i].event.test == k';
          assert us[i].event.test == k';
        }
      }
    }
  }

  /** The part of `m` whose keys occur in `ks`. */
  ghost function Restrict(m: map<string, seq<Event>>, ks: seq<string>): map<string, seq<Event>> {
    map k | k in m && k in ks :: m[k]
  }

  /** The units init builds when it visits the tests of `m` in the order
      `ks`: None as soon as one of them cannot be finished. */
  ghost function UnitsAlong(m: map<string, seq<Event>>, ks: seq<string>): Option<seq<TestUt>>
    requires forall i :: 0 <= i < |ks| ==> ks[i] in m
    decreases |ks|
  {
    if ks == [] then Some([])
    else
      var k := ks[|ks| - 1];
      match UnitsAlong(m, ks[..|ks| - 1])
      case None => None
      case Some(us) =>
        match Finish(k, m[k])
        case None => None
        case Some(u) => Some(us + [u])
  }

  /** Visiting the tests in order `ks` succeeds exactly when every one of
      them can be finished, and then yields one unit per test, in that order. */
  lemma {:induction false} UnitsAlongSpec(m: map<string, seq<Event>>, ks: seq<string>)
    requires forall i :: 0 <= i < |ks| ==> ks[i] in m
    ensures UnitsAlong(m, ks).Some? <==> forall i :: 0 <= i < |ks| ==> Finish(ks[i], m[ks[i]]).Some?
    ensures UnitsAlong(m, ks).Some? ==>
      var us := UnitsAlong(m, ks).value;
      && |us| == |ks|
      && forall i :: 0 <= i < |ks| ==> us[i].event.test == ks[i] && Finish(ks[i], m[ks[i]]) == Some(us[i])
    decreases |ks|
  {
    if ks != [] {
      var init := ks[..|ks| - 1];
      var k := ks[|ks| - 1];
      UnitsAlongSpec(m, init);
      assert forall i :: 0 <= i < |init| ==> init[i] == ks[i];
      FoldUnitOutput(NewUnit(k), m[k]);
    }
  }

  /** The units built along distinct tests `ks` enumerate those tests. */
  lemma {:induction false} UnitsAlongEnumerates(m: map<string, seq<Event>>, ks: seq<string>)
    requires forall i :: 0 <= i < |ks| ==> ks[i] in m
    requires forall i, j :: 0 <= i < j < |ks| ==> ks[i] != ks[j]
    requires UnitsAlong(m, ks).Some?
    ensures Enumerates(UnitsAlong(m, ks).value, Restrict(m, ks))
    decreases |ks|
  {
    if ks == [] {
      assert Restrict(m, ks) == map[];
    } else {
      var init, k := ks[..|ks| - 1], ks[|ks| - 1];
      assert forall i :: 0 <= i < |init| ==> init[i] == ks[i];
      UnitsAlongEnumerates(m, init);
      var us' := UnitsAlong(m, init).value;
      var u := Finish(k, m[k]).value;
      FoldUnitOutput(NewUnit(k), m[k]);
      assert u.event.test == k;
      assert UnitsAlong(m, ks) == Some(us' + [u]);
      assert (us' + [u])[..|us'|] == us';
      assert ks == init + [k];
      RestrictSnoc(m, init, k);
    }
  }

  lemma RestrictSnoc(m: map<string, seq<Event>>, init: seq<string>, k: string)
    requires k in m && k !in init
    ensures k in Restrict(m, init + [k]) && Restrict(m, init + [k])[k] == m[k]
    ensures Restrict(m, init + [k]) - {k} == Restrict(m, init)
  {
  }

  /** Units built along an enumeration of the keys of `m` enumerate `m`. */
  lemma EnumeratesAll(m: map<string, seq<Event>>, order: seq<string>)
    requires forall i, j :: 0 <= i < j < |order| ==> order[i] != order[j]
    requires forall k :: k in m <==> k in order
    requires UnitsAlong(m, order).Some?
    ensures Enumerates(UnitsAlong(m, order).value, m)
    ensures forall k :: k in m ==> Finish(k, m[k]).Some?
  {
    UnitsAlongEnumerates(m, order);
    assert Restrict(m, order) == m;
    UnitsAlongSpec(m, order);
    forall k | k in m ensures Finish(k, m[k]).Some? {
      var i :| 0 <= i < |order| && order[i] == k;
    }
  }

  /** TestPkg. `ut` is the embedded *TestUt (the package name and the
      package-level output, outcome, timing and sort key `index`). */
  class TestPkg {
    var ut: TestUt
    var teMap: map<string, seq<Event>>
    var teList: seq<TestUt>
    var count: Count

    constructor (pkg: string)
      ensures ut == PkgUnit(pkg) && teMap == map[] && teList == [] && count == Zero
    {
      ut := PkgUnit(pkg);
      teMap := map[];
      teList := [];
      count := Zero;
    }

    function Name(): string
      reads this
    {
      ut.event.package
    }

    /** The package after main has folded `events` into it and init has
      succeeded. */
    ghost predicate Built(events: seq<Event>)
      reads this
    {
      && PkgFold(PkgUnit(Name()), events) == Some(ut)
      && teMap == GroupBy(events, TestKey)
      && Enumerates(teList, teMap)
      && count == Tally(teList)
    }

    /** setCount: bump exactly the counter of a "pass", "fail" or "skip"
        outcome (compared untrimmed); any other non-empty outcome changes
        nothing; the empty outcome is an error and changes nothing. */
    method SetCount(action: string) returns (err: Option<Error>)
      modifies this`count
      ensures action == "skip" ==> count == old(count).(skip := old(count).skip + 1)
      ensures action == "pass" ==> count == old(count).(pass := old(count).pass + 1)
      ensures action == "fail" ==> count == old(count).(fail := old(count).fail + 1)
      ensures action != "skip" && action != "pass" && action != "fail" ==> count == old(count)
      ensures err.Some? <==> |action| < 1
      ensures err.Some? ==> err.value == EmptyAction
    {
      err := None;
      if action == "skip" {
        count := count.(skip := count.skip + 1);
      } else if action == "pass" {
        count := count.(pass := count.pass + 1);
      } else if action == "fail" {
        count := count.(fail := count.fail + 1);
      } else if |action| < 1 {
        err := Some(EmptyAction);
      }
    }

    /** The body of main's per-package loop: package-level events (empty
        test name) are folded into the package record, the others are
        appended to teMap under their test name. */
    method Collect(events: seq<Event>) returns (err: Option<Error>)
      requires teMap == map[]
      modifies this`ut, this`teMap
      ensures err.None? <==> PkgFold(old(ut), events).Some?
      ensures err.Some? ==> err.value == MissingTime(old(ut).event.package)
      ensures err.None? ==> ut == PkgFold(old(ut), events).value && teMap == GroupBy(events, TestKey)
    {
      var i := 0;
      while i < |events|
        invariant 0 <= i <= |events|
        invariant PkgFold(old(ut), events[..i]) == Some(ut)
        invariant ut.event.package == old(ut).event.package
        invariant teMap == GroupBy(events[..i], TestKey)
      {
        var event := events[i];
        assert events[..i + 1][..i] == events[..i];
        if |event.test| < 1 {
          ut := ut.(event := ut.event.(output := ut.event.output + event.output));
          if event.actionType == End {
            ut := ut.(event := ut.event.(action := event.action, time := event.time, index := event.index));
          }
          if HasElapsed(event) {
            ut := ut.(event := ut.event.(elapsed := event.elapsed));
            var timed := InitTime(ut);
            if timed.None? {
              PkgFoldPrefixFails(old(ut), events, i + 1);
              return Some(MissingTime(ut.event.package));
            }
            ut := timed.value;
          }
        }
        if |event.test| > 0 {
          teMap := Append(teMap, event.test, event);
        }
        i := i + 1;
      }
      assert events[..i] == events;
      err := None;
    }

    /** One round of init's loop: fold and time the unit of test `name`,
        append it to TEList and count its outcome. */
    method AddUnit(name: string) returns (err: Option<Error>)
      requires name in teMap
      modifies this`teList, this`count
      ensures err.None? <==> Finish(name, teMap[name]).Some?
      ensures err.Some? ==> err.value == Incomplete(name)
      ensures err.None? ==>
        var u := Finish(name, teMap[name]).value;
        teList == old(teList) + [u] && count == Bumped(old(count), u.event.action)
    {
      var e, action := BuildUnit(name, teMap[name]);
      FinishOfFold(name, teMap[name], e);
      var timed := InitTime(TestUt(e, None, None, None));
      if timed.None? {
        return Some(Incomplete(name));
      }
      teList := teList + [timed.value];
      var countErr := SetCount(action);
      if countErr.Some? {
        return Some(Incomplete(name));
      }
      err := None;
    }

    /** init's loop, visiting the tests in the order `order`: one AddUnit
        per test, stopping at the first test that cannot be finished. */
    method AddUnits(order: seq<string>) returns (err: Option<Error>)
      requires forall i :: 0 <= i < |order| ==> order[i] in teMap
      modifies this`teList, this`count
      ensures err.None? <==> UnitsAlong(teMap, order).Some?
      ensures err.Some? ==> exists i :: 0 <= i < |order| && Finish(order[i], teMap[order[i]]).None? && err.value == Incomplete(order[i])
      ensures err.None? ==>
        var added := UnitsAlong(teMap, order).value;
        && teList == old(teList) + added
        && count == old(count).(pass := old(count).pass + CountOf(added, "pass"),
                                skip := old(count).skip + CountOf(added, "skip"),
                                fail := old(count).fail + CountOf(added, "fail"))
    {
      ghost var added: seq<TestUt> := [];
      for idx := 0 to |order|
        invariant teList == old(teList) + added
        invariant UnitsAlong(teMap, order[..idx]) == Some(added)
        invariant count == old(count).(pass := old(count).pass + CountOf(added, "pass"),
                                      skip := old(count).skip + CountOf(added, "skip"),
                                      fail := old(count).fail + CountOf(added, "fail"))
      {
        var testName := order[idx];
        err := AddUnit(testName);
        if err.Some? {
          UnitsAlongSpec(teMap, order);
          return;
        }
        ghost var u := Finish(testName, teMap[testName]).value;
        CountOfSnoc(added, u, "pass");
        CountOfSnoc(added, u, "skip");
        CountOfSnoc(added, u, "fail");
        assert order[..idx + 1][..idx] == order[..idx];
        added := added + [u];
      }
      assert order[..|order|] == order;
      err := None;
    }

    /** init: build, time and count one unit per test, in map iteration
        order, then set the total to the number of units. A test without a
        usable end event aborts. */
    method Init() returns (err: Option<Error>, ghost added: seq<TestUt>)
      modifies this`teList, this`count
      ensures err.None? <==> forall k :: k in teMap ==> Finish(k, teMap[k]).Some?
      ensures err.Some? ==> exists k :: k in teMap && Finish(k, teMap[k]).None? && err.value == Incomplete(k)
      ensures err.None? ==>
        && teList == old(teList) + added
        && Enumerates(added, teMap)
        && count == Count(|teList|, old(count).pass + CountOf(added, "pass"),
                          old(count).skip + CountOf(added, "skip"), old(count).bench,
                          old(count).fail + CountOf(added, "fail"))
    {
      var order := RangeOrder(teMap);
      err := AddUnits(order);
      if err.Some? {
        added := [];
        return;
      }
      EnumeratesAll(teMap, order);
      added := UnitsAlong(teMap, order).value;
      var c := count;
      assert c.pass == old(count).pass + CountOf(added, "pass");
      assert c.skip == old(count).skip + CountOf(added, "skip");
      assert c.fail == old(count).fail + CountOf(added, "fail");
      assert c.bench == old(count).bench;
      count := Count(|teList|, c.pass, c.skip, c.bench, c.fail);
    }
  }

  /** A built package counts one unit per distinct test name, and its
      outcome buckets never exceed that total. */
  lemma BuiltTotals(tp: TestPkg, events: seq<Event>)
    requires tp.Built(events)
    ensures tp.count.total == |tp.teList| == |tp.teMap.Keys|
    ensures tp.count.pass + tp.count.fail + tp.count.skip <= tp.count.total
  {
    EnumeratesUnits(tp.teList, tp.teMap);
    TallyBounded(tp.teList);
  }

}
