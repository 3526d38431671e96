/** The report (TestInfo): the packages of a run, their summed counters and
    the order in which the report lists them; and main, which builds the
    report from the decoded event stream. */
module Report {

  import opened Wrappers
  import opened Events
  import opened Grouping
  import opened Units
  import opened Packages

  // ---------------------------------------------------------------------
  // Summing and ordering packages

  /** The sum of the counters of `ps`. */
  function SumCounts(ps: seq<TestPkg>): Count
    reads ps
  {
    if ps == [] then Zero
    else SumCounts(ps[..|ps| - 1]).Plus(ps[|ps| - 1].count)
  }

  lemma PlusAssoc(a: Count, b: Count, c: Count)
    ensures a.Plus(b).Plus(c) == a.Plus(b.Plus(c))
  {
  }

  lemma PlusZero(a: Count)
    ensures Zero.Plus(a) == a
  {
  }

  /** Summing distributes over concatenation. */
  lemma {:induction false} SumCountsAppend(ps: seq<TestPkg>, qs: seq<TestPkg>)
    ensures SumCounts(ps + qs) == SumCounts(ps).Plus(SumCounts(qs))
    decreases |qs|
  {
    if qs == [] {
      assert ps + qs == ps;
    } else {
      var init, q := qs[..|qs| - 1], qs[|qs| - 1];
      assert (ps + qs)[..|ps + qs| - 1] == ps + init;
      SumCountsAppend(ps, init);
      PlusAssoc(SumCounts(ps), SumCounts(init), q.count);
    }
  }

  /** Removing the element at position i. */
  lemma {:induction false} SumCountsRemove(ps: seq<TestPkg>, i: nat)
    requires i < |ps|
    ensures SumCounts(ps) == SumCounts(ps[..i] + ps[i + 1..]).Plus(ps[i].count)
  {
    assert ps == ps[..i] + ([ps[i]] + ps[i + 1..]);
    SumCountsAppend(ps[..i], [ps[i]] + ps[i + 1..]);
    SumCountsAppend([ps[i]], ps[i + 1..]);
    SumCountsAppend(ps[..i], ps[i + 1..]);
    assert SumCounts([ps[i]]) == Zero.Plus(ps[i].count);
  }

  /** The sum does not depend on the order of the packages. */
  lemma {:induction false} SumCountsPermutation(ps: seq<TestPkg>, qs: seq<TestPkg>)
    requires multiset(ps) == multiset(qs)
    ensures SumCounts(ps) == SumCounts(qs)
    decreases |ps|
  {
    if ps != [] {
      var init, p := ps[..|ps| - 1], ps[|ps| - 1];
      assert ps == init + [p];
      assert p in multiset(qs);
      var i :| 0 <= i < |qs| && qs[i] == p;
      var rest := qs[..i] + qs[i + 1..];
      assert qs == qs[..i] + [p] + qs[i + 1..];
      assert multiset(qs) == multiset(qs[..i]) + multiset{p} + multiset(qs[i + 1..]);
      assert multiset(rest) == multiset(qs[..i]) + multiset(qs[i + 1..]);
      assert multiset(ps) == multiset(init) + multiset{p};
      assert multiset(init) == multiset(ps) - multiset{p};
      assert multiset(rest) == multiset(qs) - multiset{p};
      SumCountsPermutation(init, rest);
      SumCountsRemove(qs, i);
    } else {
      assert |qs| == |multiset(qs)| == 0;
    }
  }

  /** Summing bounded counters gives bounded counters. */
  lemma {:induction false} SumCountsBounded(ps: seq<TestPkg>)
    requires forall i :: 0 <= i < |ps| ==> ps[i].count.Bounded()
    ensures SumCounts(ps).Bounded()
  {
    if ps != [] {
      SumCountsBounded(ps[..|ps| - 1]);
    }
  }

  /** The package names of `ps`, in order. */
  function Names(ps: seq<TestPkg>): seq<string>
    reads ps
  {
    if ps == [] then [] else Names(ps[..|ps| - 1]) + [ps[|ps| - 1].Name()]
  }

  lemma {:induction false} NamesAppend(ps: seq<TestPkg>, qs: seq<TestPkg>)
    ensures Names(ps + qs) == Names(ps) + Names(qs)
    decreases |qs|
  {
    if qs == [] {
      assert ps + qs == ps;
    } else {
      var init := qs[..|qs| - 1];
      assert (ps + qs)[..|ps + qs| - 1] == ps + init;
      NamesAppend(ps, init);
    }
  }

  /** Removing a package removes its name. */
  lemma NamesRemove(front: seq<TestPkg>, p: TestPkg, back: seq<TestPkg>)
    ensures multiset(Names(front + [p] + back)) == multiset(Names(front + back)) + multiset{p.Name()}
  {
    assert front + [p] + back == front + ([p] + back);
    NamesAppend(front, [p] + back);
    NamesAppend([p], back);
    NamesAppend(front, back);
    assert Names([p]) == [p.Name()];
  }

  /** Reordering the packages reorders their names. */
  lemma {:induction false} NamesPermutation(ps: seq<TestPkg>, qs: seq<TestPkg>)
    requires multiset(ps) == multiset(qs)
    ensures multiset(Names(ps)) == multiset(Names(qs))
    decreases |ps|
  {
    if ps != [] {
      var init, p := ps[..|ps| - 1], ps[|ps| - 1];
      assert ps == init + [p];
      assert p in multiset(qs);
      var i :| 0 <= i < |qs| && qs[i] == p;
      var rest := qs[..i] + qs[i + 1..];
      assert qs == qs[..i] + [p] + qs[i + 1..];
      assert multiset(qs) == multiset(qs[..i]) + multiset{p} + multiset(qs[i + 1..]);
      assert multiset(rest) == multiset(qs[..i]) + multiset(qs[i + 1..]);
      assert multiset(ps) == multiset(init) + multiset{p};
      assert multiset(init) == multiset(ps) - multiset{p};
      assert multiset(rest) == multiset(qs) - multiset{p};
      NamesPermutation(init, rest);
      NamesRemove(qs[..i], p, qs[i + 1..]);
      NamesAppend(init, [p]);
      assert Names([p]) == [p.Name()];
    } else {
      assert |qs| == |multiset(qs)| == 0;
    }
  }

  /** A sequence without repetitions holds each of its elements once. */
  lemma {:induction false} DistinctOnce(xs: seq<string>)
    requires forall i, j :: 0 <= i < j < |xs| ==> xs[i] != xs[j]
    ensures forall x :: multiset(xs)[x] == if x in xs then 1 else 0
  {
    if xs != [] {
      var init, y := xs[..|xs| - 1], xs[|xs| - 1];
      assert xs == init + [y];
      DistinctOnce(init);
    }
  }

  /** The sort key of a package: the index carried by its record. */
  function Key(p: TestPkg): int
    reads p
  {
    p.ut.event.index
  }

  predicate SortedByIndex(ps: seq<TestPkg>)
    reads ps
  {
    forall i, j :: 0 <= i < j < |ps| ==> Key(ps[i]) <= Key(ps[j])
  }

  /** `p` inserted into `ps` in front of the first package with a larger key. */
  function InsertByIndex(ps: seq<TestPkg>, p: TestPkg): seq<TestPkg>
    reads ps, p
  {
    if ps == [] || Key(p) <= Key(ps[0]) then [p] + ps
    else [ps[0]] + InsertByIndex(ps[1..], p)
  }

  /** Insertion adds exactly `p`. */
  lemma {:induction false} InsertByIndexAdds(ps: seq<TestPkg>, p: TestPkg)
    ensures multiset(InsertByIndex(ps, p)) == multiset(ps) + multiset{p}
  {
    if ps != [] && Key(p) > Key(ps[0]) {
      InsertByIndexAdds(ps[1..], p);
      assert ps == [ps[0]] + ps[1..];
    }
  }

  /** Insertion keeps a sorted sequence sorted. */
  lemma {:induction false} InsertByIndexSorted(ps: seq<TestPkg>, p: TestPkg)
    requires SortedByIndex(ps)
    ensures SortedByIndex(InsertByIndex(ps, p))
  {
    if ps != [] && Key(p) > Key(ps[0]) {
      var rest := InsertByIndex(ps[1..], p);
      InsertByIndexSorted(ps[1..], p);
      InsertByIndexAdds(ps[1..], p);
      forall i | 0 <= i < |rest| ensures Key(ps[0]) <= Key(rest[i]) {
        assert rest[i] in multiset(rest);
        if rest[i] != p {
          assert rest[i] in multiset(ps[1..]);
          var j :| 0 <= j < |ps[1..]| && ps[1..][j] == rest[i];
          assert ps[j + 1] == rest[i];
        }
      }
    }
  }

  // ---------------------------------------------------------------------
  // The report

  /** TestInfo: the packages in the order the report lists them, the creation
      time and the summed counters. */
  class TestInfo {
    var tpList: seq<TestPkg>
    var time: int
    var count: Count

    /** `&TestInfo{Count: &Count{}, Time: time.Now()}`. */
    constructor (now: int)
      ensures tpList == [] && time == now && count == Zero
    {
      tpList := [];
      time := now;
      count := Zero;
    }

    /** setCount: add every package's counters to the report's. */
    method SetCount()
      modifies this`count
      ensures count == old(count).Plus(SumCounts(tpList))
    {
      for i := 0 to |tpList|
        invariant count == old(count).Plus(SumCounts(tpList[..i]))
      {
        assert tpList[..i + 1][..i] == tpList[..i];
        PlusAssoc(old(count), SumCounts(tpList[..i]), tpList[i].count);
        count := count.Plus(tpList[i].count);
      }
      assert tpList[..|tpList|] == tpList;
    }

    /** The sort of writeToXml: the same packages, ordered by their index.
        Packages with equal keys may come in any order. */
    method SortByIndex()
      modifies this`tpList
      ensures multiset(tpList) == multiset(old(tpList))
      ensures SortedByIndex(tpList)
    {
      var ps := tpList;
      var sorted: seq<TestPkg> := [];
      for i := 0 to |ps|
        invariant multiset(sorted) == multiset(ps[..i])
        invariant SortedByIndex(sorted)
      {
        assert ps[..i + 1] == ps[..i] + [ps[i]];
        InsertByIndexAdds(sorted, ps[i]);
        InsertByIndexSorted(sorted, ps[i]);
        sorted := InsertByIndex(sorted, ps[i]);
      }
      assert ps[..|ps|] == ps;
      tpList := sorted;
    }
  }

  // ---------------------------------------------------------------------
  // main

  /** The events ingestion makes of the decoded records. */
  function Ingested(raw: seq<RawEvent>): (r: seq<Event>)
    ensures |r| == |raw|
  {
    seq(|raw|, i requires 0 <= i < |raw| => Decoded(raw[i], i))
  }

  /** Every event of the ingested stream carries its own position. */
  lemma IngestedIndices(raw: seq<RawEvent>)
    ensures forall i :: 0 <= i < |raw| ==> Ingested(raw)[i].index == i && Ingested(raw)[i].package == raw[i].package
  {
  }

  /** The second loop of main: classify every event, aborting at the first
      unknown action, and group the events by package in stream order. */
  method GroupEvents(evs: seq<Event>) returns (classified: seq<Event>, pkgMp: map<string, seq<Event>>, err: Option<Error>)
    ensures err.None? <==> ClassifyAll(evs).Some?
    ensures err.Some? ==> exists i :: 0 <= i < |evs| && Classify(evs[i].action).None? && err.value == UnknownAction(evs[i].action)
    ensures err.None? ==> classified == ClassifyAll(evs).value && pkgMp == GroupBy(classified, PackageKey)
  {
    classified := [];
    pkgMp := map[];
    for i := 0 to |evs|
      invariant ClassifyAll(evs[..i]) == Some(classified)
      invariant pkgMp == GroupBy(classified, PackageKey)
    {
      ClassifyAllStep(evs, i);
      var event := SetActionType(evs[i]);
      if event.None? {
        ClassifyAllSome(evs);
        return classified, pkgMp, Some(UnknownAction(evs[i].action));
      }
      GroupBySnoc(classified, event.value, PackageKey);
      classified := classified + [event.value];
      pkgMp := Append(pkgMp, event.value.package, event.value);
    }
    assert evs[..|evs|] == evs;
    err := None;
  }

  /** A package whose events all fold without error. */
  ghost predicate PackageOk(pkg: string, events: seq<Event>) {
    && PkgFold(PkgUnit(pkg), events).Some?
    && var teMap := GroupBy(events, TestKey);
       forall k :: k in teMap ==> Finish(k, teMap[k]).Some?
  }

  /** The packages of a classified stream. */
  ghost function PackageGroups(raw: seq<RawEvent>): map<string, seq<Event>>
    requires ClassifyAll(Ingested(raw)).Some?
  {
    GroupBy(ClassifyAll(Ingested(raw)).value, PackageKey)
  }

  /** A stream main turns into a report: every action is known and every
      package folds. */
  ghost predicate ReportOk(raw: seq<RawEvent>) {
    && ClassifyAll(Ingested(raw)).Some?
    && forall pkg :: pkg in PackageGroups(raw) ==> PackageOk(pkg, PackageGroups(raw)[pkg])
  }

  /** A run with an unknown action, a package-level elapsed value without a
      timestamp, or a test without a usable end event aborts. */
  ghost predicate Explains(raw: seq<RawEvent>, e: Error) {
    || (exists i :: 0 <= i < |raw| && Classify(raw[i].action).None? && e == UnknownAction(raw[i].action))
    || (ClassifyAll(Ingested(raw)).Some? &&
        exists pkg :: pkg in PackageGroups(raw) && PackageFailure(pkg, PackageGroups(raw)[pkg], e))
  }

  /** How the events of package `pkg` make the run abort with `e`: a
      package-level elapsed value before any timestamp, or a test without a
      usable end event. */
  ghost predicate PackageFailure(pkg: string, events: seq<Event>, e: Error) {
    || (PkgFold(PkgUnit(pkg), events).None? && e == MissingTime(pkg))
    || (var teMap := GroupBy(events, TestKey);
        exists k :: k in teMap && Finish(k, teMap[k]).None? && e == Incomplete(k))
  }

  /** One report package: the record built from the package's own events. */
  ghost predicate PackageBuilt(p: TestPkg, pkgMp: map<string, seq<Event>>)
    reads p
  {
    p.Name() in pkgMp && p.Built(pkgMp[p.Name()])
  }

  /** Every package of `ks` folds (a recursive form of the quantified
      statement, which keeps each loop step to one package). */
  ghost predicate AllOk(pkgMp: map<string, seq<Event>>, ks: seq<string>)
    requires forall i :: 0 <= i < |ks| ==> ks[i] in pkgMp
    decreases |ks|
  {
    ks != [] ==> AllOk(pkgMp, ks[..|ks| - 1]) && PackageOk(ks[|ks| - 1], pkgMp[ks[|ks| - 1]])
  }

  lemma {:induction false} AllOkSpec(pkgMp: map<string, seq<Event>>, ks: seq<string>)
    requires forall i :: 0 <= i < |ks| ==> ks[i] in pkgMp
    ensures AllOk(pkgMp, ks) <==> forall i :: 0 <= i < |ks| ==> PackageOk(ks[i], pkgMp[ks[i]])
    decreases |ks|
  {
    if ks != [] {
      var init := ks[..|ks| - 1];
      AllOkSpec(pkgMp, init);
      assert forall i :: 0 <= i < |init| ==> init[i] == ks[i];
    }
  }

  /** Over an enumeration of the packages, AllOk says every package folds. */
  lemma AllOkKeys(pkgMp: map<string, seq<Event>>, ks: seq<string>)
    requires forall k :: k in pkgMp <==> k in ks
    ensures AllOk(pkgMp, ks) <==> forall pkg :: pkg in pkgMp ==> PackageOk(pkg, pkgMp[pkg])
  {
    AllOkSpec(pkgMp, ks);
    if AllOk(pkgMp, ks) {
      forall pkg | pkg in pkgMp ensures PackageOk(pkg, pkgMp[pkg]) {
        var i :| 0 <= i < |ks| && ks[i] == pkg;
      }
    }
  }

  /** Every package of `ps` is built from its own events (recursive form). */
  ghost predicate AllBuilt(ps: seq<TestPkg>, pkgMp: map<string, seq<Event>>)
    reads ps
    decreases |ps|
  {
    ps != [] ==> AllBuilt(ps[..|ps| - 1], pkgMp) && PackageBuilt(ps[|ps| - 1], pkgMp)
  }

  lemma {:induction false} AllBuiltSpec(ps: seq<TestPkg>, pkgMp: map<string, seq<Event>>)
    ensures AllBuilt(ps, pkgMp) <==> forall i :: 0 <= i < |ps| ==> PackageBuilt(ps[i], pkgMp)
    decreases |ps|
  {
    if ps != [] {
      var init := ps[..|ps| - 1];
      AllBuiltSpec(init, pkgMp);
      assert forall i :: 0 <= i < |init| ==> init[i] == ps[i];
    }
  }

  /** Reordering does not change which packages are built. */
  lemma AllBuiltPermutation(ps: seq<TestPkg>, qs: seq<TestPkg>, pkgMp: map<string, seq<Event>>)
    requires multiset(ps) == multiset(qs)
    requires AllBuilt(ps, pkgMp)
    ensures AllBuilt(qs, pkgMp)
  {
    AllBuiltSpec(ps, pkgMp);
    AllBuiltSpec(qs, pkgMp);
    forall i | 0 <= i < |qs| ensures PackageBuilt(qs[i], pkgMp) {
      assert qs[i] in multiset(ps);
      var j :| 0 <= j < |ps| && ps[j] == qs[i];
    }
  }

  /** Built packages have bounded counters, and so does their sum. */
  lemma AllBuiltBounded(ps: seq<TestPkg>, pkgMp: map<string, seq<Event>>)
    requires AllBuilt(ps, pkgMp)
    ensures SumCounts(ps).Bounded()
  {
    AllBuiltSpec(ps, pkgMp);
    forall i | 0 <= i < |ps| ensures ps[i].count.Bounded() {
      TallyBounded(ps[i].teList);
    }
    SumCountsBounded(ps);
  }

  /** The body of main's per-package loop: a fresh package record for `pkg`,
      its events collected, then init. */
  method BuildPackage(pkg: string, events: seq<Event>) returns (tp: TestPkg, err: Option<Error>)
    ensures fresh(tp)
    ensures err.None? <==> PackageOk(pkg, events)
    ensures err.Some? ==> PackageFailure(pkg, events, err.value)
    ensures err.None? ==> tp.Name() == pkg && tp.Built(events)
  {
    tp := new TestPkg(pkg);
    err := tp.Collect(events);
    if err.Some? {
      return;
    }
    PkgFoldKeepsName(PkgUnit(pkg), events);
    assert tp.teList == [] && tp.count == Zero;
    ghost var added;
    err, added := tp.Init();
    if err.Some? {
      return;
    }
    assert tp.teList == added;
    assert tp.count == Tally(added);
  }

  /** `ps` are the records built, in order, for the packages `ks`. */
  ghost predicate BuiltAlong(ps: seq<TestPkg>, pkgMp: map<string, seq<Event>>, ks: seq<string>)
    requires forall i :: 0 <= i < |ks| ==> ks[i] in pkgMp
    reads ps
    decreases |ps|
  {
    && |ps| == |ks|
    && (ps != [] ==>
          var p, k := ps[|ps| - 1], ks[|ks| - 1];
          BuiltAlong(ps[..|ps| - 1], pkgMp, ks[..|ks| - 1]) && p.Name() == k && p.Built(pkgMp[k]))
  }

  /** Records built along `ks` carry the names `ks` and are all built. */
  lemma {:induction false} BuiltAlongSpec(ps: seq<TestPkg>, pkgMp: map<string, seq<Event>>, ks: seq<string>)
    requires forall i :: 0 <= i < |ks| ==> ks[i] in pkgMp
    requires BuiltAlong(ps, pkgMp, ks)
    ensures Names(ps) == ks && AllBuilt(ps, pkgMp)
    decreases |ps|
  {
    if ps != [] {
      BuiltAlongSpec(ps[..|ps| - 1], pkgMp, ks[..|ks| - 1]);
      assert ks == ks[..|ks| - 1] + [ks[|ks| - 1]];
    }
  }

  /** One round of main's per-package loop: the record of package `pkg`,
      appended to the report. */
  method AddPackage(info: TestInfo, pkgMp: map<string, seq<Event>>, pkg: string, ghost ks: seq<string>) returns (err: Option<Error>)
    requires pkg in pkgMp
    requires forall i :: 0 <= i < |ks| ==> ks[i] in pkgMp
    requires BuiltAlong(info.tpList, pkgMp, ks)
    modifies info`tpList
    ensures err.None? <==> PackageOk(pkg, pkgMp[pkg])
    ensures err.Some? ==> PackageFailure(pkg, pkgMp[pkg], err.value)
    ensures err.None? ==> BuiltAlong(info.tpList, pkgMp, ks + [pkg])
  {
    var tp;
    tp, err := BuildPackage(pkg, pkgMp[pkg]);
    if err.Some? {
      return;
    }
    assert (info.tpList + [tp])[..|info.tpList|] == info.tpList;
    assert (ks + [pkg])[..|ks|] == ks;
    info.tpList := info.tpList + [tp];
  }

  lemma PrefixSnoc(s: seq<string>, i: nat)
    requires i < |s|
    ensures s[..i + 1] == s[..i] + [s[i]]
  {
  }

  /** main's per-package loop, visiting the packages in the order `order`:
      one package record per package, appended to the report, stopping at
      the first package that aborts. */
  method AddPackages(info: TestInfo, pkgMp: map<string, seq<Event>>, order: seq<string>) returns (err: Option<Error>)
    requires forall i :: 0 <= i < |order| ==> order[i] in pkgMp
    requires info.tpList == []
    modifies info`tpList
    ensures err.None? <==> AllOk(pkgMp, order)
    ensures err.Some? ==> exists i :: 0 <= i < |order| && PackageFailure(order[i], pkgMp[order[i]], err.value)
    ensures err.None? ==> BuiltAlong(info.tpList, pkgMp, order)
  {
    for idx := 0 to |order|
      invariant BuiltAlong(info.tpList, pkgMp, order[..idx])
      invariant AllOk(pkgMp, order[..idx])
    {
      PrefixSnoc(order, idx);
      err := AddPackage(info, pkgMp, order[idx], order[..idx]);
      if err.Some? {
        AllOkSpec(pkgMp, order);
        return;
      }
    }
    assert order[..|order|] == order;
    err := None;
  }

  /** The end of main: setCount and the sort of writeToXml. The sum does
      not depend on the order of the packages (SumCountsPermutation), so
      the sort is done first; the report ends up with the same packages,
      their summed counters, in index order. */
  method Complete(info: TestInfo, ghost total: Count)
    requires info.count == Zero
    requires SumCounts(info.tpList) == total
    modifies info`count, info`tpList
    ensures multiset(info.tpList) == multiset(old(info.tpList))
    ensures info.count == total
    ensures SumCounts(info.tpList) == total
    ensures SortedByIndex(info.tpList)
  {
    ghost var unsorted := info.tpList;
    info.SortByIndex();
    ghost var sorted := info.tpList;
    SumCountsPermutation(unsorted, sorted);
    assert SumCounts(sorted) == total;
    info.SetCount();
    assert info.tpList == sorted;
    PlusZero(total);
  }

  /** Every name of a permutation of records built along a repetition-free
      enumeration `order` of `m` occurs once, and only the names of `m` occur. */
  lemma NamesOnce(ps: seq<TestPkg>, m: map<string, seq<Event>>, order: seq<string>)
    requires multiset(Names(ps)) == multiset(order)
    requires forall i, j :: 0 <= i < j < |order| ==> order[i] != order[j]
    requires forall k :: k in m <==> k in order
    ensures forall pkg :: multiset(Names(ps))[pkg] == if pkg in m then 1 else 0
  {
    DistinctOnce(order);
  }

  /** The records built along a repetition-free enumeration `order` of
      `pkgMp`, in any order: all built, each package named once, and their
      summed counters bounded. */
  lemma Reordered(unsorted: seq<TestPkg>, sorted: seq<TestPkg>, pkgMp: map<string, seq<Event>>, order: seq<string>)
    requires forall i :: 0 <= i < |order| ==> order[i] in pkgMp
    requires forall i, j :: 0 <= i < j < |order| ==> order[i] != order[j]
    requires forall k :: k in pkgMp <==> k in order
    requires BuiltAlong(unsorted, pkgMp, order)
    requires multiset(sorted) == multiset(unsorted)
    ensures AllBuilt(sorted, pkgMp)
    ensures forall pkg :: multiset(Names(sorted))[pkg] == if pkg in pkgMp then 1 else 0
    ensures SumCounts(sorted).Bounded()
  {
    BuiltAlongSpec(unsorted, pkgMp, order);
    AllBuiltPermutation(unsorted, sorted, pkgMp);
    AllBuiltBounded(sorted, pkgMp);
    NamesPermutation(unsorted, sorted);
    NamesOnce(sorted, pkgMp, order);
  }

  /** main up to its per-package loop: ingestion, classification and
      grouping, then one package record per package in the order `order`. */
  method Assemble(raw: seq<RawEvent>, now: int)
    returns (info: TestInfo?, ghost pkgMp: map<string, seq<Event>>, ghost order: seq<string>, err: Option<Error>)
    ensures err.None? <==> info != null
    ensures err.None? <==> ReportOk(raw)
    ensures err.Some? ==> Explains(raw, err.value)
    ensures err.None? ==>
      && fresh(info)
      && pkgMp == PackageGroups(raw)
      && info.time == now && info.count == Zero
      && (forall i :: 0 <= i < |order| ==> order[i] in pkgMp)
      && (forall i, j :: 0 <= i < j < |order| ==> order[i] != order[j])
      && (forall k :: k in pkgMp <==> k in order)
      && BuiltAlong(info.tpList, pkgMp, order)
  {
    var evs := Ingest(raw);
    assert evs == Ingested(raw);
    var classified, groups, gerr := GroupEvents(evs);
    if gerr.Some? {
      return null, map[], [], gerr;
    }
    pkgMp := groups;
    assert pkgMp == PackageGroups(raw);
    info := new TestInfo(now);
    var keys := RangeOrder(groups);
    order := keys;
    err := AddPackages(info, groups, keys);
    AllOkKeys(groups, keys);
    if err.Some? {
      info := null;
    }
  }

  /** main, from the decoded records to the report as writeToXml marshals it:
      ingestion, classification and grouping by package, one package record
      per package (in map iteration order), the report counters, and the sort
      by index. Any panic of the source aborts the run without a report. */
  method BuildReport(raw: seq<RawEvent>, now: int) returns (info: TestInfo?, err: Option<Error>, ghost pkgs: map<string, seq<Event>>)
    ensures err.None? <==> info != null
    ensures err.None? <==> ReportOk(raw)
    ensures err.Some? ==> Explains(raw, err.value)
    ensures err.None? ==>
      && pkgs == PackageGroups(raw)
      && info.time == now
      && AllBuilt(info.tpList, pkgs)
      && (forall pkg :: multiset(Names(info.tpList))[pkg] == if pkg in pkgs then 1 else 0)
      && info.count == SumCounts(info.tpList)
      && info.count.Bounded()
      && SortedByIndex(info.tpList)
  {
    ghost var order;
    info, pkgs, order, err := Assemble(raw, now);
    if err.Some? {
      return;
    }
    ghost var unsorted := info.tpList;
    ghost var total := SumCounts(unsorted);
    Complete(info, total);
    ghost var sorted := info.tpList;
    assert info.time == now;
    assert info.count == total == SumCounts(sorted);
    Reordered(unsorted, sorted, pkgs, order);
  }
}
