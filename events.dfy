/** Test events as `go test -json` emits them, their ingestion and their
    classification into start, end and in-progress phases. */
module Events {

  import opened Wrappers

  /** The phase of an event. `Start` is listed first: it is the zero value an
      event carries before it has been classified. */
  datatype ActionType = Start | End | Ing

  /** One record as the JSON decoder delivers it. Times are milliseconds;
      `elapsed` is None when the record has no Elapsed field. */
  datatype RawEvent = RawEvent(
    action: string, package: string, test: string, output: string,
    elapsed: Option<int>, time: Option<int>)

  /** An ingested event: the decoded fields, the position in the stream and
      the phase. `elapsed` None is the "no elapsed value" sentinel. */
  datatype Event = Event(
    action: string, package: string, test: string, output: string,
    elapsed: Option<int>, time: Option<int>, index: int, actionType: ActionType)

  /** The ways a run aborts. */
  datatype Error =
    | UnknownAction(action: string)   // an action outside the vocabulary
    | EmptyAction                     // a test outcome that was never set
    | Incomplete(test: string)        // a test without a usable end event
    | MissingTime(pkg: string)        // a package-level elapsed value but no timestamp

  /** The sentinel -1 second, in milliseconds. */
  const SentinelMs: int := -1000

  predicate HasElapsed(e: Event) {
    e.elapsed.Some?
  }

  /** The event that ingestion makes of the i-th decoded record: the elapsed
      field starts at the sentinel and the decoder overwrites it only when the
      record carries one, so a carried -1 second reads as absent. */
  function Decoded(r: RawEvent, i: int): Event {
    Event(r.action, r.package, r.test, r.output,
          if r.elapsed == Some(SentinelMs) then None else r.elapsed,
          r.time, i, Start)
  }

  /** hasElapsed on an ingested event: true exactly when its record
      carried an elapsed value other than the -1 second sentinel. */
  lemma DecodedHasElapsed(r: RawEvent, i: int)
    ensures HasElapsed(Decoded(r, i)) <==> r.elapsed.Some? && r.elapsed.value != SentinelMs
  {
  }

  /** The ingestion loop: the i-th record becomes an event with index i. */
  method Ingest(raw: seq<RawEvent>) returns (evs: seq<Event>)
    ensures |evs| == |raw|
    ensures forall i :: 0 <= i < |raw| ==> evs[i] == Decoded(raw[i], i)
    ensures forall i :: 0 <= i < |evs| ==> evs[i].index == i
    ensures forall i, j :: 0 <= i < j < |evs| ==> evs[i].index < evs[j].index
    ensures forall i :: 0 <= i < |evs| ==>
      (HasElapsed(evs[i]) <==> raw[i].elapsed.Some? && raw[i].elapsed.value != SentinelMs)
  {
    evs := [];
    var index := 0;
    while index < |raw|
      invariant 0 <= index <= |raw|
      invariant |evs| == index
      invariant forall i :: 0 <= i < index ==> evs[i] == Decoded(raw[i], i)
    {
      evs := evs + [Decoded(raw[index], index)];
      index := index + 1;
    }
  }

  // ---------------------------------------------------------------------
  // Whitespace, as Go's unicode.IsSpace defines it

  predicate IsSpace(c: char) {
    var n := c as int;
    (9 <= n <= 13) || n == 32 || n == 0x85 || n == 0xA0 || n == 0x1680
    || (0x2000 <= n <= 0x200A) || n == 0x2028 || n == 0x2029 || n == 0x202F || n == 0x205F || n == 0x3000
  }

  predicate AllSpace(s: string) {
    forall i :: 0 <= i < |s| ==> IsSpace(s[i])
  }

  /** strings.TrimLeftFunc with unicode.IsSpace: `s` without its leading
      whitespace. */
  function TrimLeft(s: string): string {
    if s != [] && IsSpace(s[0]) then TrimLeft(s[1..]) else s
  }

  /** strings.TrimRightFunc with unicode.IsSpace: `s` without its trailing
      whitespace. */
  function TrimRight(s: string): string {
    if s != [] && IsSpace(s[|s| - 1]) then TrimRight(s[..|s| - 1]) else s
  }

  /** strings.TrimSpace: `s` without its leading and trailing whitespace. */
  function TrimSpace(s: string): string {
    TrimRight(TrimLeft(s))
  }

  /** TrimLeft keeps a suffix, drops only whitespace, and stops at the first
      non-blank character. */
  lemma {:induction false} TrimLeftSpec(s: string)
    ensures var r := TrimLeft(s);
      |r| <= |s| && r == s[|s| - |r|..] && AllSpace(s[..|s| - |r|]) && (r == [] || !IsSpace(r[0]))
  {
    if s != [] && IsSpace(s[0]) {
      TrimLeftSpec(s[1..]);
      var r := TrimLeft(s[1..]);
      assert s[..|s| - |r|] == [s[0]] + s[1..][..|s| - 1 - |r|];
    }
  }

  /** TrimRight keeps a prefix, drops only whitespace, and stops at the last
      non-blank character. */
  lemma {:induction false} TrimRightSpec(s: string)
    ensures var r := TrimRight(s);
      |r| <= |s| && r == s[..|r|] && AllSpace(s[|r|..]) && (r == [] || !IsSpace(r[|r| - 1]))
  {
    if s != [] && IsSpace(s[|s| - 1]) {
      TrimRightSpec(s[..|s| - 1]);
      var r := TrimRight(s[..|s| - 1]);
      assert s[|r|..] == s[..|s| - 1][|r|..] + [s[|s| - 1]];
    }
  }

  /** TrimSpace keeps a contiguous core of `s` that neither starts nor ends
      with whitespace, and everything around that core is whitespace. */
  lemma TrimSpaceSpec(s: string)
    ensures var r := TrimSpace(s);
      (exists i :: 0 <= i <= |s| - |r| && r == s[i..i + |r|] && AllSpace(s[..i]) && AllSpace(s[i + |r|..]))
      && (r == [] || (!IsSpace(r[0]) && !IsSpace(r[|r| - 1])))
  {
    var t := TrimLeft(s);
    var r := TrimRight(t);
    TrimLeftSpec(s);
    TrimRightSpec(t);
    var i := |s| - |t|;
    assert s[i + |r|..] == t[|r|..];
    assert r == s[i..i + |r|];
    assert r != [] ==> r[0] == t[0];
  }

  /** Leading whitespace is dropped by TrimLeft. */
  lemma {:induction false} TrimLeftBlankPrefix(pre: string, x: string)
    requires AllSpace(pre)
    ensures TrimLeft(pre + x) == TrimLeft(x)
  {
    if pre != [] {
      assert (pre + x)[1..] == pre[1..] + x;
      TrimLeftBlankPrefix(pre[1..], x);
    } else {
      assert pre + x == x;
    }
  }

  /** Trailing whitespace is dropped by TrimRight. */
  lemma {:induction false} TrimRightBlankSuffix(x: string, post: string)
    requires AllSpace(post)
    ensures TrimRight(x + post) == TrimRight(x)
  {
    if post != [] {
      var n := |post| - 1;
      assert (x + post)[..|x + post| - 1] == x + post[..n];
      TrimRightBlankSuffix(x, post[..n]);
    } else {
      assert x + post == x;
    }
  }

  /** TrimLeft does not look past the first non-blank character. */
  lemma {:induction false} TrimLeftAppend(a: string, post: string)
    requires TrimLeft(a) != []
    ensures TrimLeft(a + post) == TrimLeft(a) + post
  {
    assert a != [];
    assert (a + post)[0] == a[0];
    if IsSpace(a[0]) {
      assert (a + post)[1..] == a[1..] + post;
      TrimLeftAppend(a[1..], post);
    }
  }

  /** A blank string trims to nothing, whatever follows it. */
  lemma {:induction false} TrimLeftAllBlank(a: string, post: string)
    requires TrimLeft(a) == []
    ensures TrimLeft(a + post) == TrimLeft(post)
  {
    TrimLeftSpec(a);
    assert a == a[..|a| - |TrimLeft(a)|];
    TrimLeftBlankPrefix(a, post);
  }

  /** Surrounding whitespace never changes what TrimSpace keeps. */
  lemma TrimSpaceAround(pre: string, a: string, post: string)
    requires AllSpace(pre) && AllSpace(post)
    ensures TrimSpace(pre + a + post) == TrimSpace(a)
  {
    assert pre + a + post == pre + (a + post);
    TrimLeftBlankPrefix(pre, a + post);
    if TrimLeft(a) == [] {
      TrimLeftAllBlank(a, post);
      TrimLeftBlankPrefix(post, []);
      assert post + [] == post;
    } else {
      TrimLeftAppend(a, post);
      TrimRightBlankSuffix(TrimLeft(a), post);
    }
  }

  // ---------------------------------------------------------------------
  // Classification

  /** The phase of an action, decided on the trimmed action; None is the
      "unhandled actionType" error. */
  function Classify(action: string): (r: Option<ActionType>)
    ensures r == Some(Start) <==> TrimSpace(action) == "run"
    ensures r == Some(End) <==> TrimSpace(action) in ["pass", "fail", "skip"]
    ensures r == Some(Ing) <==> TrimSpace(action) in ["output", "pause", "cont", "bench"]
  {
    var a := TrimSpace(action);
    if a == "run" then Some(Start)
    else if a == "fail" || a == "pass" || a == "skip" then Some(End)
    else if a == "output" || a == "pause" || a == "cont" || a == "bench" then Some(Ing)
    else None
  }

  /** Whitespace around an action never changes its phase. */
  lemma ClassifyIgnoresSpace(pre: string, action: string, post: string)
    requires AllSpace(pre) && AllSpace(post)
    ensures Classify(pre + action + post) == Classify(action)
  {
    TrimSpaceAround(pre, action, post);
  }

  /** A blank string trims to nothing. */
  lemma BlankTrimsAway(action: string)
    requires AllSpace(action)
    ensures TrimSpace(action) == []
  {
    assert action + [] == action;
    TrimLeftBlankPrefix(action, []);
  }

  /** The empty action, and so a blank one, is an error. */
  lemma ClassifyBlankFails(action: string)
    requires AllSpace(action)
    ensures Classify(action).None?
  {
    BlankTrimsAway(action);
  }

  /** An action classified as an end is never empty: its trimmed form is one
      of the three outcomes. */
  lemma EndActionNotEmpty(action: string)
    requires Classify(action) == Some(End)
    ensures |action| > 0
  {
  }

  /** The event after setActionType has assigned its phase. */
  predicate Classified(e: Event) {
    Classify(e.action) == Some(e.actionType)
  }

  /** An end event names its outcome. */
  predicate HasOutcome(e: Event) {
    e.actionType == End ==> |e.action| > 0
  }

  /** Classification guarantees that every end event names its outcome. */
  lemma ClassifiedHasOutcome(e: Event)
    requires Classified(e)
    ensures HasOutcome(e)
  {
    if e.actionType == End {
      EndActionNotEmpty(e.action);
    }
  }

  /** setActionType: the event with its phase assigned, or None (and the
      event left as it was) when the action is unknown. */
  function SetActionType(e: Event): (r: Option<Event>)
    ensures r.None? <==> Classify(e.action).None?
    ensures r.Some? ==> Classified(r.value) && r.value == e.(actionType := r.value.actionType)
  {
    match Classify(e.action)
    case None => None
    case Some(k) => Some(e.(actionType := k))
  }

  /** setActionType over the stream: the classified events, or None as soon
      as one action is unknown. */
  function ClassifyAll(evs: seq<Event>): (r: Option<seq<Event>>)
    ensures r.Some? ==> |r.value| == |evs|
  {
    if evs == [] then Some([])
    else
      var rest, k := ClassifyAll(evs[..|evs| - 1]), SetActionType(evs[|evs| - 1]);
      if rest.None? || k.None? then None
      else Some(rest.value + [k.value])
  }

  /** One more event of the stream classified. */
  lemma ClassifyAllStep(evs: seq<Event>, i: nat)
    requires i < |evs|
    ensures ClassifyAll(evs[..i + 1]) ==
      if ClassifyAll(evs[..i]).None? || SetActionType(evs[i]).None? then None
      else Some(ClassifyAll(evs[..i]).value + [SetActionType(evs[i]).value])
  {
    assert evs[..i + 1][..i] == evs[..i];
  }

  /** The stream classifies exactly when every action is known. */
  lemma {:induction false} ClassifyAllSome(evs: seq<Event>)
    ensures ClassifyAll(evs).Some? <==> forall i :: 0 <= i < |evs| ==> SetActionType(evs[i]).Some?
    decreases |evs|
  {
    if evs != [] {
      var init, e := evs[..|evs| - 1], evs[|evs| - 1];
      ClassifyAllSome(init);
      if ClassifyAll(evs).Some? {
        forall i | 0 <= i < |evs| ensures SetActionType(evs[i]).Some? {
          if i < |init| {
            assert evs[i] == init[i];
          }
        }
      } else if ClassifyAll(init).None? {
        var j :| 0 <= j < |init| && SetActionType(init[j]).None?;
        assert evs[j] == init[j];
      } else {
        assert SetActionType(evs[|evs| - 1]).None?;
      }
    }
  }

  /** A classified stream holds each event classified on its own. */
  lemma {:induction false} ClassifyAllEach(evs: seq<Event>)
    requires ClassifyAll(evs).Some?
    ensures forall i :: 0 <= i < |evs| ==> Some(ClassifyAll(evs).value[i]) == SetActionType(evs[i])
    decreases |evs|
  {
    if evs != [] {
      var init, e := evs[..|evs| - 1], evs[|evs| - 1];
      ClassifyAllEach(init);
      var r := ClassifyAll(init).value;
      assert ClassifyAll(evs).value == r + [SetActionType(e).value];
      forall i | 0 <= i < |evs| ensures Some(ClassifyAll(evs).value[i]) == SetActionType(evs[i]) {
        if i < |init| {
          assert evs[i] == init[i] && ClassifyAll(evs).value[i] == r[i];
        } else {
          assert evs[i] == e && ClassifyAll(evs).value[i] == SetActionType(e).value;
        }
      }
    }
  }

  /** Every event ClassifyAll returns carries the phase of its action. */
  lemma ClassifiedAll(evs: seq<Event>)
    requires ClassifyAll(evs).Some?
    ensures forall i :: 0 <= i < |evs| ==>
      Classified(ClassifyAll(evs).value[i]) && ClassifyAll(evs).value[i].index == evs[i].index
  {
    ClassifyAllEach(evs);
    forall i | 0 <= i < |evs|
      ensures Classified(ClassifyAll(evs).value[i]) && ClassifyAll(evs).value[i].index == evs[i].index
    {
      assert Some(ClassifyAll(evs).value[i]) == SetActionType(evs[i]);
    }
  }

}
