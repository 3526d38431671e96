/** Grouping a stream of events into a map from a key to the events with
    that key: by package in `main`, by test name inside each package. */
module Grouping {

  import opened Wrappers
  import opened Events

  /** Every event belongs to the group of its package. */
  function PackageKey(e: Event): Option<string> {
    Some(e.package)
  }

  /** Only events with a test name are grouped by test; `len(Test) < 1`
      marks a package-level event. */
  function TestKey(e: Event): Option<string> {
    if |e.test| < 1 then None else Some(e.test)
  }

  /** The keys of `m` in the unspecified order in which Go's `range` visits
      a map: every key exactly once. */
  method RangeOrder<V>(m: map<string, V>) returns (keys: seq<string>)
    ensures |keys| == |m.Keys|
    ensures forall i :: 0 <= i < |keys| ==> keys[i] in m
    ensures forall i, j :: 0 <= i < j < |keys| ==> keys[i] != keys[j]
    ensures forall k :: k in m <==> k in keys
  {
    keys := [];
    var remaining := m.Keys;
    while remaining != {}
      invariant remaining <= m.Keys
      invariant |keys| + |remaining| == |m.Keys|
      invariant forall i :: 0 <= i < |keys| ==> keys[i] in m && keys[i] !in remaining
      invariant forall i, j :: 0 <= i < j < |keys| ==> keys[i] != keys[j]
      invariant forall k :: k in m ==> (k in keys <==> k !in remaining)
      decreases remaining
    {
      var k :| k in remaining;
      assert |remaining - {k}| + 1 == |remaining|;
      keys := keys + [k];
      remaining := remaining - {k};
    }
  }

  /** The entry for `k`, or the empty slice a Go map yields for a missing key. */
  function Get(m: map<string, seq<Event>>, k: string): seq<Event> {
    if k in m then m[k] else []
  }

  /** `m[k] = append(m[k], e)` */
  function Append(m: map<string, seq<Event>>, k: string, e: Event): map<string, seq<Event>> {
    m[k := Get(m, k) + [e]]
  }

  /** The grouping loop over a whole stream: each event with a key is
      appended to the entry of that key, in stream order. */
  function GroupBy(evs: seq<Event>, key: Event -> Option<string>): map<string, seq<Event>> {
    if evs == [] then map[]
    else
      var m, e := GroupBy(evs[..|evs| - 1], key), evs[|evs| - 1];
      match key(e)
      case None => m
      case Some(k) => Append(m, k, e)
  }

  /** One more event grouped. */
  lemma GroupBySnoc(evs: seq<Event>, e: Event, key: Event -> Option<string>)
    ensures GroupBy(evs + [e], key) == match key(e) case None => GroupBy(evs, key) case Some(k) => Append(GroupBy(evs, key), k, e)
  {
    assert (evs + [e])[..|evs|] == evs;
  }

  /** The reference definition of a group: the events whose key is `k`, in
      the order the stream has them. */
  function Members(evs: seq<Event>, key: Event -> Option<string>, k: string): (r: seq<Event>)
    ensures |r| <= |evs|
    ensures forall e :: e in r ==> e in evs && key(e) == Some(k)
    ensures forall i :: 0 <= i < |evs| && key(evs[i]) == Some(k) ==> evs[i] in r
  {
    if evs == [] then []
    else
      var init, e := evs[..|evs| - 1], evs[|evs| - 1];
      var r := Members(init, key, k);
      assert forall i :: 0 <= i < |init| ==> init[i] == evs[i];
      if key(e) == Some(k) then r + [e] else r
  }

  /** GroupBy builds exactly the groups of the reference definition: a key
      has an entry iff some event carries it, and the entry holds that key's
      events in stream order. So every keyed event lands in exactly one
      group, the one of its own key. */
  lemma {:induction false} GroupByMembers(evs: seq<Event>, key: Event -> Option<string>)
    ensures forall k :: k in GroupBy(evs, key) <==> exists i :: 0 <= i < |evs| && key(evs[i]) == Some(k)
    ensures forall k :: k in GroupBy(evs, key) ==> GroupBy(evs, key)[k] == Members(evs, key, k)
  {
    if evs != [] {
      var init, e := evs[..|evs| - 1], evs[|evs| - 1];
      GroupByMembers(init, key);
      assert forall i :: 0 <= i < |init| ==> init[i] == evs[i];
      forall k | k !in GroupBy(init, key) ensures Members(init, key, k) == [] {
        MembersEmpty(init, key, k);
      }
    }
  }

  /** A key that no event carries has no members. */
  lemma {:induction false} MembersEmpty(evs: seq<Event>, key: Event -> Option<string>, k: string)
    requires forall i :: 0 <= i < |evs| ==> key(evs[i]) != Some(k)
    ensures Members(evs, key, k) == []
  {
    if evs != [] {
      var init := evs[..|evs| - 1];
      assert forall i :: 0 <= i < |init| ==> init[i] == evs[i];
      MembersEmpty(init, key, k);
    }
  }

  /** Each group is non-empty. */
  lemma GroupsNonEmpty(evs: seq<Event>, key: Event -> Option<string>, k: string)
    requires k in GroupBy(evs, key)
    ensures GroupBy(evs, key)[k] != []
  {
    GroupByMembers(evs, key);
    var i :| 0 <= i < |evs| && key(evs[i]) == Some(k);
    assert evs[i] in Members(evs, key, k);
  }

}
