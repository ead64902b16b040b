/** The endpoint sweep that finds how many annotated notes sound at once. */
module Polyphony {
  import opened Results

  /** A note of one string: seconds, and the pitch rounded to a MIDI note. */
  datatype Note = Note(start: real, duration: real, pitch: int)

  function End(n: Note): real {
    n.start + n.duration
  }

  predicate Proper(notes: seq<Note>) {
    forall i :: 0 <= i < |notes| ==> notes[i].duration > 0.0
  }

  datatype Endpoint = Endpoint(time: real, change: int)

  /** Not later, and at one instant the ends before the starts. */
  predicate NotAfter(a: Endpoint, b: Endpoint) {
    a.time < b.time || (a.time == b.time && a.change <= b.change)
  }

  predicate Ordered(s: seq<Endpoint>) {
    forall i, j :: 0 <= i < j < |s| ==> NotAfter(s[i], s[j])
  }

  function Insert(s: seq<Endpoint>, e: Endpoint): (r: seq<Endpoint>)
    requires Ordered(s)
    ensures Ordered(r) && |r| == |s| + 1 && r[0] == if s == [] || !NotAfter(s[0], e) then e else s[0]
  {
    if s == [] || !NotAfter(s[0], e) then [e] + s else [s[0]] + Insert(s[1..], e)
  }

  /** `sorted(endpoints, key=(time, change))`. */
  function InOrder(endpoints: seq<Endpoint>): (r: seq<Endpoint>)
    ensures Ordered(r) && |r| == |endpoints|
  {
    if endpoints == [] then []
    else Insert(InOrder(endpoints[..|endpoints| - 1]), endpoints[|endpoints| - 1])
  }

  function EndpointsOf(notes: seq<Note>): (s: seq<Endpoint>)
    ensures forall i :: 0 <= i < |s| ==> s[i].change == 1 || s[i].change == -1
  {
    if notes == [] then []
    else
      var n := notes[|notes| - 1];
      EndpointsOf(notes[..|notes| - 1]) + [Endpoint(n.start, 1), Endpoint(End(n), -1)]
  }

  /** How many of the half-open note intervals contain the instant. */
  function Covering(notes: seq<Note>, t: real): nat {
    if notes == [] then 0
    else
      var n := notes[|notes| - 1];
      Covering(notes[..|notes| - 1], t) + if n.start <= t < End(n) then 1 else 0
  }

  function Early(e: Endpoint, t: real): int {
    if e.time <= t then e.change else 0
  }

  /** The sum of the changes up to and including the instant. */
  function ActiveAt(s: seq<Endpoint>, t: real): int {
    if s == [] then 0 else Early(s[0], t) + ActiveAt(s[1..], t)
  }

  lemma {:induction false} ActiveAfterAppend(s: seq<Endpoint>, e: Endpoint, t: real)
    ensures ActiveAt(s + [e], t) == ActiveAt(s, t) + Early(e, t)
    decreases |s|
  {
    if s != [] {
      assert (s + [e])[1..] == s[1..] + [e];
      ActiveAfterAppend(s[1..], e, t);
    }
  }

  lemma {:induction false} ActiveAfterInsert(s: seq<Endpoint>, e: Endpoint, t: real)
    requires Ordered(s)
    ensures ActiveAt(Insert(s, e), t) == ActiveAt(s, t) + Early(e, t)
    decreases |s|
  {
    if s == [] || !NotAfter(s[0], e) {
      assert ([e] + s)[1..] == s;
    } else {
      ActiveAfterInsert(s[1..], e, t);
      assert ([s[0]] + Insert(s[1..], e))[1..] == Insert(s[1..], e);
    }
  }

  lemma {:induction false} OrderKeepsActive(endpoints: seq<Endpoint>, t: real)
    ensures ActiveAt(InOrder(endpoints), t) == ActiveAt(endpoints, t)
    decreases |endpoints|
  {
    if endpoints != [] {
      var init, last := endpoints[..|endpoints| - 1], endpoints[|endpoints| - 1];
      OrderKeepsActive(init, t);
      ActiveAfterInsert(InOrder(init), last, t);
      ActiveAfterAppend(init, last, t);
      assert endpoints == init + [last];
    }
  }

  /** The changes up to an instant add up to the notes that cover it. */
  lemma {:induction false} ActiveIsCovering(notes: seq<Note>, t: real)
    requires Proper(notes)
    ensures ActiveAt(EndpointsOf(notes), t) == Covering(notes, t)
    decreases |notes|
  {
    if notes != [] {
      var init, n := notes[..|notes| - 1], notes[|notes| - 1];
      ActiveIsCovering(init, t);
      var before, on, off := EndpointsOf(init), Endpoint(n.start, 1), Endpoint(End(n), -1);
      assert before + [on, off] == (before + [on]) + [off];
      ActiveAfterAppend(before, on, t);
      ActiveAfterAppend(before + [on], off, t);
    }
  }

  lemma {:induction false} InOrderKeepsChanges(endpoints: seq<Endpoint>)
    requires forall i :: 0 <= i < |endpoints| ==> endpoints[i].change == 1 || endpoints[i].change == -1
    ensures forall e :: e in InOrder(endpoints) ==> e.change == 1 || e.change == -1
    decreases |endpoints|
  {
    if endpoints != [] {
      var init, last := endpoints[..|endpoints| - 1], endpoints[|endpoints| - 1];
      InOrderKeepsChanges(init);
      forall e | e in InOrder(endpoints)
        ensures e in InOrder(init) || e == last
      {
        InsertHolds(InOrder(init), last, e);
      }
    }
  }

  lemma {:induction false} InsertHolds(s: seq<Endpoint>, e: Endpoint, x: Endpoint)
    requires Ordered(s)
    ensures x in Insert(s, e) <==> x in s || x == e
    decreases |s|
  {
    if s != [] && NotAfter(s[0], e) {
      InsertHolds(s[1..], e, x);
      assert s == [s[0]] + s[1..];
    }
  }

  // ---------------------------------------------------------------- the sweep

  /** The running count after the first k endpoints. */
  function Active(s: seq<Endpoint>, k: nat): int
    requires k <= |s|
  {
    if k == 0 then 0 else Active(s, k - 1) + s[k - 1].change
  }

  /** What remains active at an instant, after the first k endpoints. */
  lemma {:induction false} ActiveAtSplits(s: seq<Endpoint>, k: nat, t: real)
    requires k <= |s| && forall i :: 0 <= i < k ==> s[i].time <= t
    ensures ActiveAt(s, t) == Active(s, k) + ActiveAt(s[k..], t)
    decreases k
  {
    if k == 0 {
      assert s[0..] == s;
    } else {
      ActiveAtSplits(s, k - 1, t);
      assert s[k - 1..][1..] == s[k..];
    }
  }

  lemma {:induction false} LaterStartsOnlyAdd(s: seq<Endpoint>, t: real)
    requires forall i :: 0 <= i < |s| ==> s[i].time >= t && (s[i].time == t ==> s[i].change >= 0)
    ensures ActiveAt(s, t) >= 0
    decreases |s|
  {
    if s != [] {
      LaterStartsOnlyAdd(s[1..], t);
    }
  }

  lemma {:induction false} NothingLater(s: seq<Endpoint>, t: real)
    requires forall i :: 0 <= i < |s| ==> s[i].time > t
    ensures ActiveAt(s, t) == 0
    decreases |s|
  {
    if s != [] {
      NothingLater(s[1..], t);
    }
  }

  /** A running count is never above what is active at some instant. */
  lemma {:induction false} RunningCountIsReached(s: seq<Endpoint>, k: nat) returns (t: real)
    requires Ordered(s) && 0 < k <= |s| && forall i :: 0 <= i < |s| ==> s[i].change == 1 || s[i].change == -1
    ensures Active(s, k) <= 0 || Active(s, k) <= ActiveAt(s, t)
    decreases k
  {
    t := s[k - 1].time;
    if s[k - 1].change == 1 {
      ActiveAtSplits(s, k, t);
      LaterStartsOnlyAdd(s[k..], t);
    } else if k > 1 {
      t := RunningCountIsReached(s, k - 1);
    }
  }

  /** What is active at an instant is some running count. */
  lemma {:induction false} ActiveIsRunningCount(s: seq<Endpoint>, t: real, k: nat) returns (n: nat)
    requires Ordered(s) && k <= |s| && forall i :: 0 <= i < k ==> s[i].time <= t
    ensures n <= |s| && Active(s, n) == ActiveAt(s, t)
    decreases |s| - k
  {
    if k < |s| && s[k].time <= t {
      n := ActiveIsRunningCount(s, t, k + 1);
    } else {
      n := k;
      ActiveAtSplits(s, k, t);
      NothingLater(s[k..], t);
    }
  }

  /** The most notes that sound at one instant. */
  ghost predicate IsPeak(notes: seq<Note>, peak: nat) {
    && (forall t :: Covering(notes, t) <= peak)
    && exists t :: Covering(notes, t) == peak
  }

  /** The largest running count. */
  ghost predicate IsLargest(s: seq<Endpoint>, peak: nat, n: nat)
    requires n <= |s|
  {
    && (forall k :: 0 <= k <= n ==> Active(s, k) <= peak)
    && exists k :: 0 <= k <= n && Active(s, k) == peak
  }

  lemma LargestIsPeak(notes: seq<Note>, s: seq<Endpoint>, peak: nat)
    requires Proper(notes) && s == InOrder(EndpointsOf(notes)) && IsLargest(s, peak, |s|)
    ensures IsPeak(notes, peak)
  {
    InOrderKeepsChanges(EndpointsOf(notes));
    forall t
      ensures ActiveAt(s, t) == Covering(notes, t)
    {
      OrderKeepsActive(EndpointsOf(notes), t);
      ActiveIsCovering(notes, t);
    }
    forall t
      ensures Covering(notes, t) <= peak
    {
      var n := ActiveIsRunningCount(s, t, 0);
    }
    var k :| 0 <= k <= |s| && Active(s, k) == peak;
    var t := 0.0;
    if k > 0 {
      t := RunningCountIsReached(s, k);
    }
    assert Covering(notes, t) <= peak;
    if peak == 0 {
      assert Covering(notes, t) == peak;
    }
  }

  method Sweep(notes: seq<Note>) returns (maximum: nat)
    requires Proper(notes)
    ensures IsPeak(notes, maximum)
  {
    var s := InOrder(EndpointsOf(notes));
    var active := 0;
    maximum := 0;
    for k := 0 to |s|
      invariant active == Active(s, k) && IsLargest(s, maximum, k)
    {
      active := active + s[k].change;
      assert active == Active(s, k + 1);
      if active > maximum {
        maximum := active;
      }
    }
    LargestIsPeak(notes, s, maximum);
  }
}
