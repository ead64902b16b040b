/** The greedy matching of expected notes to observed note-ons, and its accounting. */
module NoteMatching {
  import opened Results
  import opened Sets

  datatype Event = Event(caseId: int, sample: int, status: int, velocity: int, note: int)

  datatype Expected = Expected(caseId: int, note: int, onset: int, release: int)

  /** `status & 0xF0`, for any integer. */
  function Kind(status: int): int {
    status % 256 / 16 * 16
  }

  predicate IsNoteOn(e: Event) {
    Kind(e.status) == 0x90 && e.velocity > 0
  }

  predicate IsNoteOff(e: Event) {
    Kind(e.status) == 0x80 || (Kind(e.status) == 0x90 && e.velocity == 0)
  }

  function Max0(n: int): nat {
    if n > 0 then n else 0
  }

  function CountOns(events: seq<Event>): nat {
    if events == [] then 0
    else CountOns(events[..|events| - 1]) + if IsNoteOn(events[|events| - 1]) then 1 else 0
  }

  // ---------------------------------------------------------------- time order

  predicate NotAfter(a: Event, b: Event) {
    a.caseId < b.caseId || (a.caseId == b.caseId && a.sample <= b.sample)
  }

  predicate TimeOrdered(events: seq<Event>) {
    forall i, j :: 0 <= i < j < |events| ==> NotAfter(events[i], events[j])
  }

  /** Inserts an event behind all events that are not after it, as a stable sort does. */
  function Insert(events: seq<Event>, e: Event): (r: seq<Event>)
    requires TimeOrdered(events)
    ensures TimeOrdered(r) && multiset(r) == multiset(events) + multiset{e}
    ensures forall x :: x in r ==> x == e || x in events
  {
    var last := |events| - 1;
    if events == [] || NotAfter(events[last], e) then events + [e]
    else
      assert events == events[..last] + [events[last]];
      var rest := Insert(events[..last], e);
      assert forall x :: x in rest ==> NotAfter(x, events[last]);
      rest + [events[last]]
  }

  /** `sorted(observed, key=(case_id, absolute_sample))`. */
  function InTime(observed: seq<Event>): (r: seq<Event>)
    ensures TimeOrdered(r) && multiset(r) == multiset(observed)
  {
    if observed == [] then []
    else
      var last := |observed| - 1;
      assert observed == observed[..last] + [observed[last]];
      Insert(InTime(observed[..last]), observed[last])
  }

  lemma {:induction false} InsertCounts(events: seq<Event>, e: Event)
    requires TimeOrdered(events)
    ensures CountOns(Insert(events, e)) == CountOns(events) + if IsNoteOn(e) then 1 else 0
    decreases |events|
  {
    var last := |events| - 1;
    if events == [] || NotAfter(events[last], e) {
      assert (events + [e])[..|events|] == events;
    } else {
      InsertCounts(events[..last], e);
      var rest := Insert(events[..last], e);
      assert (rest + [events[last]])[..|rest|] == rest;
    }
  }

  lemma {:induction false} InTimeCounts(observed: seq<Event>)
    ensures CountOns(InTime(observed)) == CountOns(observed)
    decreases |observed|
  {
    if observed != [] {
      var last := |observed| - 1;
      InTimeCounts(observed[..last]);
      InsertCounts(InTime(observed[..last]), observed[last]);
    }
  }

  /** The events of one case and sample, in their order. */
  function At(events: seq<Event>, caseId: int, sample: int): seq<Event> {
    if events == [] then []
    else
      var last := events[|events| - 1];
      At(events[..|events| - 1], caseId, sample)
        + if last.caseId == caseId && last.sample == sample then [last] else []
  }

  lemma AtOneMore(events: seq<Event>, e: Event, caseId: int, sample: int)
    ensures At(events + [e], caseId, sample)
         == At(events, caseId, sample) + if e.caseId == caseId && e.sample == sample then [e] else []
  {
    assert (events + [e])[..|events|] == events;
  }

  lemma PrefixIsOrdered(events: seq<Event>, n: nat)
    requires TimeOrdered(events) && n <= |events|
    ensures TimeOrdered(events[..n])
  {
  }

  lemma LaterIsElsewhere(last: Event, e: Event)
    requires !NotAfter(last, e)
    ensures e.caseId != last.caseId || e.sample != last.sample
  {
  }

  lemma {:induction false} InsertIsStable(events: seq<Event>, e: Event, caseId: int, sample: int)
    requires TimeOrdered(events)
    ensures At(Insert(events, e), caseId, sample) == At(events + [e], caseId, sample)
    decreases |events|
  {
    hide At, NotAfter, TimeOrdered;
    if events != [] && !NotAfter(events[|events| - 1], e) {
      var init, last := events[..|events| - 1], events[|events| - 1];
      PrefixIsOrdered(events, |events| - 1);
      InsertIsStable(init, e, caseId, sample);
      AtOneMore(Insert(init, e), last, caseId, sample);
      AtOneMore(init, e, caseId, sample);
      AtOneMore(init, last, caseId, sample);
      AtOneMore(events, e, caseId, sample);
      LaterIsElsewhere(last, e);
      assert events == init + [last];
      var base := At(init, caseId, sample);
      assert base + [] == base;
    }
  }

  /** Sorting keeps the order of events at the same instant. */
  lemma {:induction false} InTimeIsStable(observed: seq<Event>, caseId: int, sample: int)
    ensures At(InTime(observed), caseId, sample) == At(observed, caseId, sample)
    decreases |observed|
  {
    if observed != [] {
      var init, last := observed[..|observed| - 1], observed[|observed| - 1];
      InTimeIsStable(init, caseId, sample);
      InsertIsStable(InTime(init), last, caseId, sample);
      AtOneMore(InTime(init), last, caseId, sample);
    }
  }

  // ---------------------------------------------------------------- matchings

  predicate SameKey(x: Expected, y: Expected) {
    x.caseId == y.caseId && x.note == y.note
  }

  predicate Concerns(x: Expected, e: Event) {
    e.caseId == x.caseId && e.note == x.note
  }

  /** A note-on of the expected note inside its window. */
  predicate Valid(x: Expected, e: Event, tolerance: int) {
    Concerns(x, e) && IsNoteOn(e) && x.onset <= e.sample <= x.onset + Max0(tolerance)
  }

  /** For each expected note the index of the event it takes, if any. */
  type Choice = seq<Option<nat>>

  /** The first valid event from index `from` on that no earlier note has taken. */
  function FirstFree(x: Expected, events: seq<Event>, tolerance: int, taken: Choice, from: nat): (r: Option<nat>)
    requires from <= |events|
    ensures r.Some? ==>
      && from <= r.value < |events| && r !in taken && Valid(x, events[r.value], tolerance)
      && forall i: nat :: from <= i < r.value && Valid(x, events[i], tolerance) ==> Some(i) in taken
    ensures r.None? ==> forall i: nat :: from <= i < |events| && Valid(x, events[i], tolerance) ==> Some(i) in taken
    decreases |events| - from
  {
    if from == |events| then None
    else if Valid(x, events[from], tolerance) && Some(from) !in taken then Some(from)
    else FirstFree(x, events, tolerance, taken, from + 1)
  }

  /** What the first k expected notes take, one after the other. */
  function Greedy(expected: seq<Expected>, events: seq<Event>, tolerance: int, k: nat): (c: Choice)
    requires k <= |expected|
    ensures |c| == k
  {
    if k == 0 then []
    else
      var before := Greedy(expected, events, tolerance, k - 1);
      before + [FirstFree(expected[k - 1], events, tolerance, before, 0)]
  }

  /** How many notes are matched. */
  function Matched(c: Choice): nat {
    if c == [] then 0 else Matched(c[..|c| - 1]) + if c[|c| - 1].Some? then 1 else 0
  }

  predicate TakesValid(x: Expected, events: seq<Event>, tolerance: int, taken: Option<nat>) {
    taken.Some? ==> taken.value < |events| && Valid(x, events[taken.value], tolerance)
  }

  predicate Apart(c: Choice) {
    forall i, j :: 0 <= i < j < |c| && c[i].Some? ==> c[i] != c[j]
  }

  /** Distinct valid note-ons for some of the expected notes. */
  ghost predicate IsMatching(expected: seq<Expected>, events: seq<Event>, tolerance: int, c: Choice) {
    && |c| == |expected| && Apart(c)
    && forall i :: 0 <= i < |c| ==> TakesValid(expected[i], events, tolerance, c[i])
  }

  /** No later note of the same key starts earlier with an overlapping window. */
  predicate NoInversion(expected: seq<Expected>, tolerance: int) {
    forall i, j :: 0 <= i < j < |expected| && SameKey(expected[i], expected[j]) ==>
      expected[i].onset <= expected[j].onset || expected[j].onset + Max0(tolerance) < expected[i].onset
  }

  lemma {:induction false} MatchedUpdate(c: Choice, k: nat, x: Option<nat>)
    requires k < |c|
    ensures Matched(c[k := x]) + (if c[k].Some? then 1 else 0) == Matched(c) + (if x.Some? then 1 else 0)
    decreases |c|
  {
    var n := |c| - 1;
    if k == n {
      assert c[k := x][..n] == c[..n];
    } else {
      assert c[k := x][..n] == c[..n][k := x];
      MatchedUpdate(c[..n], k, x);
    }
  }

  /** The note that holds the greedy choice comes later, and its window reaches the other event. */
  lemma HolderCanMove(
    expected: seq<Expected>, events: seq<Event>, tolerance: int, c: Choice, k: nat, j: nat)
    requires TimeOrdered(events) && NoInversion(expected, tolerance)
    requires IsMatching(expected, events, tolerance, c) && k < j < |c| && c[j].Some? && c[k].Some?
    requires c[j].value < c[k].value && Valid(expected[k], events[c[j].value], tolerance)
    ensures Valid(expected[j], events[c[k].value], tolerance)
  {
    assert TakesValid(expected[j], events, tolerance, c[j]) && TakesValid(expected[k], events, tolerance, c[k]);
    assert NotAfter(events[c[j].value], events[c[k].value]);
    assert SameKey(expected[k], expected[j]);
  }

  lemma ApartPrefix(c: Choice, k: nat)
    requires Apart(c) && k < |c|
    ensures c[k].Some? ==> c[k] !in c[..k]
  {
  }

  /** Two notes whose windows allow it swap what they take. */
  lemma SwapIsMatching(expected: seq<Expected>, events: seq<Event>, tolerance: int, c: Choice, k: nat, j: nat)
    requires IsMatching(expected, events, tolerance, c) && k < j < |c|
    requires TakesValid(expected[k], events, tolerance, c[j]) && TakesValid(expected[j], events, tolerance, c[k])
    ensures IsMatching(expected, events, tolerance, c[k := c[j]][j := c[k]])
    ensures Matched(c[k := c[j]][j := c[k]]) == Matched(c)
  {
    MatchedUpdate(c, k, c[j]);
    MatchedUpdate(c[k := c[j]], j, c[k]);
  }

  /** Any matching can take the greedy choice g at note k without getting smaller. */
  lemma Exchange(
    expected: seq<Expected>, events: seq<Event>, tolerance: int, k: nat, c: Choice, g: nat)
    returns (c': Choice)
    requires k < |expected| && TimeOrdered(events) && NoInversion(expected, tolerance)
    requires IsMatching(expected, events, tolerance, c)
    requires FirstFree(expected[k], events, tolerance, c[..k], 0) == Some(g)
    ensures IsMatching(expected, events, tolerance, c') && Matched(c') >= Matched(c)
    ensures c'[..k] == c[..k] && c'[k] == Some(g)
  {
    assert TakesValid(expected[k], events, tolerance, c[k]);
    if Some(g) in c {
      var j :| 0 <= j < |c| && c[j] == Some(g);
      assert j >= k by {
        assert forall i :: 0 <= i < k ==> c[i] == c[..k][i];
      }
      if j == k {
        c' := c;
      } else {
        if c[k].Some? {
          ApartPrefix(c, k);
          HolderCanMove(expected, events, tolerance, c, k, j);
        }
        SwapIsMatching(expected, events, tolerance, c, k, j);
        c' := c[k := c[j]][j := c[k]];
      }
    } else {
      c' := c[k := Some(g)];
      MatchedUpdate(c, k, Some(g));
    }
    assert c'[..k] == c[..k];
  }

  /** One greedy step: a matching that agrees so far can be made to agree one note further. */
  lemma FollowGreedy(
    expected: seq<Expected>, events: seq<Event>, tolerance: int, k: nat, c: Choice)
    returns (c': Choice)
    requires k < |expected| && TimeOrdered(events) && NoInversion(expected, tolerance)
    requires IsMatching(expected, events, tolerance, c)
    ensures IsMatching(expected, events, tolerance, c') && Matched(c') >= Matched(c)
    ensures c'[..k + 1] == c[..k] + [FirstFree(expected[k], events, tolerance, c[..k], 0)]
  {
    var free := FirstFree(expected[k], events, tolerance, c[..k], 0);
    if free.None? {
      assert TakesValid(expected[k], events, tolerance, c[k]);
      ApartPrefix(c, k);
      c' := c;
    } else {
      c' := Exchange(expected, events, tolerance, k, c, free.value);
    }
    assert c'[..k + 1] == c'[..k] + [c'[k]];
  }

  lemma {:induction false} GreedyIsMaximumFrom(
    expected: seq<Expected>, events: seq<Event>, tolerance: int, k: nat, n: nat, c: Choice)
    requires k <= n == |expected| && TimeOrdered(events) && NoInversion(expected, tolerance)
    requires IsMatching(expected, events, tolerance, c)
    requires c[..k] == Greedy(expected, events, tolerance, k)
    ensures Matched(c) <= Matched(Greedy(expected, events, tolerance, n))
    decreases n - k
  {
    if k == n {
      assert c[..k] == c;
    } else {
      var c' := FollowGreedy(expected, events, tolerance, k, c);
      assert c'[..k + 1] == Greedy(expected, events, tolerance, k + 1);
      GreedyIsMaximumFrom(expected, events, tolerance, k + 1, n, c');
    }
  }

  /** Without an overlapping inversion the greedy matching is a maximum matching. */
  lemma GreedyIsMaximum(expected: seq<Expected>, events: seq<Event>, tolerance: int, c: Choice)
    requires TimeOrdered(events) && NoInversion(expected, tolerance)
    requires IsMatching(expected, events, tolerance, c)
    ensures Matched(c) <= Matched(Greedy(expected, events, tolerance, |expected|))
  {
    assert c[..0] == [];
    GreedyIsMaximumFrom(expected, events, tolerance, 0, |expected|, c);
  }

  lemma {:induction false} GreedyIsMatchingTo(expected: seq<Expected>, events: seq<Event>, tolerance: int, k: nat)
    requires k <= |expected|
    ensures IsMatching(expected[..k], events, tolerance, Greedy(expected, events, tolerance, k))
    decreases k
  {
    hide IsMatching, FirstFree;
    if k == 0 {
      NothingMatches(events, tolerance);
      assert expected[..0] == [];
    } else {
      GreedyIsMatchingTo(expected, events, tolerance, k - 1);
      var before := Greedy(expected, events, tolerance, k - 1);
      FreeMatches(expected, events, tolerance, k - 1, before);
    }
  }

  lemma NothingMatches(events: seq<Event>, tolerance: int)
    ensures IsMatching([], events, tolerance, [])
  {
  }

  lemma FreeMatches(expected: seq<Expected>, events: seq<Event>, tolerance: int, k: nat, before: Choice)
    requires k < |expected| && IsMatching(expected[..k], events, tolerance, before)
    ensures IsMatching(expected[..k + 1], events, tolerance,
                       before + [FirstFree(expected[k], events, tolerance, before, 0)])
  {
    hide Valid;
    assert forall i :: 0 <= i < k ==> expected[..k + 1][i] == expected[..k][i];
    assert forall i :: 0 <= i < k ==> before[i] in before;
  }

  // ---------------------------------------------------------------- an inversion does harm

  /** The notes among the first k whose window holds this onset of the given note. */
  function Reaching(expected: seq<Expected>, tolerance: int, x: Expected, k: nat): nat
    requires k <= |expected|
  {
    if k == 0 then 0
    else Reaching(expected, tolerance, x, k - 1) + if Reaches(expected[k - 1], x, tolerance) then 1 else 0
  }

  predicate Reaches(y: Expected, x: Expected, tolerance: int) {
    SameKey(y, x) && y.onset <= x.onset <= y.onset + Max0(tolerance)
  }

  /** `early` note-ons at the note's onset, then `late` ones at the end of its window. */
  function Crowd(x: Expected, tolerance: int, early: nat, late: nat): (events: seq<Event>)
    ensures |events| == early + late
  {
    seq(early + late, (i: nat) =>
      Event(x.caseId, if i < early then x.onset else x.onset + Max0(tolerance), 0x90, 1, x.note))
  }

  lemma {:induction false} ReachingGrows(expected: seq<Expected>, tolerance: int, x: Expected, k: nat, m: nat)
    requires k <= m <= |expected|
    ensures Reaching(expected, tolerance, x, k) <= Reaching(expected, tolerance, x, m)
    decreases m - k
  {
    if k < m {
      ReachingGrows(expected, tolerance, x, k, m - 1);
    }
  }

  /** Every reaching note takes the next early note-on, so the early ones go in order. */
  lemma {:induction false} CrowdIsTakenInOrder(
    expected: seq<Expected>, tolerance: int, x: Expected, early: nat, late: nat, k: nat)
    requires k <= |expected| && Reaching(expected, tolerance, x, k) <= early
    ensures var taken := Greedy(expected, Crowd(x, tolerance, early, late), tolerance, k);
      forall i: nat :: i < early ==> (Some(i) in taken <==> i < Reaching(expected, tolerance, x, k))
    ensures k > 0 && Reaches(expected[k - 1], x, tolerance) ==>
      Greedy(expected, Crowd(x, tolerance, early, late), tolerance, k)[k - 1]
        == Some(Reaching(expected, tolerance, x, k - 1))
    decreases k
  {
    if k > 0 {
      var events := Crowd(x, tolerance, early, late);
      var before := Greedy(expected, events, tolerance, k - 1);
      var next := Reaching(expected, tolerance, x, k - 1);
      var y := expected[k - 1];
      CrowdIsTakenInOrder(expected, tolerance, x, early, late, k - 1);
      var free := FirstFree(y, events, tolerance, before, 0);
      forall i: nat | i < early
        ensures Valid(y, events[i], tolerance) <==> Reaches(y, x, tolerance)
      {
      }
      if Reaches(y, x, tolerance) {
        assert next < early && Valid(y, events[next], tolerance) && Some(next) !in before;
        assert free == Some(next);
      }
    }
  }

  /** Some index in a range longer than the choice is not taken. */
  lemma {:induction false} SomethingIsLeft(c: Choice, base: nat) returns (b: nat)
    ensures base <= b <= base + |c| && Some(b) !in c
    decreases |c|
  {
    if Some(base) in c {
      var i :| 0 <= i < |c| && c[i] == Some(base);
      var rest := c[..i] + c[i + 1..];
      b := SomethingIsLeft(rest, base + 1);
      assert forall n :: 0 <= n < |c| && n != i ==> c[n] in rest by {
        assert forall n :: 0 <= n < i ==> rest[n] == c[n];
        assert forall n :: i < n < |c| ==> rest[n - 1] == c[n];
      }
    } else {
      b := base;
    }
  }

  lemma GreedyAt(expected: seq<Expected>, events: seq<Event>, tolerance: int, k: nat, n: nat)
    requires k < n <= |expected|
    ensures Greedy(expected, events, tolerance, n)[k]
         == FirstFree(expected[k], events, tolerance, Greedy(expected, events, tolerance, k), 0)
  {
    GreedyKeepsChoices(expected, events, tolerance, k + 1, n);
    var g := Greedy(expected, events, tolerance, n);
    assert g[..k + 1][k] == g[k];
  }

  /** Note i takes an early note-on, and note j, which no late one fits, gets nothing. */
  lemma InvertedPairInCrowd(expected: seq<Expected>, tolerance: int, i: nat, j: nat, late: nat)
    requires i < j < |expected| && SameKey(expected[i], expected[j])
    requires expected[j].onset < expected[i].onset <= expected[j].onset + Max0(tolerance)
    ensures var x := expected[i]; var n := |expected|; var early := Reaching(expected, tolerance, x, j);
      var greedy := Greedy(expected, Crowd(x, tolerance, early, late), tolerance, n);
      && greedy[i] == Some(Reaching(expected, tolerance, x, i)) && greedy[i].value < early
      && greedy[j].None?
  {
    var x, n := expected[i], |expected|;
    var early := Reaching(expected, tolerance, x, j);
    var events := Crowd(x, tolerance, early, late);
    ReachingGrows(expected, tolerance, x, i + 1, j);
    CrowdIsTakenInOrder(expected, tolerance, x, early, late, i + 1);
    GreedyAt(expected, events, tolerance, i, n);
    GreedyAt(expected, events, tolerance, i, i + 1);
    CrowdIsTakenInOrder(expected, tolerance, x, early, late, j);
    GreedyAt(expected, events, tolerance, j, n);
  }

  /** With an overlapping inversion there are observations that the greedy choice matches badly. */
  lemma InversionDoesHarm(expected: seq<Expected>, tolerance: int, i: nat, j: nat)
    returns (events: seq<Event>, c: Choice)
    requires i < j < |expected| && SameKey(expected[i], expected[j])
    requires expected[j].onset < expected[i].onset <= expected[j].onset + Max0(tolerance)
    ensures TimeOrdered(events) && IsMatching(expected, events, tolerance, c)
    ensures Matched(c) > Matched(Greedy(expected, events, tolerance, |expected|))
  {
    hide IsMatching, Greedy, Matched, FirstFree, Reaching;
    var n, x := |expected|, expected[i];
    var early := Reaching(expected, tolerance, x, j);
    events := Crowd(x, tolerance, early, n + 1);
    var greedy := Greedy(expected, events, tolerance, n);
    InvertedPairInCrowd(expected, tolerance, i, j, n + 1);
    var b := SomethingIsLeft(greedy, early);
    GreedyIsMatchingTo(expected, events, tolerance, n);
    assert expected[..n] == expected;
    MovedIsMatching(expected, events, tolerance, greedy, i, j, b);
    MatchedUpdate(greedy, i, Some(b));
    MatchedUpdate(greedy[i := Some(b)], j, greedy[i]);
    c := greedy[i := Some(b)][j := greedy[i]];
  }

  lemma MovedIsMatching(
    expected: seq<Expected>, events: seq<Event>, tolerance: int, c: Choice, i: nat, j: nat, b: nat)
    requires IsMatching(expected, events, tolerance, c) && i < j < |c| && c[i].Some? && c[j].None?
    requires b < |events| && Some(b) !in c && Valid(expected[i], events[b], tolerance)
    requires Valid(expected[j], events[c[i].value], tolerance)
    ensures IsMatching(expected, events, tolerance, c[i := Some(b)][j := c[i]])
  {
    assert TakesValid(expected[i], events, tolerance, c[i]);
    assert forall k :: 0 <= k < |c| ==> c[k] in c;
  }

  lemma {:induction false} GreedyKeepsChoices(
    expected: seq<Expected>, events: seq<Event>, tolerance: int, k: nat, n: nat)
    requires k <= n <= |expected|
    ensures Greedy(expected, events, tolerance, n)[..k] == Greedy(expected, events, tolerance, k)
    decreases n
  {
    if k < n {
      GreedyKeepsChoices(expected, events, tolerance, k, n - 1);
    }
  }

  /** The greedy choice is maximum for every observation exactly when no inversion overlaps. */
  lemma GreedyIsMaximumExactlyWithoutInversion(expected: seq<Expected>, tolerance: int)
    ensures NoInversion(expected, tolerance) <==>
      forall events, c :: TimeOrdered(events) && IsMatching(expected, events, tolerance, c) ==>
        Matched(c) <= Matched(Greedy(expected, events, tolerance, |expected|))
  {
    if NoInversion(expected, tolerance) {
      forall events, c | TimeOrdered(events) && IsMatching(expected, events, tolerance, c)
        ensures Matched(c) <= Matched(Greedy(expected, events, tolerance, |expected|))
      {
        GreedyIsMaximum(expected, events, tolerance, c);
      }
    } else {
      var i, j :| 0 <= i < j < |expected| && SameKey(expected[i], expected[j])
        && !(expected[i].onset <= expected[j].onset
             || expected[j].onset + Max0(tolerance) < expected[i].onset);
      var events, c := InversionDoesHarm(expected, tolerance, i, j);
    }
  }

  // ---------------------------------------------------------------- the report

  datatype Report = Report(
    matched: nat, onsetLatencies: seq<int>, releaseLatencies: seq<int>,
    hanging: nat, falseTriggers: nat, duplicates: nat)

  function CountValid(x: Expected, events: seq<Event>, tolerance: int, n: nat): nat
    requires n <= |events|
  {
    if n == 0 then 0
    else CountValid(x, events, tolerance, n - 1) + if Valid(x, events[n - 1], tolerance) then 1 else 0
  }

  /** The first note-off of the expected note at or after a sample. */
  function FirstRelease(x: Expected, events: seq<Event>, sample: int, from: nat): (r: Option<nat>)
    requires from <= |events|
    ensures r.Some? ==> r.value < |events|
    decreases |events| - from
  {
    if from == |events| then None
    else if Concerns(x, events[from]) && IsNoteOff(events[from]) && events[from].sample >= sample then Some(from)
    else FirstRelease(x, events, sample, from + 1)
  }

  /** What a note adds to the onset latencies, the release latencies and the duplicate count. */
  function Added(
    x: Expected, events: seq<Event>, tolerance: int, d: (seq<int>, seq<int>, nat), taken: Option<nat>)
    : (r: (seq<int>, seq<int>, nat))
    requires taken.Some? ==> taken.value < |events|
  {
    if taken.None? then d
    else
      var sample := events[taken.value].sample;
      var release := FirstRelease(x, events, sample, 0);
      (d.0 + [sample - x.onset],
       if release.Some? then d.1 + [events[release.value].sample - x.release] else d.1,
       d.2 + Max0((CountValid(x, events, tolerance, |events|) as int) - 1))
  }

  /** What the first k notes add up to. */
  function Details(expected: seq<Expected>, events: seq<Event>, tolerance: int, c: Choice, k: nat)
    : (d: (seq<int>, seq<int>, nat))
    requires k <= |c| && k <= |expected|
    requires forall i :: 0 <= i < |c| && c[i].Some? ==> c[i].value < |events|
  {
    if k == 0 then ([], [], 0)
    else Added(expected[k - 1], events, tolerance, Details(expected, events, tolerance, c, k - 1), c[k - 1])
  }

  lemma {:induction false} DetailsOfPrefix(
    expected: seq<Expected>, events: seq<Event>, tolerance: int, c: Choice, more: Choice, k: nat)
    requires k <= |c| && c <= more && k <= |expected|
    requires forall i :: 0 <= i < |more| && more[i].Some? ==> more[i].value < |events|
    ensures Details(expected, events, tolerance, c, k) == Details(expected, events, tolerance, more, k)
    decreases k
  {
    if k > 0 {
      DetailsOfPrefix(expected, events, tolerance, c, more, k - 1);
    }
  }

  function KeyOf(e: Event): (int, int) {
    (e.caseId, e.note)
  }

  /** Some note-on of the key within the first n events has no later note-off of the key. */
  ghost predicate LastIsOn(events: seq<Event>, key: (int, int), n: nat)
    requires n <= |events|
  {
    exists i :: 0 <= i < n && KeyOf(events[i]) == key && IsNoteOn(events[i])
      && forall j :: i < j < n && KeyOf(events[j]) == key ==> !IsNoteOff(events[j])
  }

  lemma LastIsOnNext(events: seq<Event>, key: (int, int), n: nat)
    requires n < |events|
    ensures LastIsOn(events, key, n + 1) <==>
      if KeyOf(events[n]) == key && IsNoteOn(events[n]) then true
      else if KeyOf(events[n]) == key && IsNoteOff(events[n]) then false
      else LastIsOn(events, key, n)
  {
    if LastIsOn(events, key, n) && !(KeyOf(events[n]) == key && IsNoteOff(events[n])) {
      var i :| 0 <= i < n && KeyOf(events[i]) == key && IsNoteOn(events[i])
        && forall j :: i < j < n && KeyOf(events[j]) == key ==> !IsNoteOff(events[j]);
      assert forall j :: i < j < n + 1 && KeyOf(events[j]) == key ==> !IsNoteOff(events[j]);
    }
  }

  /** The (case, note) keys whose last on or off event is an on. */
  ghost function StillOn(events: seq<Event>): (keys: set<(int, int)>)
    ensures forall key :: key in keys <==> LastIsOn(events, key, |events|)
  {
    set e | e in events && LastIsOn(events, KeyOf(e), |events|) :: KeyOf(e)
  }

  /** The keys still sounding after all events. */
  method Sounding(events: seq<Event>) returns (active: set<(int, int)>)
    ensures active == StillOn(events)
  {
    active := {};
    for n := 0 to |events|
      invariant forall key :: key in active <==> LastIsOn(events, key, n)
    {
      forall key
        ensures LastIsOn(events, key, n + 1) <==>
          if KeyOf(events[n]) == key && IsNoteOn(events[n]) then true
          else if KeyOf(events[n]) == key && IsNoteOff(events[n]) then false
          else LastIsOn(events, key, n)
      {
        LastIsOnNext(events, key, n);
      }
      if IsNoteOn(events[n]) {
        active := active + {KeyOf(events[n])};
      } else if IsNoteOff(events[n]) {
        active := active - {KeyOf(events[n])};
      }
    }
  }

  /** The first free valid note-on of one expected note, and how many valid ones there are. */
  method FindNoteOn(x: Expected, events: seq<Event>, tolerance: int, used: set<nat>, ghost taken: Choice)
    returns (free: Option<nat>, valid: nat)
    requires Holds(used, taken)
    ensures free == FirstFree(x, events, tolerance, taken, 0)
    ensures valid == CountValid(x, events, tolerance, |events|)
  {
    free, valid := None, 0;
    for n := 0 to |events|
      invariant valid == CountValid(x, events, tolerance, n)
      invariant FirstFree(x, events, tolerance, taken, 0)
             == if free.Some? then free else FirstFree(x, events, tolerance, taken, n)
    {
      if Valid(x, events[n], tolerance) {
        valid := valid + 1;
        if free.None? && n !in used {
          free := Some(n);
        }
      }
    }
  }

  method FindRelease(x: Expected, events: seq<Event>, sample: int) returns (release: Option<nat>)
    ensures release == FirstRelease(x, events, sample, 0)
  {
    for n := 0 to |events|
      invariant FirstRelease(x, events, sample, 0) == FirstRelease(x, events, sample, n)
    {
      if Concerns(x, events[n]) && IsNoteOff(events[n]) && events[n].sample >= sample {
        return Some(n);
      }
    }
    release := None;
  }

  /** Note-ons outside the used set, which holds note-ons only. */
  method CountUnused(events: seq<Event>, used: set<nat>) returns (unused: nat)
    requires forall i :: i in used ==> i < |events| && IsNoteOn(events[i])
    ensures unused + |used| == CountOns(events)
  {
    unused := 0;
    ghost var seen: set<nat> := {};
    for n := 0 to |events|
      invariant seen == set i | i in used && i < n
      invariant unused + |seen| == CountOns(events[..n])
    {
      assert events[..n + 1][..n] == events[..n];
      if IsNoteOn(events[n]) && n !in used {
        unused := unused + 1;
      }
      seen := if n in used then seen + {n} else seen;
    }
    assert seen == used && events[..|events|] == events;
  }

  /** The used set holds exactly the events that are taken. */
  ghost predicate Holds(used: set<nat>, choice: Choice) {
    forall i :: i in used <==> Some(i) in choice
  }

  /** What the loop over the expected notes has accumulated after the first k. */
  ghost predicate Tallied(
    expected: seq<Expected>, events: seq<Event>, tolerance: int, k: nat, choice: Choice,
    used: set<nat>, details: (seq<int>, seq<int>, nat))
  {
    && k <= |expected|
    && choice == Greedy(expected, events, tolerance, k)
    && IsMatching(expected[..k], events, tolerance, choice)
    && Holds(used, choice)
    && |used| == Matched(choice)
    && (forall i :: 0 <= i < |choice| && choice[i].Some? ==> choice[i].value < |events|)
    && details == Details(expected, events, tolerance, choice, k)
  }

  /** The choice one note further. */
  lemma GreedyNext(expected: seq<Expected>, events: seq<Event>, tolerance: int, k: nat)
    requires k < |expected|
    ensures var choice := Greedy(expected, events, tolerance, k);
      var free := FirstFree(expected[k], events, tolerance, choice, 0);
      && Greedy(expected, events, tolerance, k + 1) == choice + [free]
      && IsMatching(expected[..k + 1], events, tolerance, choice + [free])
      && Matched(choice + [free]) == Matched(choice) + (if free.Some? then 1 else 0)
      && (free.Some? ==> free !in choice)
  {
    var choice := Greedy(expected, events, tolerance, k);
    var free := FirstFree(expected[k], events, tolerance, choice, 0);
    GreedyIsMatchingTo(expected, events, tolerance, k + 1);
    assert (choice + [free])[..k] == choice;
  }

  lemma DetailsNext(
    expected: seq<Expected>, events: seq<Event>, tolerance: int, k: nat, choice: Choice, free: Option<nat>)
    requires k < |expected| && IsMatching(expected[..k + 1], events, tolerance, choice + [free])
    requires |choice| == k
    ensures forall i :: 0 <= i < |choice| && choice[i].Some? ==> choice[i].value < |events|
    ensures free.Some? ==> free.value < |events|
    ensures forall i :: 0 <= i < k + 1 && (choice + [free])[i].Some? ==> (choice + [free])[i].value < |events|
    ensures Details(expected, events, tolerance, choice + [free], k + 1)
         == Added(expected[k], events, tolerance, Details(expected, events, tolerance, choice, k), free)
  {
    var more := choice + [free];
    forall i | 0 <= i < k + 1 && more[i].Some?
      ensures more[i].value < |events|
    {
      assert TakesValid(expected[..k + 1][i], events, tolerance, more[i]);
    }
    assert forall i :: 0 <= i < k ==> more[i] == choice[i];
    assert more[k] == free;
    DetailsOfPrefix(expected, events, tolerance, choice, more, k);
  }

  lemma TalliedNext(
    expected: seq<Expected>, events: seq<Event>, tolerance: int, k: nat, choice: Choice,
    used: set<nat>, details: (seq<int>, seq<int>, nat), free: Option<nat>)
    requires k < |expected| && Tallied(expected, events, tolerance, k, choice, used, details)
    requires free == FirstFree(expected[k], events, tolerance, choice, 0)
    ensures Tallied(expected, events, tolerance, k + 1, choice + [free],
                    if free.Some? then used + {free.value} else used,
                    Added(expected[k], events, tolerance, details, free))
  {
    GreedyNext(expected, events, tolerance, k);
    DetailsNext(expected, events, tolerance, k, choice, free);
    UsedNext(choice, used, free);
    if free.Some? {
      assert free.value !in used;
    }
  }

  lemma UsedNext(choice: Choice, used: set<nat>, free: Option<nat>)
    requires Holds(used, choice)
    ensures Holds(if free.Some? then used + {free.value} else used, choice + [free])
  {
    assert forall i :: i in choice + [free] <==> i in choice || i == free;
  }

  /** One expected note: its first free note-on, and what it adds. */
  method MatchOne(
    x: Expected, events: seq<Event>, tolerance: int, used: set<nat>,
    details: (seq<int>, seq<int>, nat), ghost choice: Choice)
    returns (free: Option<nat>, details': (seq<int>, seq<int>, nat))
    requires Holds(used, choice)
    ensures free == FirstFree(x, events, tolerance, choice, 0)
    ensures details' == Added(x, events, tolerance, details, free)
  {
    var valid;
    free, valid := FindNoteOn(x, events, tolerance, used, choice);
    details' := details;
    if free.Some? {
      var sample := events[free.value].sample;
      var release := FindRelease(x, events, sample);
      details' := (
        details.0 + [sample - x.onset],
        if release.Some? then details.1 + [events[release.value].sample - x.release] else details.1,
        details.2 + Max0((valid as int) - 1));
    }
  }

  lemma {:induction false} OnsAreCounted(events: seq<Event>, n: nat)
    requires n <= |events|
    ensures |(set i: nat | i < n && IsNoteOn(events[i]))| == CountOns(events[..n])
    decreases n
  {
    hide IsNoteOn;
    if n > 0 {
      OnsAreCounted(events, n - 1);
      assert events[..n][..n - 1] == events[..n - 1];
      var before := set i: nat | i < n - 1 && IsNoteOn(events[i]);
      var ons := set i: nat | i < n && IsNoteOn(events[i]);
      assert ons == before + if IsNoteOn(events[n - 1]) then {n - 1} else {};
    }
  }

  function Taken(c: Choice): set<nat> {
    set o | o in c && o.Some? :: o.value
  }

  lemma TakenNext(c: Choice, last: Option<nat>)
    ensures Taken(c + [last]) == Taken(c) + if last.Some? then {last.value} else {}
  {
    assert forall o :: o in c + [last] <==> o in c || o == last;
  }

  lemma {:induction false} TakenAreCounted(c: Choice)
    requires Apart(c)
    ensures |Taken(c)| == Matched(c)
    decreases |c|
  {
    if c != [] {
      var rest, last := c[..|c| - 1], c[|c| - 1];
      TakenAreCounted(rest);
      TakenNext(rest, last);
      assert c == rest + [last];
      ApartPrefix(c, |c| - 1);
    }
  }

  lemma {:induction false} DetailsLength(
    expected: seq<Expected>, events: seq<Event>, tolerance: int, c: Choice, k: nat)
    requires k <= |c| && k <= |expected|
    requires forall i :: 0 <= i < |c| && c[i].Some? ==> c[i].value < |events|
    ensures |Details(expected, events, tolerance, c, k).0| == Matched(c[..k]) <= k
    decreases k
  {
    if k > 0 {
      DetailsLength(expected, events, tolerance, c, k - 1);
      assert c[..k][..k - 1] == c[..k - 1];
    }
  }

  /** The greedy choice takes distinct note-ons, each with one onset latency. */
  lemma MatchingIsCounted(expected: seq<Expected>, observed: seq<Event>, tolerance: int)
    ensures var events, n := InTime(observed), |expected|;
      var choice := Greedy(expected, events, tolerance, n);
      && (forall i :: 0 <= i < n && choice[i].Some? ==> choice[i].value < |events|)
      && |Details(expected, events, tolerance, choice, n).0| == Matched(choice) <= n
      && Matched(choice) <= CountOns(observed)
  {
    var events, n := InTime(observed), |expected|;
    var choice := Greedy(expected, events, tolerance, n);
    GreedyIsMatchingTo(expected, events, tolerance, n);
    assert expected[..n] == expected && choice[..n] == choice && events[..|events|] == events;
    forall i | 0 <= i < n && choice[i].Some?
      ensures choice[i].value < |events| && IsNoteOn(events[choice[i].value])
    {
      assert TakesValid(expected[i], events, tolerance, choice[i]);
    }
    DetailsLength(expected, events, tolerance, choice, n);
    InTimeCounts(observed);
    OnsAreCounted(events, |events|);
    TakenAreCounted(choice);
    var taken := Taken(choice);
    var ons := set i: nat | i < |events| && IsNoteOn(events[i]);
    SubsetSize(taken, ons);
  }

  /** The report of a note list: note-ons are either matched or false triggers. */
  ghost function ReportOf(expected: seq<Expected>, observed: seq<Event>, tolerance: int): (r: Report)
    ensures r.matched + r.falseTriggers == CountOns(observed)
    ensures r.matched == |r.onsetLatencies| == Matched(Greedy(expected, InTime(observed), tolerance, |expected|))
    ensures r.matched <= |expected|
  {
    var events, n := InTime(observed), |expected|;
    var choice := Greedy(expected, events, tolerance, n);
    MatchingIsCounted(expected, observed, tolerance);
    var details := Details(expected, events, tolerance, choice, n);
    Report(Matched(choice), details.0, details.1, |StillOn(events)|, CountOns(observed) - Matched(choice), details.2)
  }

  /** The loop over the expected notes. */
  method MatchAll(expected: seq<Expected>, events: seq<Event>, tolerance: int)
    returns (used: set<nat>, details: (seq<int>, seq<int>, nat), ghost choice: Choice)
    ensures Tallied(expected, events, tolerance, |expected|, choice, used, details)
  {
    hide Greedy, Details, FirstFree, IsMatching, Added, Tallied, Matched, CountOns, Holds, Valid;
    NothingTallied(expected, events, tolerance);
    used, details, choice := {}, ([], [], 0), [];
    var k := 0;
    while k < |expected|
      invariant 0 <= k <= |expected|
      invariant Tallied(expected, events, tolerance, k, choice, used, details)
    {
      TalliedHolds(expected, events, tolerance, k, choice, used, details);
      var free, more := MatchOne(expected[k], events, tolerance, used, details, choice);
      TalliedNext(expected, events, tolerance, k, choice, used, details, free);
      used, details := if free.Some? then used + {free.value} else used, more;
      choice := choice + [free];
      k := k + 1;
    }
  }

  /** `match_note_events`. */
  method MatchNoteEvents(expected: seq<Expected>, observed: seq<Event>, tolerance: int) returns (report: Report)
    ensures report == ReportOf(expected, observed, tolerance)
  {
    hide Greedy, Details, FirstFree, IsMatching, Added, Tallied, Matched, CountOns, Holds, LastIsOn, Valid, TimeOrdered;
    var events := InTime(observed);
    InTimeCounts(observed);
    ghost var choice;
    var used, details;
    used, details, choice := MatchAll(expected, events, tolerance);
    assert expected[..|expected|] == expected;
    TalliedHolds(expected, events, tolerance, |expected|, choice, used, details);
    MatchingIsCounted(expected, observed, tolerance);
    UsedAreNoteOns(expected, events, tolerance, choice, used);
    var falseTriggers := CountUnused(events, used);
    var active := Sounding(events);
    report := Report(|used|, details.0, details.1, |active|, falseTriggers, details.2);
  }

  lemma NothingTallied(expected: seq<Expected>, events: seq<Event>, tolerance: int)
    ensures Tallied(expected, events, tolerance, 0, [], {}, ([], [], 0))
  {
  }

  lemma TalliedHolds(
    expected: seq<Expected>, events: seq<Event>, tolerance: int, k: nat, choice: Choice,
    used: set<nat>, details: (seq<int>, seq<int>, nat))
    requires Tallied(expected, events, tolerance, k, choice, used, details)
    ensures k <= |expected| && choice == Greedy(expected, events, tolerance, k)
    ensures IsMatching(expected[..k], events, tolerance, choice) && Holds(used, choice) && |used| == Matched(choice)
    ensures forall i :: 0 <= i < |choice| && choice[i].Some? ==> choice[i].value < |events|
    ensures details == Details(expected, events, tolerance, choice, k)
  {
  }

  lemma UsedAreNoteOns(
    expected: seq<Expected>, events: seq<Event>, tolerance: int, c: Choice, used: set<nat>)
    requires IsMatching(expected, events, tolerance, c) && Holds(used, c)
    ensures forall i :: i in used ==> i < |events| && IsNoteOn(events[i])
  {
    forall i | i in used
      ensures i < |events| && IsNoteOn(events[i])
    {
      var k :| 0 <= k < |c| && c[k] == Some(i);
      assert TakesValid(expected[k], events, tolerance, c[k]);
    }
  }

  // ---------------------------------------------------------------- what the report says of the events

  /** A note-on (status 9x, some velocity) of the note within the tolerance behind its onset. */
  predicate InWindow(x: Expected, e: Event, tolerance: int) {
    && e.caseId == x.caseId && e.note == x.note && e.status % 256 / 16 == 9 && e.velocity > 0
    && x.onset <= e.sample && (e.sample == x.onset || e.sample - x.onset <= tolerance)
  }

  /** A note-off (status 8x, or 9x without velocity) of the note at or after an instant. */
  predicate EndsNote(x: Expected, e: Event, sample: int) {
    && e.caseId == x.caseId && e.note == x.note && sample <= e.sample
    && (e.status % 256 / 16 == 8 || (e.status % 256 / 16 == 9 && e.velocity == 0))
  }

  /** The first note-on in the window that no earlier note has taken. */
  ghost predicate TakesEarliest(
    x: Expected, events: seq<Event>, tolerance: int, before: Choice, taken: Option<nat>)
  {
    match taken
    case Some(i) =>
      && i < |events| && InWindow(x, events[i], tolerance) && taken !in before
      && forall j: nat :: j < i && InWindow(x, events[j], tolerance) ==> Some(j) in before
    case None =>
      forall j: nat :: j < |events| && InWindow(x, events[j], tolerance) ==> Some(j) in before
  }

  /** The first event that ends the note, if any. */
  ghost predicate EndsFirst(x: Expected, events: seq<Event>, sample: int, release: Option<nat>) {
    match release
    case Some(i) =>
      && i < |events| && EndsNote(x, events[i], sample)
      && forall j: nat :: j < i ==> !EndsNote(x, events[j], sample)
    case None => forall j: nat :: j < |events| ==> !EndsNote(x, events[j], sample)
  }

  /** What the first k notes take, and what ends them. */
  ghost predicate Plays(
    expected: seq<Expected>, events: seq<Event>, tolerance: int, k: nat, taken: Choice, releases: Choice)
  {
    && |taken| == |releases| == k <= |expected|
    && forall i :: 0 <= i < k ==>
         && TakesEarliest(expected[i], events, tolerance, taken[..i], taken[i])
         && match taken[i]
            case None => releases[i] == None
            case Some(on) => on < |events| && EndsFirst(expected[i], events, events[on].sample, releases[i])
  }

  function Windowed(x: Expected, events: seq<Event>, tolerance: int, n: nat): set<nat>
    requires n <= |events|
  {
    set i: nat | i < n && InWindow(x, events[i], tolerance)
  }

  /** The latencies of the note-ons taken, of the note-offs found, and the other note-ons in the windows. */
  ghost predicate Tells(
    expected: seq<Expected>, events: seq<Event>, tolerance: int, taken: Choice, releases: Choice,
    onsets: seq<int>, offsets: seq<int>, duplicates: int)
    requires |taken| == |releases| <= |expected|
    decreases |taken|
  {
    if taken == [] then onsets == [] && offsets == [] && duplicates == 0
    else
      var k := |taken| - 1;
      var x, on, off := expected[k], taken[k], releases[k];
      exists onsets', offsets', duplicates' ::
        && Tells(expected, events, tolerance, taken[..k], releases[..k], onsets', offsets', duplicates')
        && onsets == onsets' + (if on.Some? && on.value < |events| then [events[on.value].sample - x.onset] else [])
        && offsets == offsets'
             + (if off.Some? && off.value < |events| then [events[off.value].sample - x.release] else [])
        && duplicates == duplicates' + if on.Some? then |Windowed(x, events, tolerance, |events|)| - 1 else 0
  }

  lemma ValidIsInWindow(x: Expected, e: Event, tolerance: int)
    ensures Valid(x, e, tolerance) <==> InWindow(x, e, tolerance)
  {
  }

  lemma FreeIsEarliest(x: Expected, events: seq<Event>, tolerance: int, before: Choice)
    ensures TakesEarliest(x, events, tolerance, before, FirstFree(x, events, tolerance, before, 0))
  {
    forall i: nat | i < |events|
      ensures Valid(x, events[i], tolerance) <==> InWindow(x, events[i], tolerance)
    {
      ValidIsInWindow(x, events[i], tolerance);
    }
    hide Valid, InWindow;
  }

  lemma {:induction false} ReleaseIsFirst(x: Expected, events: seq<Event>, sample: int, from: nat)
    requires from <= |events| && forall j: nat :: j < from ==> !EndsNote(x, events[j], sample)
    ensures EndsFirst(x, events, sample, FirstRelease(x, events, sample, from))
    decreases |events| - from
  {
    if from < |events| && !EndsNote(x, events[from], sample) {
      ReleaseIsFirst(x, events, sample, from + 1);
    }
  }

  lemma {:induction false} ValidAreWindowed(x: Expected, events: seq<Event>, tolerance: int, n: nat)
    requires n <= |events|
    ensures CountValid(x, events, tolerance, n) == |Windowed(x, events, tolerance, n)|
    decreases n
  {
    if n > 0 {
      ValidAreWindowed(x, events, tolerance, n - 1);
      ValidIsInWindow(x, events[n - 1], tolerance);
      OneMoreWindowed(x, events, tolerance, n - 1);
    }
  }

  lemma OneMoreWindowed(x: Expected, events: seq<Event>, tolerance: int, n: nat)
    requires n < |events|
    ensures |Windowed(x, events, tolerance, n + 1)|
      == |Windowed(x, events, tolerance, n)| + if InWindow(x, events[n], tolerance) then 1 else 0
  {
    hide InWindow;
    assert Windowed(x, events, tolerance, n + 1)
      == Windowed(x, events, tolerance, n) + if InWindow(x, events[n], tolerance) then {n} else {};
  }

  /** One more note adds the latency of what it takes, of what ends it, and the other note-ons in its window. */
  lemma AddedTells(x: Expected, events: seq<Event>, tolerance: int, before: Choice, d: (seq<int>, seq<int>, nat))
    returns (taken: Option<nat>, release: Option<nat>)
    ensures taken == FirstFree(x, events, tolerance, before, 0)
    ensures taken.Some? ==> taken.value < |events|
    ensures release.Some? ==> release.value < |events|
    ensures match taken
      case None => release == None
      case Some(on) => EndsFirst(x, events, events[on].sample, release)
    ensures Added(x, events, tolerance, d, taken) ==
      (d.0 + if taken.Some? then [events[taken.value].sample - x.onset] else [],
       d.1 + if release.Some? then [events[release.value].sample - x.release] else [],
       d.2 + if taken.Some? then |Windowed(x, events, tolerance, |events|)| - 1 else 0)
  {
    taken, release := FirstFree(x, events, tolerance, before, 0), None;
    if taken.Some? {
      var sample := events[taken.value].sample;
      release := FirstRelease(x, events, sample, 0);
      ReleaseIsFirst(x, events, sample, 0);
      ValidAreWindowed(x, events, tolerance, |events|);
      ValidIsInWindow(x, events[taken.value], tolerance);
      assert taken.value in Windowed(x, events, tolerance, |events|);
    }
    assert d.0 + [] == d.0 && d.1 + [] == d.1;
  }

  lemma {:induction false} DetailsTell(expected: seq<Expected>, events: seq<Event>, tolerance: int, k: nat)
    returns (releases: Choice)
    requires k <= |expected|
    requires forall i :: 0 <= i < k && Greedy(expected, events, tolerance, k)[i].Some? ==>
      Greedy(expected, events, tolerance, k)[i].value < |events|
    ensures |releases| == k
    ensures var taken := Greedy(expected, events, tolerance, k);
      var d := Details(expected, events, tolerance, taken, k);
      && Plays(expected, events, tolerance, k, taken, releases)
      && Tells(expected, events, tolerance, taken, releases, d.0, d.1, d.2)
    decreases k
  {
    hide TakesEarliest, EndsFirst, Plays, Tells, Windowed, FirstFree, Added;
    releases := [];
    if k == 0 {
      NothingPlays(expected, events, tolerance);
    } else {
      var before := Greedy(expected, events, tolerance, k - 1);
      var taken := Greedy(expected, events, tolerance, k);
      assert taken[..k - 1] == before && forall i :: 0 <= i < k - 1 ==> taken[i] == before[i];
      var earlier := DetailsTell(expected, events, tolerance, k - 1);
      var d := Details(expected, events, tolerance, before, k - 1);
      DetailsOfPrefix(expected, events, tolerance, before, taken, k - 1);
      FreeIsEarliest(expected[k - 1], events, tolerance, before);
      var on, off := AddedTells(expected[k - 1], events, tolerance, before, d);
      releases := earlier + [off];
      assert releases[..k - 1] == earlier;
      PlaysNext(expected, events, tolerance, k - 1, before, earlier, on, off);
      TellsNext(expected, events, tolerance, before, earlier, on, off, d);
    }
  }

  lemma NothingPlays(expected: seq<Expected>, events: seq<Event>, tolerance: int)
    ensures Plays(expected, events, tolerance, 0, [], []) && Tells(expected, events, tolerance, [], [], [], [], 0)
  {
  }

  lemma TellsNext(
    expected: seq<Expected>, events: seq<Event>, tolerance: int, taken: Choice, releases: Choice,
    on: Option<nat>, off: Option<nat>, d: (seq<int>, seq<int>, nat))
    requires |taken| == |releases| < |expected|
    requires (on.Some? ==> on.value < |events|) && (off.Some? ==> off.value < |events|)
    requires Tells(expected, events, tolerance, taken, releases, d.0, d.1, d.2)
    ensures var x := expected[|taken|];
      Tells(expected, events, tolerance, taken + [on], releases + [off],
        d.0 + (if on.Some? then [events[on.value].sample - x.onset] else []),
        d.1 + (if off.Some? then [events[off.value].sample - x.release] else []),
        d.2 + if on.Some? then |Windowed(x, events, tolerance, |events|)| - 1 else 0)
  {
    hide Windowed;
    var more, ends := taken + [on], releases + [off];
    var k := |more| - 1;
    assert more[..k] == taken && ends[..k] == releases && more[k] == on && ends[k] == off;
    assert Tells(expected, events, tolerance, more[..k], ends[..k], d.0, d.1, d.2);
  }

  lemma PlaysNext(
    expected: seq<Expected>, events: seq<Event>, tolerance: int, k: nat, taken: Choice, releases: Choice,
    on: Option<nat>, off: Option<nat>)
    requires k < |expected| && Plays(expected, events, tolerance, k, taken, releases)
    requires TakesEarliest(expected[k], events, tolerance, taken, on)
    requires match on
      case None => off == None
      case Some(i) => i < |events| && EndsFirst(expected[k], events, events[i].sample, off)
    ensures Plays(expected, events, tolerance, k + 1, taken + [on], releases + [off])
  {
    hide TakesEarliest, EndsFirst;
    var more := taken + [on];
    forall i | 0 <= i < k + 1
      ensures more[..i] == taken[..i] && (i < k ==> more[i] == taken[i])
    {
    }
  }

  /** The event begins or ends the note of the case: status 9x with some velocity, or 8x, or 9x without. */
  predicate Begins(e: Event, caseId: int, note: int) {
    e.caseId == caseId && e.note == note && e.status % 256 / 16 == 9 && e.velocity > 0
  }

  predicate Ends(e: Event, caseId: int, note: int) {
    && e.caseId == caseId && e.note == note
    && (e.status % 256 / 16 == 8 || (e.status % 256 / 16 == 9 && e.velocity == 0))
  }

  /** The hanging notes are as many as there are notes of a case that begin and never end afterwards. */
  lemma HangingTells(expected: seq<Expected>, observed: seq<Event>, tolerance: int) returns (keys: set<(int, int)>)
    ensures ReportOf(expected, observed, tolerance).hanging == |keys|
    ensures forall caseId, note :: (caseId, note) in keys <==>
      exists i :: 0 <= i < |InTime(observed)| && Begins(InTime(observed)[i], caseId, note)
        && forall j :: i < j < |InTime(observed)| ==> !Ends(InTime(observed)[j], caseId, note)
  {
    var events := InTime(observed);
    keys := StillOn(events);
    forall caseId, note
      ensures (caseId, note) in keys <==>
        exists i :: 0 <= i < |events| && Begins(events[i], caseId, note)
          && forall j :: i < j < |events| ==> !Ends(events[j], caseId, note)
    {
      LastIsOnMeans(events, caseId, note);
    }
  }

  lemma BeginsOrEnds(e: Event, caseId: int, note: int)
    ensures Begins(e, caseId, note) <==> KeyOf(e) == (caseId, note) && IsNoteOn(e)
    ensures Ends(e, caseId, note) <==> KeyOf(e) == (caseId, note) && IsNoteOff(e)
  {
  }

  lemma LastIsOnMeans(events: seq<Event>, caseId: int, note: int)
    ensures LastIsOn(events, (caseId, note), |events|) <==>
      exists i :: 0 <= i < |events| && Begins(events[i], caseId, note)
        && forall j :: i < j < |events| ==> !Ends(events[j], caseId, note)
  {
    forall e
      ensures Begins(e, caseId, note) <==> KeyOf(e) == (caseId, note) && IsNoteOn(e)
      ensures Ends(e, caseId, note) <==> KeyOf(e) == (caseId, note) && IsNoteOff(e)
    {
      BeginsOrEnds(e, caseId, note);
    }
    hide Begins, Ends, KeyOf, IsNoteOn, IsNoteOff;
  }

  /**
   * The report in terms of the events in time order: every note takes the first free note-on in its
   * window, its release is the first note-off from that instant on, and duplicates are the other note-ons there.
   */
  lemma ReportTells(expected: seq<Expected>, observed: seq<Event>, tolerance: int)
    returns (taken: Choice, releases: Choice)
    ensures Plays(expected, InTime(observed), tolerance, |expected|, taken, releases)
    ensures var r := ReportOf(expected, observed, tolerance);
      Tells(expected, InTime(observed), tolerance, taken, releases, r.onsetLatencies, r.releaseLatencies, r.duplicates)
  {
    MatchingIsCounted(expected, observed, tolerance);
    taken := Greedy(expected, InTime(observed), tolerance, |expected|);
    releases := DetailsTell(expected, InTime(observed), tolerance, |expected|);
  }
}
