/** How many matches a list of expected notes can have at all: any number up to the notes of the case. */
module NoteReach {
  import opened Results
  import opened Sets
  import opened NoteMatching

  /** How many of the first k notes carry the case number. */
  function Own(expected: seq<Expected>, id: int, k: nat): (n: nat)
    requires k <= |expected|
    ensures n <= k
  {
    if k == 0 then 0 else Own(expected, id, k - 1) + if expected[k - 1].caseId == id then 1 else 0
  }

  /** A note-on at the onset of a note. */
  function Arrival(x: Expected): Event {
    Event(x.caseId, x.onset, 0x90, 1, x.note)
  }

  /** One such note-on for each of the first k notes that carries the case number. */
  function Arrivals(expected: seq<Expected>, id: int, k: nat): (r: seq<Event>)
    requires k <= |expected|
    ensures |r| == Own(expected, id, k) && forall e :: e in r ==> e.caseId == id && IsNoteOn(e)
  {
    if k == 0 then []
    else Arrivals(expected, id, k - 1) + if expected[k - 1].caseId == id then [Arrival(expected[k - 1])] else []
  }

  lemma {:induction false} OwnGrows(expected: seq<Expected>, id: int, k: nat, n: nat)
    requires k <= n <= |expected|
    ensures Own(expected, id, k) <= Own(expected, id, n)
    decreases n
  {
    if k < n {
      OwnGrows(expected, id, k, n - 1);
    }
  }

  lemma {:induction false} ArrivalsGrow(expected: seq<Expected>, id: int, k: nat, n: nat)
    requires k <= n <= |expected|
    ensures Arrivals(expected, id, k) <= Arrivals(expected, id, n)
    decreases n
  {
    if k < n {
      ArrivalsGrow(expected, id, k, n - 1);
    }
  }

  // ---------------------------------------------------------------- no more than the own notes

  lemma {:induction false} OnlyOwnMatch(expected: seq<Expected>, c: Choice, id: int, k: nat)
    requires k <= |c| == |expected|
    requires forall j :: 0 <= j < k && c[j].Some? ==> expected[j].caseId == id
    ensures Matched(c[..k]) <= Own(expected, id, k)
    decreases k
  {
    if k > 0 {
      OnlyOwnMatch(expected, c, id, k - 1);
      assert c[..k][..k - 1] == c[..k - 1];
    }
  }

  lemma MatchedAtMostOwn(expected: seq<Expected>, observed: seq<Event>, tolerance: int, id: int)
    requires forall e :: e in observed ==> e.caseId == id
    ensures ReportOf(expected, observed, tolerance).matched <= Own(expected, id, |expected|)
  {
    var events, n := InTime(observed), |expected|;
    var choice := Greedy(expected, events, tolerance, n);
    GreedyIsMatchingTo(expected, events, tolerance, n);
    assert expected[..n] == expected && choice[..n] == choice;
    forall j | 0 <= j < n && choice[j].Some?
      ensures expected[j].caseId == id
    {
      assert TakesValid(expected[j], events, tolerance, choice[j]);
      assert events[choice[j].value] in multiset(observed);
    }
    OnlyOwnMatch(expected, choice, id, n);
  }

  // ---------------------------------------------------------------- every smaller number

  function Places(s: seq<Event>, v: Event): set<nat> {
    set i: nat | i < |s| && s[i] == v
  }

  lemma {:induction false} PlacesCount(s: seq<Event>, v: Event)
    ensures |Places(s, v)| == multiset(s)[v]
    decreases |s|
  {
    if s != [] {
      var n := |s| - 1;
      PlacesCount(s[..n], v);
      assert s == s[..n] + [s[n]];
      assert Places(s, v) == Places(s[..n], v) + if s[n] == v then {n} else {};
    }
  }

  predicate Calls(x: Expected, id: int, v: Event) {
    x.caseId == id && Arrival(x) == v
  }

  /** The own notes among the first k whose arrival is this event. */
  function Callers(expected: seq<Expected>, id: int, k: nat, v: Event): set<nat>
    requires k <= |expected|
  {
    set j: nat | j < k && Calls(expected[j], id, v)
  }

  lemma OneMoreCaller(expected: seq<Expected>, id: int, k: nat, v: Event)
    requires k < |expected|
    ensures Callers(expected, id, k + 1, v)
      == Callers(expected, id, k, v) + if Calls(expected[k], id, v) then {k} else {}
  {
    hide Calls;
  }

  lemma {:induction false} CallersCount(expected: seq<Expected>, id: int, k: nat, v: Event)
    requires k <= |expected|
    ensures |Callers(expected, id, k, v)| == multiset(Arrivals(expected, id, k))[v]
    decreases k
  {
    if k > 0 {
      CallersCount(expected, id, k - 1, v);
      OneMoreCaller(expected, id, k - 1, v);
      assert k - 1 !in Callers(expected, id, k - 1, v);
      hide Callers, Arrival;
      var before := Arrivals(expected, id, k - 1);
      if expected[k - 1].caseId == id {
        assert multiset(before + [Arrival(expected[k - 1])]) == multiset(before) + multiset{Arrival(expected[k - 1])};
      } else {
        assert before + [] == before;
      }
    }
  }

  lemma {:induction false} ImageIsNotLarger(from: set<nat>, c: Choice, to: set<nat>)
    requires forall j :: j in from ==> j < |c|
    requires forall i :: i in to ==> exists j :: j in from && c[j] == Some(i)
    ensures |to| <= |from|
    decreases from
  {
    if to != {} {
      var i :| i in to;
      var j :| j in from && c[j] == Some(i);
      forall i' | i' in to - {i}
        ensures exists j' :: j' in from - {j} && c[j'] == Some(i')
      {
        var j' :| j' in from && c[j'] == Some(i');
        assert j' in from - {j};
      }
      ImageIsNotLarger(from - {j}, c, to - {i});
    }
  }

  /** Each own note so far took an arrival like its own, and no other note took any. */
  predicate TakeOwn(expected: seq<Expected>, events: seq<Event>, id: int, c: Choice) {
    && |c| <= |expected|
    && forall j :: 0 <= j < |c| ==>
         if expected[j].caseId == id
         then c[j].Some? && c[j].value < |events| && events[c[j].value] == Arrival(expected[j])
         else c[j].None?
  }

  /** Some arrival of the next own note is not taken yet. */
  lemma OneIsFree(
    expected: seq<Expected>, events: seq<Event>, id: int, c: Choice, p: nat) returns (i: nat)
    requires |c| < p <= |expected| && TakeOwn(expected, events, id, c)
    requires multiset(events) == multiset(Arrivals(expected, id, p)) && expected[|c|].caseId == id
    ensures i < |events| && events[i] == Arrival(expected[|c|]) && Some(i) !in c
  {
    var k := |c|;
    var v := Arrival(expected[k]);
    var there, before := Places(events, v), Callers(expected, id, k, v);
    PlacesCount(events, v);
    CallersCount(expected, id, p, v);
    assert k !in before && before + {k} <= Callers(expected, id, p, v);
    SubsetSize(before + {k}, Callers(expected, id, p, v));
    if forall i :: i in there ==> Some(i) in c {
      forall i | i in there
        ensures exists j :: j in before && c[j] == Some(i)
      {
        var j :| 0 <= j < |c| && c[j] == Some(i);
        assert j in before;
      }
      ImageIsNotLarger(before, c, there);
    }
    i :| i in there && Some(i) !in c;
  }

  /** The earliest free note-on of an own note is one at its very onset. */
  lemma NextTakesOwn(expected: seq<Expected>, events: seq<Event>, tolerance: int, id: int, c: Choice, p: nat)
    requires |c| < p <= |expected| && TakeOwn(expected, events, id, c) && TimeOrdered(events)
    requires multiset(events) == multiset(Arrivals(expected, id, p))
    ensures TakeOwn(expected, events, id, c + [FirstFree(expected[|c|], events, tolerance, c, 0)])
  {
    var x := expected[|c|];
    var free := FirstFree(x, events, tolerance, c, 0);
    if free.Some? {
      var e := events[free.value];
      ArrivalOf(expected, events, id, p, free.value);
    }
    if x.caseId == id {
      var i := OneIsFree(expected, events, id, c, p);
      assert Valid(x, events[i], tolerance);
      assert free.Some? && free.value <= i;
      assert free.value < i ==> NotAfter(events[free.value], events[i]);
    }
  }

  lemma {:induction false} ArrivalsAreArrivals(expected: seq<Expected>, id: int, k: nat, e: Event)
    requires k <= |expected| && e in Arrivals(expected, id, k)
    ensures e.caseId == id && e.status == 0x90 && e.velocity == 1
    decreases k
  {
    if k > 0 && e in Arrivals(expected, id, k - 1) {
      ArrivalsAreArrivals(expected, id, k - 1, e);
    }
  }

  lemma ArrivalOf(expected: seq<Expected>, events: seq<Event>, id: int, p: nat, i: nat)
    requires p <= |expected| && i < |events| && multiset(events) == multiset(Arrivals(expected, id, p))
    ensures events[i].caseId == id && events[i].status == 0x90 && events[i].velocity == 1
  {
    assert events[i] in multiset(events);
    ArrivalsAreArrivals(expected, id, p, events[i]);
  }

  lemma {:induction false} GreedyTakesOwn(
    expected: seq<Expected>, events: seq<Event>, tolerance: int, id: int, p: nat, k: nat)
    requires k <= p <= |expected| && TimeOrdered(events)
    requires multiset(events) == multiset(Arrivals(expected, id, p))
    ensures TakeOwn(expected, events, id, Greedy(expected, events, tolerance, k))
    decreases k
  {
    if k > 0 {
      GreedyTakesOwn(expected, events, tolerance, id, p, k - 1);
      NextTakesOwn(expected, events, tolerance, id, Greedy(expected, events, tolerance, k - 1), p);
    }
  }

  lemma {:induction false} OwnAreMatched(expected: seq<Expected>, events: seq<Event>, id: int, c: Choice, k: nat)
    requires TakeOwn(expected, events, id, c) && k <= |c|
    ensures Matched(c[..k]) == Own(expected, id, k)
    decreases k
  {
    if k > 0 {
      OwnAreMatched(expected, events, id, c, k - 1);
      assert c[..k][..k - 1] == c[..k - 1];
    }
  }

  lemma MatchedNext(c: Choice, taken: Option<nat>)
    ensures Matched(c) <= Matched(c + [taken])
  {
    assert (c + [taken])[..|c|] == c;
  }

  lemma {:induction false} GreedyMatchesMore(
    expected: seq<Expected>, events: seq<Event>, tolerance: int, k: nat, n: nat)
    requires k <= n <= |expected|
    ensures Matched(Greedy(expected, events, tolerance, k)) <= Matched(Greedy(expected, events, tolerance, n))
    decreases n
  {
    hide Matched, FirstFree;
    if k < n {
      GreedyMatchesMore(expected, events, tolerance, k, n - 1);
      var before := Greedy(expected, events, tolerance, n - 1);
      MatchedNext(before, FirstFree(expected[n - 1], events, tolerance, before, 0));
    }
  }

  lemma {:induction false} OnsAtMost(events: seq<Event>)
    ensures CountOns(events) <= |events|
    decreases |events|
  {
    if events != [] {
      OnsAtMost(events[..|events| - 1]);
    }
  }

  /** The arrivals of the first p notes match exactly the own notes among them. */
  lemma ArrivalsMatch(expected: seq<Expected>, tolerance: int, id: int, p: nat)
    requires p <= |expected|
    ensures ReportOf(expected, Arrivals(expected, id, p), tolerance).matched == Own(expected, id, p)
  {
    var observed := Arrivals(expected, id, p);
    var events := InTime(observed);
    var choice := Greedy(expected, events, tolerance, p);
    GreedyTakesOwn(expected, events, tolerance, id, p, p);
    OwnAreMatched(expected, events, id, choice, p);
    assert choice[..p] == choice;
    GreedyMatchesMore(expected, events, tolerance, p, |expected|);
    OnsAtMost(observed);
  }

  lemma {:induction false} OwnTakesEveryValue(expected: seq<Expected>, id: int, k: nat, count: nat) returns (p: nat)
    requires k <= |expected| && count <= Own(expected, id, k)
    ensures p <= k && Own(expected, id, p) == count
    decreases k
  {
    if Own(expected, id, k) == count {
      p := k;
    } else {
      p := OwnTakesEveryValue(expected, id, k - 1, count);
    }
  }

  /** Observations of one case can match any number of its own expected notes, and never more. */
  lemma MatchCountsAreUpToOwn(expected: seq<Expected>, tolerance: int, id: int, count: nat)
    ensures (exists observed: seq<Event> ::
               (forall e :: e in observed ==> e.caseId == id)
               && ReportOf(expected, observed, tolerance).matched == count)
       <==> count <= Own(expected, id, |expected|)
  {
    forall observed: seq<Event> | forall e :: e in observed ==> e.caseId == id
      ensures ReportOf(expected, observed, tolerance).matched <= Own(expected, id, |expected|)
    {
      MatchedAtMostOwn(expected, observed, tolerance, id);
    }
    if count <= Own(expected, id, |expected|) {
      var p := OwnTakesEveryValue(expected, id, |expected|, count);
      ArrivalsMatch(expected, tolerance, id, p);
      var observed := Arrivals(expected, id, p);
      assert forall e :: e in observed ==> e.caseId == id;
    }
  }
}
