/** The scoring of whole campaigns: cases are matched one by one and their reports added up. */
module NoteScoring {
  import opened Results
  import opened NoteMatching
  import opened NoteReach

  datatype Case = Case(
    caseId: int, notes: seq<int>, onset: int, release: int, timeout: int, expectedEvents: seq<Expected>)

  datatype Totals = Totals(
    truePositives: int, falsePositives: int, falseNegatives: int, hanging: int, duplicates: int,
    silenceEvents: int, onsets: seq<int>, releases: seq<int>, chords: seq<int>)

  const NOTHING := Totals(0, 0, 0, 0, 0, 0, [], [], [])

  predicate Ascending(s: seq<int>) {
    forall i, j :: 0 <= i < j < |s| ==> s[i] < s[j]
  }

  function Add(s: seq<int>, x: int): (r: seq<int>)
    requires Ascending(s)
    ensures Ascending(r) && r != [] && r[0] == if s == [] || x < s[0] then x else s[0]
  {
    if s == [] || x < s[0] then [x] + s
    else if s[0] == x then s
    else [s[0]] + Add(s[1..], x)
  }

  /** `sorted({...})`. */
  function Distinct(notes: seq<int>): (r: seq<int>)
    ensures Ascending(r)
  {
    if notes == [] then [] else Add(Distinct(notes[..|notes| - 1]), notes[|notes| - 1])
  }

  lemma {:induction false} AddHolds(s: seq<int>, x: int, y: int)
    requires Ascending(s)
    ensures y in Add(s, x) <==> y in s || y == x
    decreases |s|
  {
    if s != [] && s[0] < x {
      AddHolds(s[1..], x, y);
      assert s == [s[0]] + s[1..];
    }
  }

  /** The distinct notes are the notes, each once and in ascending order. */
  lemma {:induction false} DistinctHolds(notes: seq<int>, y: int)
    ensures Ascending(Distinct(notes)) && (y in Distinct(notes) <==> y in notes)
    decreases |notes|
  {
    if notes != [] {
      var init, last := notes[..|notes| - 1], notes[|notes| - 1];
      assert notes == init + [last];
      DistinctHolds(init, y);
      AddHolds(Distinct(init), last, y);
    }
  }

  /** The notes a case is matched against: the given ones, or one per distinct note. */
  function NotesOf(c: Case): (r: seq<Expected>)
    ensures c.expectedEvents == [] ==>
      && |r| == |Distinct(c.notes)|
      && forall i :: 0 <= i < |r| ==> r[i] == Expected(c.caseId, Distinct(c.notes)[i], c.onset, c.release)
  {
    if c.expectedEvents != [] then c.expectedEvents
    else
      var notes := Distinct(c.notes);
      seq(|notes|, i requires 0 <= i < |notes| => Expected(c.caseId, notes[i], c.onset, c.release))
  }

  function EventsOf(events: seq<Event>, caseId: int): seq<Event> {
    if events == [] then []
    else
      var last := events[|events| - 1];
      EventsOf(events[..|events| - 1], caseId) + if last.caseId == caseId then [last] else []
  }

  function Largest(s: seq<int>): int
    requires s != []
  {
    if |s| == 1 then s[0]
    else
      var before := Largest(s[..|s| - 1]);
      if s[|s| - 1] >= before then s[|s| - 1] else before
  }

  /** The largest element is an element, and none is larger. */
  lemma {:induction false} LargestIsReached(s: seq<int>)
    requires s != []
    ensures exists i :: 0 <= i < |s| && s[i] == Largest(s)
    ensures forall i :: 0 <= i < |s| ==> s[i] <= Largest(s)
    decreases |s|
  {
    var last := |s| - 1;
    if |s| == 1 {
      assert s[last] == Largest(s);
    } else {
      var init := s[..last];
      LargestIsReached(init);
      var i :| 0 <= i < |init| && init[i] == Largest(init);
      assert s[i] == Largest(init) && Largest(s) in {s[i], s[last]};
      assert forall j :: 0 <= j < |init| ==> s[j] == init[j];
    }
  }

  function EarliestOnset(notes: seq<Expected>): int
    requires notes != []
  {
    var last := notes[|notes| - 1].onset;
    if |notes| == 1 then last
    else
      var before := EarliestOnset(notes[..|notes| - 1]);
      if last <= before then last else before
  }

  /** The earliest onset is that of some note, and none is earlier. */
  lemma {:induction false} EarliestOnsetIsReached(notes: seq<Expected>)
    requires notes != []
    ensures exists i :: 0 <= i < |notes| && notes[i].onset == EarliestOnset(notes)
    ensures forall i :: 0 <= i < |notes| ==> EarliestOnset(notes) <= notes[i].onset
    decreases |notes|
  {
    var last := |notes| - 1;
    if |notes| == 1 {
      assert notes[last].onset == EarliestOnset(notes);
    } else {
      var init := notes[..last];
      EarliestOnsetIsReached(init);
      var i :| 0 <= i < |init| && init[i].onset == EarliestOnset(init);
      assert notes[i].onset == EarliestOnset(init) && EarliestOnset(notes) in {notes[i].onset, notes[last].onset};
      assert forall j :: 0 <= j < |init| ==> notes[j] == init[j];
    }
  }

  /** Sums of onset and latency, paired in order. */
  function Observed(notes: seq<Expected>, latencies: seq<int>): (r: seq<int>)
    requires |notes| == |latencies|
    ensures |r| == |notes| && forall i :: 0 <= i < |r| ==> r[i] == notes[i].onset + latencies[i]
  {
    seq(|notes|, i requires 0 <= i < |notes| => notes[i].onset + latencies[i])
  }

  ghost function CaseReport(c: Case, events: seq<Event>): (r: Report)
    ensures r.matched + r.falseTriggers == CountOns(EventsOf(events, c.caseId))
    ensures r.matched == |r.onsetLatencies| <= |NotesOf(c)|
  {
    ReportOf(NotesOf(c), EventsOf(events, c.caseId), c.timeout)
  }

  predicate Chord(c: Case, report: Report) {
    |Distinct(c.notes)| > 1 && report.matched == |Distinct(c.notes)|
  }

  /** When a chord is complete, from its earliest onset to its last note-on; None when the pairing fails. */
  function ChordOf(c: Case, report: Report): Option<seq<int>> {
    var notes := NotesOf(c);
    if !Chord(c, report) then Some([])
    else if |notes| != |report.onsetLatencies| || notes == [] then None
    else Some([Largest(Observed(notes, report.onsetLatencies)) - EarliestOnset(notes)])
  }

  /** What one case contributes to the totals. */
  datatype Entry = Entry(report: Report, distinct: nat, chord: Option<seq<int>>)

  function EntryOf(c: Case, report: Report): Entry {
    Entry(report, |Distinct(c.notes)|, ChordOf(c, report))
  }

  /** The entries of all cases. */
  ghost function Entries(cases: seq<Case>, events: seq<Event>): (r: seq<Entry>)
    ensures |r| == |cases|
  {
    seq(|cases|, k requires 0 <= k < |cases| => EntryOf(cases[k], CaseReport(cases[k], events)))
  }

  /** The totals with one more case, unless its pairing fails. */
  function Next(t: Totals, e: Entry): Option<Totals> {
    if e.chord.None? then None
    else Some(Totals(
      t.truePositives + e.report.matched, t.falsePositives + e.report.falseTriggers,
      t.falseNegatives + e.distinct - e.report.matched,
      t.hanging + e.report.hanging, t.duplicates + e.report.duplicates,
      t.silenceEvents + if e.distinct == 0 then e.report.falseTriggers else 0,
      t.onsets + e.report.onsetLatencies, t.releases + e.report.releaseLatencies, t.chords + e.chord.value))
  }

  /** The totals of the first k cases, or None once a pairing has failed. */
  function Score(entries: seq<Entry>, k: nat): Option<Totals>
    requires k <= |entries|
  {
    if k == 0 then Some(NOTHING)
    else
      match Score(entries, k - 1)
      case None => None
      case Some(t) => Next(t, entries[k - 1])
  }

  ghost function Summary(cases: seq<Case>, events: seq<Event>): Option<Totals> {
    Score(Entries(cases, events), |cases|)
  }

  lemma {:induction false} NoneStaysNone(entries: seq<Entry>, k: nat, n: nat)
    requires k <= n <= |entries| && Score(entries, k).None?
    ensures Score(entries, n).None?
    decreases n
  {
    if k < n {
      NoneStaysNone(entries, k, n - 1);
    }
  }

  method SelectEvents(events: seq<Event>, caseId: int) returns (mine: seq<Event>)
    ensures mine == EventsOf(events, caseId)
  {
    mine := [];
    for i := 0 to |events|
      invariant mine == EventsOf(events[..i], caseId)
    {
      assert events[..i + 1][..i] == events[..i];
      if events[i].caseId == caseId {
        mine := mine + [events[i]];
      }
    }
    assert events[..|events|] == events;
  }

  method EnterCase(cases: seq<Case>, k: nat, events: seq<Event>) returns (e: Entry)
    requires k < |cases|
    ensures e == Entries(cases, events)[k]
  {
    var c := cases[k];
    var mine := SelectEvents(events, c.caseId);
    var report := MatchNoteEvents(NotesOf(c), mine, c.timeout);
    e := EntryOf(c, report);
  }

  /** `summarize`: None stands for the error of the strict pairing. */
  method Summarize(cases: seq<Case>, events: seq<Event>) returns (r: Option<Totals>)
    ensures r == Summary(cases, events)
  {
    hide EntryOf, CaseReport, Entries;
    r := Some(NOTHING);
    var k := 0;
    while k < |cases| && r.Some?
      invariant 0 <= k <= |cases|
      invariant r == Score(Entries(cases, events), k)
    {
      var e := EnterCase(cases, k, events);
      r := Next(r.value, e);
      k := k + 1;
    }
    if r.None? {
      NoneStaysNone(Entries(cases, events), k, |cases|);
    }
  }

  // ---------------------------------------------------------------- what the totals mean

  function Ids(cases: seq<Case>, k: nat): set<int>
    requires k <= |cases|
  {
    set i | 0 <= i < k :: cases[i].caseId
  }

  predicate DistinctIds(cases: seq<Case>) {
    forall i, j :: 0 <= i < j < |cases| ==> cases[i].caseId != cases[j].caseId
  }

  function OnsOf(events: seq<Event>, ids: set<int>): nat {
    if events == [] then 0
    else
      var last := events[|events| - 1];
      OnsOf(events[..|events| - 1], ids) + if IsNoteOn(last) && last.caseId in ids then 1 else 0
  }

  function DistinctNotes(cases: seq<Case>, k: nat): nat
    requires k <= |cases|
  {
    if k == 0 then 0 else DistinctNotes(cases, k - 1) + |Distinct(cases[k - 1].notes)|
  }

  lemma {:induction false} OnsOfOneMore(events: seq<Event>, ids: set<int>, id: int)
    requires id !in ids
    ensures OnsOf(events, ids + {id}) == OnsOf(events, ids) + CountOns(EventsOf(events, id))
    decreases |events|
  {
    if events != [] {
      var last := |events| - 1;
      OnsOfOneMore(events[..last], ids, id);
      var before := EventsOf(events[..last], id);
      assert (before + [events[last]])[..|before|] == before;
      assert before + [] == before;
    }
  }

  /** The entries account for every note-on and every distinct note of their case. */
  predicate Accounts(cases: seq<Case>, entries: seq<Entry>, events: seq<Event>) {
    && |cases| == |entries|
    && forall k :: 0 <= k < |cases| ==>
         && entries[k].report.matched + entries[k].report.falseTriggers == CountOns(EventsOf(events, cases[k].caseId))
         && entries[k].distinct == |Distinct(cases[k].notes)|
  }

  lemma {:induction false} ScoresAddUp(cases: seq<Case>, entries: seq<Entry>, events: seq<Event>, k: nat)
    requires DistinctIds(cases) && Accounts(cases, entries, events)
    requires k <= |cases| && Score(entries, k).Some?
    ensures var t := Score(entries, k).value;
      && t.truePositives + t.falsePositives == OnsOf(events, Ids(cases, k))
      && t.truePositives + t.falseNegatives == DistinctNotes(cases, k)
    decreases k
  {
    if k == 0 {
      assert Ids(cases, k) == {};
      NoIdsNoOns(events);
    } else {
      ScoresAddUp(cases, entries, events, k - 1);
      var id := cases[k - 1].caseId;
      assert Ids(cases, k) == Ids(cases, k - 1) + {id} && id !in Ids(cases, k - 1);
      OnsOfOneMore(events, Ids(cases, k - 1), id);
    }
  }

  /** Every note-on of the scored cases is a true or a false positive, and every distinct note is found or missed. */
  lemma EveryNoteOnIsScoredOnce(cases: seq<Case>, events: seq<Event>)
    requires DistinctIds(cases) && Summary(cases, events).Some?
    ensures var t := Summary(cases, events).value;
      && t.truePositives + t.falsePositives == OnsOf(events, Ids(cases, |cases|))
      && t.truePositives + t.falseNegatives == DistinctNotes(cases, |cases|)
  {
    ScoresAddUp(cases, Entries(cases, events), events, |cases|);
  }

  lemma {:induction false} NoIdsNoOns(events: seq<Event>)
    ensures OnsOf(events, {}) == 0
    decreases |events|
  {
    if events != [] {
      NoIdsNoOns(events[..|events| - 1]);
    }
  }

  /** One number of the first k reports, summed; and one list of theirs, joined. */
  function Sum(reports: seq<Report>, k: nat, pick: Report -> int): int
    requires k <= |reports|
  {
    if k == 0 then 0 else Sum(reports, k - 1, pick) + pick(reports[k - 1])
  }

  function Join(reports: seq<Report>, k: nat, pick: Report -> seq<int>): seq<int>
    requires k <= |reports|
  {
    if k == 0 then [] else Join(reports, k - 1, pick) + pick(reports[k - 1])
  }

  function NoteSet(notes: seq<int>): set<int> {
    set x | x in notes
  }

  /** The distinct notes of the first k cases that were not matched. */
  function Missed(cases: seq<Case>, reports: seq<Report>, k: nat): int
    requires k <= |cases| == |reports|
  {
    if k == 0 then 0
    else Missed(cases, reports, k - 1) + |NoteSet(cases[k - 1].notes)| - reports[k - 1].matched
  }

  /** The false triggers of those of the first k cases that expect no note. */
  function InSilence(cases: seq<Case>, reports: seq<Report>, k: nat): int
    requires k <= |cases| == |reports|
  {
    if k == 0 then 0
    else InSilence(cases, reports, k - 1) + if cases[k - 1].notes == [] then reports[k - 1].falseTriggers else 0
  }

  /** All of several notes are matched. */
  predicate Completed(c: Case, r: Report) {
    |NoteSet(c.notes)| > 1 && r.matched == |NoteSet(c.notes)|
  }

  /** From the earliest onset of the case to the latest note-on that was taken. */
  predicate CompletedAfter(notes: seq<Expected>, latencies: seq<int>, x: int) {
    && |notes| == |latencies|
    && exists first, last | 0 <= first < |notes| && 0 <= last < |notes| ::
         && x == notes[last].onset + latencies[last] - notes[first].onset
         && IsEarliest(notes, first) && IsLatest(notes, latencies, last)
  }

  predicate IsEarliest(notes: seq<Expected>, first: nat)
    requires first < |notes|
  {
    forall i :: 0 <= i < |notes| ==> notes[first].onset <= notes[i].onset
  }

  predicate IsLatest(notes: seq<Expected>, latencies: seq<int>, last: nat)
    requires last < |notes| == |latencies|
  {
    forall i :: 0 <= i < |notes| ==> notes[i].onset + latencies[i] <= notes[last].onset + latencies[last]
  }

  /** One latency for every completed chord of the first k cases, in order. */
  ghost predicate ChordsAre(cases: seq<Case>, reports: seq<Report>, k: nat, chords: seq<int>)
    requires k <= |cases| == |reports|
  {
    if k == 0 then chords == []
    else if Completed(cases[k - 1], reports[k - 1]) then
      && chords != []
      && ChordsAre(cases, reports, k - 1, chords[..|chords| - 1])
      && CompletedAfter(NotesOf(cases[k - 1]), reports[k - 1].onsetLatencies, chords[|chords| - 1])
    else ChordsAre(cases, reports, k - 1, chords)
  }

  /** The chord latency of a case is that of its latest note. */
  lemma ChordMeans(c: Case, report: Report)
    requires ChordOf(c, report).Some?
    ensures if Completed(c, report)
      then |ChordOf(c, report).value| == 1
        && CompletedAfter(NotesOf(c), report.onsetLatencies, ChordOf(c, report).value[0])
      else ChordOf(c, report).value == []
  {
    DistinctSize(c.notes);
    if Completed(c, report) {
      var notes := NotesOf(c);
      var observed := Observed(notes, report.onsetLatencies);
      LargestIsReached(observed);
      EarliestOnsetIsReached(notes);
      var last :| 0 <= last < |observed| && observed[last] == Largest(observed);
      var first :| 0 <= first < |notes| && notes[first].onset == EarliestOnset(notes);
      assert IsEarliest(notes, first) && IsLatest(notes, report.onsetLatencies, last);
    }
  }

  /** What the first k reports add up to, number by number. */
  ghost predicate AddsUp(cases: seq<Case>, reports: seq<Report>, k: nat, t: Totals)
    requires k <= |cases| == |reports|
  {
    && t.truePositives == Sum(reports, k, (r: Report) => r.matched)
    && t.falsePositives == Sum(reports, k, (r: Report) => r.falseTriggers)
    && t.falseNegatives == Missed(cases, reports, k)
    && t.hanging == Sum(reports, k, (r: Report) => r.hanging)
    && t.duplicates == Sum(reports, k, (r: Report) => r.duplicates)
    && t.silenceEvents == InSilence(cases, reports, k)
    && t.onsets == Join(reports, k, (r: Report) => r.onsetLatencies)
    && t.releases == Join(reports, k, (r: Report) => r.releaseLatencies)
  }

  lemma {:induction false} AscendingSize(s: seq<int>)
    requires Ascending(s)
    ensures |NoteSet(s)| == |s|
    decreases |s|
  {
    if s != [] {
      var rest := s[1..];
      AscendingSize(rest);
      assert s == [s[0]] + rest;
      assert NoteSet(s) == NoteSet(rest) + {s[0]};
    }
  }

  /** As many distinct notes as the set of notes has. */
  lemma DistinctSize(notes: seq<int>)
    ensures |Distinct(notes)| == |NoteSet(notes)|
    ensures Distinct(notes) == [] <==> notes == []
  {
    forall y
      ensures y in Distinct(notes) <==> y in notes
    {
      DistinctHolds(notes, y);
    }
    AscendingSize(Distinct(notes));
    assert NoteSet(notes) == NoteSet(Distinct(notes));
    if notes != [] {
      assert notes[0] in notes;
    }
    if Distinct(notes) != [] {
      assert Distinct(notes)[0] in Distinct(notes);
    }
  }

  lemma {:induction false} ScoreAddsUp(cases: seq<Case>, reports: seq<Report>, entries: seq<Entry>, k: nat)
    requires |cases| == |reports| == |entries| && k <= |cases| && Score(entries, k).Some?
    requires forall i :: 0 <= i < |cases| ==> entries[i] == EntryOf(cases[i], reports[i])
    ensures AddsUp(cases, reports, k, Score(entries, k).value)
    decreases k
  {
    if k > 0 {
      ScoreAddsUp(cases, reports, entries, k - 1);
      DistinctSize(cases[k - 1].notes);
    }
  }

  lemma ChordsNext(cases: seq<Case>, reports: seq<Report>, k: nat, before: seq<int>, chord: seq<int>)
    requires 0 < k <= |cases| == |reports| && ChordsAre(cases, reports, k - 1, before)
    requires ChordOf(cases[k - 1], reports[k - 1]) == Some(chord)
    ensures ChordsAre(cases, reports, k, before + chord)
  {
    ChordMeans(cases[k - 1], reports[k - 1]);
    hide ChordOf, Completed, CompletedAfter;
    if Completed(cases[k - 1], reports[k - 1]) {
      assert (before + chord)[..|before|] == before;
    } else {
      assert before + chord == before;
    }
  }

  lemma {:induction false} ChordsAddUp(cases: seq<Case>, reports: seq<Report>, entries: seq<Entry>, k: nat)
    requires |cases| == |reports| == |entries| && k <= |cases| && Score(entries, k).Some?
    requires forall i :: 0 <= i < |cases| ==> entries[i] == EntryOf(cases[i], reports[i])
    ensures ChordsAre(cases, reports, k, Score(entries, k).value.chords)
    decreases k
  {
    hide ChordOf;
    if k > 0 {
      ChordsAddUp(cases, reports, entries, k - 1);
      var before := Score(entries, k - 1).value.chords;
      assert entries[k - 1] == EntryOf(cases[k - 1], reports[k - 1]);
      ChordsNext(cases, reports, k, before, entries[k - 1].chord.value);
      hide ChordsAre;
    }
  }

  /** The totals are the sums and joined lists of the case reports, and the latencies of the complete chords. */
  lemma TotalsAddUp(cases: seq<Case>, events: seq<Event>) returns (reports: seq<Report>)
    requires Summary(cases, events).Some?
    ensures |reports| == |cases|
    ensures forall i :: 0 <= i < |cases| ==>
      && reports[i] == ReportOf(NotesOf(cases[i]), EventsOf(events, cases[i].caseId), cases[i].timeout)
      && (cases[i].expectedEvents != [] ==> NotesOf(cases[i]) == cases[i].expectedEvents)
    ensures AddsUp(cases, reports, |cases|, Summary(cases, events).value)
    ensures ChordsAre(cases, reports, |cases|, Summary(cases, events).value.chords)
  {
    reports := seq(|cases|, i requires 0 <= i < |cases| => CaseReport(cases[i], events));
    ScoreAddsUp(cases, reports, Entries(cases, events), |cases|);
    ChordsAddUp(cases, reports, Entries(cases, events), |cases|);
  }

  /** The pairing fails exactly when a case matches as many notes as it has distinct ones, but not all it lists. */
  predicate Mispaired(c: Case, report: Report) {
    Chord(c, report) && c.expectedEvents != [] && |c.expectedEvents| != |Distinct(c.notes)|
  }

  lemma ChordFailsWhenMispaired(c: Case, report: Report)
    requires report.matched == |report.onsetLatencies|
    ensures ChordOf(c, report).None? <==> Mispaired(c, report)
  {
  }

  lemma {:induction false} FailsWhenSomeEntryDoes(entries: seq<Entry>, k: nat)
    requires k <= |entries|
    ensures Score(entries, k).None? <==> exists i :: 0 <= i < k && entries[i].chord.None?
    decreases k
  {
    if k > 0 {
      FailsWhenSomeEntryDoes(entries, k - 1);
    }
  }

  lemma FailsExactlyWhenMispaired(cases: seq<Case>, events: seq<Event>)
    ensures Summary(cases, events).None? <==>
      exists k :: 0 <= k < |cases| && Mispaired(cases[k], CaseReport(cases[k], events))
  {
    var entries := Entries(cases, events);
    FailsWhenSomeEntryDoes(entries, |cases|);
    forall k | 0 <= k < |cases|
      ensures entries[k].chord.None? <==> Mispaired(cases[k], CaseReport(cases[k], events))
    {
      ChordFailsWhenMispaired(cases[k], CaseReport(cases[k], events));
    }
  }

  lemma {:induction false} LatencyAt(
    expected: seq<Expected>, events: seq<Event>, tolerance: int, c: Choice, k: nat, i: nat)
    requires i < k <= |c| == |expected|
    requires forall j :: 0 <= j < |c| ==> c[j].Some? && c[j].value < |events|
    ensures |Details(expected, events, tolerance, c, k).0| == k
    ensures Details(expected, events, tolerance, c, k).0[i] == events[c[i].value].sample - expected[i].onset
    decreases k
  {
    if i < k - 1 {
      LatencyAt(expected, events, tolerance, c, k - 1, i);
    } else {
      DetailsLength(expected, events, tolerance, c, k - 1);
      AllMatched(c, k - 1);
    }
  }

  lemma {:induction false} AllMatched(c: Choice, k: nat)
    requires k <= |c|
    ensures Matched(c[..k]) <= k
    ensures Matched(c[..k]) == k <==> forall j :: 0 <= j < k ==> c[j].Some?
    decreases k
  {
    if k > 0 {
      AllMatched(c, k - 1);
      assert c[..k][..k - 1] == c[..k - 1];
    }
  }

  lemma LatenciesOfMatching(
    expected: seq<Expected>, events: seq<Event>, tolerance: int, c: Choice, latencies: seq<int>)
    requires IsMatching(expected, events, tolerance, c) && Matched(c) == |expected|
    requires forall j :: 0 <= j < |c| && c[j].Some? ==> c[j].value < |events|
    requires latencies == Details(expected, events, tolerance, c, |expected|).0
    ensures |latencies| == |expected|
    ensures forall i :: 0 <= i < |expected| ==>
      && c[i].Some? && c[i].value < |events|
      && latencies[i] == events[c[i].value].sample - expected[i].onset && 0 <= latencies[i] <= Max0(tolerance)
  {
    var n := |expected|;
    assert c[..n] == c;
    AllMatched(c, n);
    forall i | 0 <= i < n
      ensures |latencies| == n
      ensures latencies[i] == events[c[i].value].sample - expected[i].onset
      ensures Valid(expected[i], events[c[i].value], tolerance)
    {
      LatencyAt(expected, events, tolerance, c, n, i);
      assert TakesValid(expected[i], events, tolerance, c[i]);
    }
  }

  /** When all notes are matched the paired sums are the instants of the note-ons they took. */
  lemma ObservedAreTheTakenInstants(expected: seq<Expected>, observed: seq<Event>, tolerance: int)
    requires ReportOf(expected, observed, tolerance).matched == |expected|
    ensures var events := InTime(observed);
      var choice := Greedy(expected, events, tolerance, |expected|);
      var latencies := ReportOf(expected, observed, tolerance).onsetLatencies;
      && |latencies| == |expected|
      && forall i :: 0 <= i < |expected| ==>
           && choice[i].Some? && choice[i].value < |events|
           && Observed(expected, latencies)[i] == events[choice[i].value].sample
           && 0 <= latencies[i] <= Max0(tolerance)
  {
    var events, n := InTime(observed), |expected|;
    var choice := Greedy(expected, events, tolerance, n);
    MatchingIsCounted(expected, observed, tolerance);
    GreedyIsMatchingTo(expected, events, tolerance, n);
    assert expected[..n] == expected;
    LatenciesOfMatching(expected, events, tolerance, choice, ReportOf(expected, observed, tolerance).onsetLatencies);
  }

  lemma LargestIsShifted(s: seq<int>, shifted: seq<int>, base: int)
    requires |s| == |shifted| > 0 && forall i :: 0 <= i < |s| ==> shifted[i] == base + s[i]
    ensures Largest(shifted) == base + Largest(s)
  {
    LargestIsReached(s);
    LargestIsReached(shifted);
    var i :| 0 <= i < |s| && shifted[i] == Largest(shifted);
    var j :| 0 <= j < |s| && s[j] == Largest(s);
    assert shifted[j] == base + s[j] && shifted[i] == base + s[i];
  }

  lemma SumsOfEqualOnsets(notes: seq<Expected>, latencies: seq<int>, onset: int)
    requires |notes| == |latencies| > 0 && forall i :: 0 <= i < |notes| ==> notes[i].onset == onset
    ensures Largest(Observed(notes, latencies)) - EarliestOnset(notes) == Largest(latencies)
  {
    EarliestOnsetIsReached(notes);
    LargestIsShifted(latencies, Observed(notes, latencies), onset);
  }

  lemma ChordOfDefaultNotes(c: Case, report: Report)
    requires c.expectedEvents == [] && Chord(c, report) && |report.onsetLatencies| == |NotesOf(c)|
    ensures report.onsetLatencies != [] && ChordOf(c, report) == Some([Largest(report.onsetLatencies)])
  {
    var notes, latencies := NotesOf(c), report.onsetLatencies;
    assert |notes| == |Distinct(c.notes)| > 1;
    SumsOfEqualOnsets(notes, latencies, c.onset);
    assert ChordOf(c, report) == Some([Largest(Observed(notes, latencies)) - EarliestOnset(notes)]);
  }

  /** A case without listed events never fails or counts more matches than notes, and completes its chord in its window. */
  lemma DefaultNotesScore(c: Case, events: seq<Event>)
    requires c.expectedEvents == []
    ensures var report := CaseReport(c, events); var chord := ChordOf(c, report);
      && report.matched <= |Distinct(c.notes)|
      && (Chord(c, report) ==>
            && report.onsetLatencies != [] && chord == Some([Largest(report.onsetLatencies)])
            && 0 <= Largest(report.onsetLatencies) <= Max0(c.timeout))
      && (!Chord(c, report) ==> chord == Some([]))
  {
    var report := CaseReport(c, events);
    if Chord(c, report) {
      ChordOfDefaultNotes(c, report);
      LargestIsReached(report.onsetLatencies);
      ObservedAreTheTakenInstants(NotesOf(c), EventsOf(events, c.caseId), c.timeout);
    }
  }

  // ---------------------------------------------------------------- what a case can lead to

  /** The expected notes of a case that carry its number. */
  function OwnNotes(c: Case): nat {
    Own(c.expectedEvents, c.caseId, |c.expectedEvents|)
  }

  lemma {:induction false} DefaultNotesAreOwn(c: Case, k: nat)
    requires c.expectedEvents == [] && k <= |NotesOf(c)|
    ensures Own(NotesOf(c), c.caseId, k) == k
    decreases k
  {
    hide Distinct;
    if k > 0 {
      DefaultNotesAreOwn(c, k - 1);
    }
  }

  lemma {:induction false} SelectedAreOwn(events: seq<Event>, id: int)
    ensures forall e :: e in EventsOf(events, id) ==> e.caseId == id
    decreases |events|
  {
    if events != [] {
      SelectedAreOwn(events[..|events| - 1], id);
    }
  }

  lemma {:induction false} OwnAreSelected(events: seq<Event>, id: int)
    requires forall e :: e in events ==> e.caseId == id
    ensures EventsOf(events, id) == events
    decreases |events|
  {
    if events != [] {
      var n := |events| - 1;
      assert events == events[..n] + [events[n]];
      OwnAreSelected(events[..n], id);
    }
  }

  /** The numbers of matches that a case can report are those up to its own expected notes. */
  lemma CaseCanMatch(c: Case, count: nat)
    ensures (exists events :: CaseReport(c, events).matched == count) <==>
      count <= if c.expectedEvents == [] then |Distinct(c.notes)| else OwnNotes(c)
  {
    var notes, id := NotesOf(c), c.caseId;
    if c.expectedEvents == [] {
      DefaultNotesAreOwn(c, |notes|);
    }
    MatchCountsAreUpToOwn(notes, c.timeout, id, count);
    if observed: seq<Event> :|
      (forall e :: e in observed ==> e.caseId == id) && ReportOf(notes, observed, c.timeout).matched == count
    {
      OwnAreSelected(observed, id);
      assert CaseReport(c, observed).matched == count;
    }
    forall events | CaseReport(c, events).matched == count
      ensures count <= Own(notes, id, |notes|)
    {
      SelectedAreOwn(events, id);
      MatchedAtMostOwn(notes, EventsOf(events, id), c.timeout, id);
    }
  }

  /** Some observations make the misses of a case negative exactly when it lists more own notes than it has distinct ones. */
  lemma MissesCanBeNegative(c: Case)
    ensures (exists events :: CaseReport(c, events).matched > |Distinct(c.notes)|) <==>
      OwnNotes(c) > |Distinct(c.notes)|
  {
    CaseCanMatch(c, OwnNotes(c));
    forall events | CaseReport(c, events).matched > |Distinct(c.notes)|
      ensures OwnNotes(c) > |Distinct(c.notes)|
    {
      CaseCanMatch(c, CaseReport(c, events).matched);
    }
    if OwnNotes(c) > |Distinct(c.notes)| {
      assert c.expectedEvents != [];
      var events :| CaseReport(c, events).matched == OwnNotes(c);
    }
  }

  /** Several distinct notes, at least as many own notes listed, and another number listed in all. */
  predicate Uneven(c: Case) {
    1 < |Distinct(c.notes)| <= OwnNotes(c) && |c.expectedEvents| != |Distinct(c.notes)|
  }

  lemma CanBeMispaired(c: Case)
    ensures (exists events :: Mispaired(c, CaseReport(c, events))) <==> Uneven(c)
  {
    CaseCanMatch(c, |Distinct(c.notes)|);
    if Uneven(c) {
      var events :| CaseReport(c, events).matched == |Distinct(c.notes)|;
      assert Mispaired(c, CaseReport(c, events));
    }
  }

  /** Some observations make `summarize` raise exactly when some case is uneven. */
  lemma RaisesExactlyForUnevenCases(cases: seq<Case>)
    ensures (exists events :: Summary(cases, events).None?) <==> exists k :: 0 <= k < |cases| && Uneven(cases[k])
  {
    hide Summary, CaseReport, Mispaired, Uneven;
    forall events | Summary(cases, events).None?
      ensures exists k :: 0 <= k < |cases| && Uneven(cases[k])
    {
      FailsExactlyWhenMispaired(cases, events);
      var k :| 0 <= k < |cases| && Mispaired(cases[k], CaseReport(cases[k], events));
      CanBeMispaired(cases[k]);
    }
    if k :| 0 <= k < |cases| && Uneven(cases[k]) {
      CanBeMispaired(cases[k]);
      var events :| Mispaired(cases[k], CaseReport(cases[k], events));
      FailsExactlyWhenMispaired(cases, events);
    }
  }

  lemma OneNote(note: int)
    ensures Distinct([note]) == [note]
  {
    assert [note][..0] == [] && Distinct([note][..0]) == [];
  }

  lemma TwoNotes(a: int, b: int)
    requires a < b
    ensures Distinct([a, b]) == [a, b]
  {
    assert [a, b][..1] == [a];
    OneNote(a);
    var rest: seq<int> := [a][1..];
    assert rest == [] && Add(rest, b) == [b] && Add([a], b) == [a] + Add(rest, b);
  }

  /** A case whose listed events are played at their onsets matches them all. */
  lemma ListedArePlayed(c: Case, p: nat)
    requires c.expectedEvents != [] && p <= |c.expectedEvents|
    ensures CaseReport(c, Arrivals(c.expectedEvents, c.caseId, p)).matched == Own(c.expectedEvents, c.caseId, p)
  {
    ArrivalsMatch(c.expectedEvents, c.timeout, c.caseId, p);
    OwnAreSelected(Arrivals(c.expectedEvents, c.caseId, p), c.caseId);
  }

  /** The arrivals and the number of own notes of a short list. */
  lemma FirstTwo(notes: seq<Expected>, id: int)
    requires |notes| >= 2 && notes[0].caseId == notes[1].caseId == id
    ensures Arrivals(notes, id, 2) == [Arrival(notes[0]), Arrival(notes[1])] && Own(notes, id, 2) == 2
  {
    assert Arrivals(notes, id, 0) == [] && Arrivals(notes, id, 1) == [Arrival(notes[0])];
    assert Own(notes, id, 0) == 0 && Own(notes, id, 1) == 1;
  }

  /** One note that is listed and played twice has one match more than it has notes. */
  lemma ListedNotesCanOutnumber()
    ensures var c := Case(1, [60], 0, 10, 5, [Expected(1, 60, 0, 10), Expected(1, 60, 100, 110)]);
      CaseReport(c, [Event(1, 0, 0x90, 1, 60), Event(1, 100, 0x90, 1, 60)]).matched > |Distinct(c.notes)|
  {
    var c := Case(1, [60], 0, 10, 5, [Expected(1, 60, 0, 10), Expected(1, 60, 100, 110)]);
    ListedArePlayed(c, 2);
    FirstTwo(c.expectedEvents, 1);
    OneNote(60);
  }

  /** A chord of two notes that lists a third event: played as a chord, it makes `summarize` raise. */
  lemma ExtraEventRaises()
    ensures var listed := [Expected(1, 60, 0, 10), Expected(1, 64, 0, 10), Expected(1, 60, 100, 110)];
      var c := Case(1, [60, 64], 0, 10, 5, listed);
      Summary([c], [Event(1, 0, 0x90, 1, 60), Event(1, 0, 0x90, 1, 64)]).None?
  {
    var listed := [Expected(1, 60, 0, 10), Expected(1, 64, 0, 10), Expected(1, 60, 100, 110)];
    var c := Case(1, [60, 64], 0, 10, 5, listed);
    var events := [Event(1, 0, 0x90, 1, 60), Event(1, 0, 0x90, 1, 64)];
    ListedArePlayed(c, 2);
    FirstTwo(listed, 1);
    TwoNotes(60, 64);
    assert Mispaired(c, CaseReport(c, events));
    FailsExactlyWhenMispaired([c], events);
    assert [c][0] == c;
  }
}
