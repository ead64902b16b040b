/** The summary of whole tracks: simultaneous same-pitch notes of two strings, and the polyphony. */
module GuitarsetSummary {
  import opened Results
  import opened Polyphony
  import opened StringOverlaps

  /** The note rows of one string of a track. */
  datatype Rows = Rows(stringIndex: nat, notes: seq<Note>)

  type Track = seq<Rows>

  /** A pair of strings, or None for all pairs together. */
  type Key = Option<(nat, nat)>

  datatype Report = Report(pairs: map<(nat, nat), nat>, seconds: real, polyphony: nat)

  function NotesOf(track: Track): seq<Note> {
    if track == [] then [] else NotesOf(track[..|track| - 1]) + track[|track| - 1].notes
  }

  predicate ProperTracks(tracks: seq<Track>) {
    forall i :: 0 <= i < |tracks| ==> Proper(NotesOf(tracks[i]))
  }

  predicate Selects(key: Key, a: Rows, b: Rows) {
    key.Some? ==> key.value == (a.stringIndex, b.stringIndex)
  }

  /** What the loop finds for two strings, if the key selects them. */
  function Selected(a: Rows, b: Rows, key: Key): Tally {
    if Selects(key, a, b) then TwoCursors(ByStart(a.notes), ByStart(b.notes)) else NONE
  }

  /** String a against the strings after it, up to b. */
  function AgainstLater(track: Track, a: nat, b: nat, key: Key): Tally
    requires a < b <= |track|
  {
    if b == a + 1 then NONE
    else Plus(AgainstLater(track, a, b - 1, key), Selected(track[a], track[b - 1], key))
  }

  /** The strings before a, each against all strings after it. */
  function TrackTally(track: Track, a: nat, key: Key): Tally
    requires a <= |track|
  {
    if a == 0 then NONE
    else Plus(TrackTally(track, a - 1, key), AgainstLater(track, a - 1, |track|, key))
  }

  function Total(tracks: seq<Track>, k: nat, key: Key): Tally
    requires k <= |tracks|
  {
    if k == 0 then NONE
    else Plus(Total(tracks, k - 1, key), TrackTally(tracks[k - 1], |tracks[k - 1]|, key))
  }

  function At(pairs: map<(nat, nat), nat>, strings: (nat, nat)): nat {
    if strings in pairs then pairs[strings] else 0
  }

  /** No string of the track has own notes that overlap by more than the limit. */
  predicate SeparateTrack(track: Track) {
    forall i :: 0 <= i < |track| ==> Separate(track[i].notes)
  }

  function AllSelected(a: Rows, b: Rows, key: Key): Tally {
    if Selects(key, a, b) then AllPairs(a.notes, b.notes) else NONE
  }

  lemma SelectedIsExact(a: Rows, b: Rows, key: Key)
    requires Separate(a.notes) && Separate(b.notes) && Proper(b.notes)
    ensures Selected(a, b, key) == AllSelected(a, b, key)
  {
    CursorsAreExactWhenSeparate(a.notes);
  }

  /** The all-pairs definition of what the key selects in a track. */
  function AllOfLater(track: Track, a: nat, b: nat, key: Key): Tally
    requires a < b <= |track|
  {
    if b == a + 1 then NONE
    else Plus(AllOfLater(track, a, b - 1, key), AllSelected(track[a], track[b - 1], key))
  }

  function AllOfTrack(track: Track, a: nat, key: Key): Tally
    requires a <= |track|
  {
    if a == 0 then NONE
    else Plus(AllOfTrack(track, a - 1, key), AllOfLater(track, a - 1, |track|, key))
  }

  function AllOf(tracks: seq<Track>, k: nat, key: Key): Tally
    requires k <= |tracks|
  {
    if k == 0 then NONE
    else Plus(AllOf(tracks, k - 1, key), AllOfTrack(tracks[k - 1], |tracks[k - 1]|, key))
  }

  lemma {:induction false} ProperRows(track: Track, i: nat)
    requires i < |track| && Proper(NotesOf(track))
    ensures Proper(track[i].notes)
    decreases |track|
  {
    var init, last := track[..|track| - 1], track[|track| - 1].notes;
    var notes := NotesOf(track);
    assert forall j :: 0 <= j < |NotesOf(init)| ==> notes[j] == NotesOf(init)[j];
    assert forall j :: 0 <= j < |last| ==> notes[|NotesOf(init)| + j] == last[j];
    if i < |track| - 1 {
      ProperRows(init, i);
    }
  }

  /** The strings of a track are proper and separate one by one. */
  predicate Fine(track: Track) {
    forall i :: 0 <= i < |track| ==> Proper(track[i].notes) && Separate(track[i].notes)
  }

  lemma {:induction false} LaterTallyIsExact(track: Track, a: nat, b: nat, key: Key)
    requires a < b <= |track| && Fine(track)
    ensures AgainstLater(track, a, b, key) == AllOfLater(track, a, b, key)
    decreases b
  {
    if b > a + 1 {
      LaterTallyIsExact(track, a, b - 1, key);
      SelectedIsExact(track[a], track[b - 1], key);
    }
  }

  lemma {:induction false} TrackTallyIsExact(track: Track, a: nat, key: Key)
    requires a <= |track| && Fine(track)
    ensures TrackTally(track, a, key) == AllOfTrack(track, a, key)
    decreases a
  {
    hide AgainstLater, AllOfLater, Separate, Proper;
    if a > 0 {
      TrackTallyIsExact(track, a - 1, key);
      LaterTallyIsExact(track, a - 1, |track|, key);
    }
  }

  /** With separate strings the totals are those of the all-pairs definition, for every pair of strings. */
  lemma {:induction false} TotalIsExact(tracks: seq<Track>, k: nat, key: Key)
    requires k <= |tracks| && ProperTracks(tracks)
    requires forall i :: 0 <= i < |tracks| ==> SeparateTrack(tracks[i])
    ensures Total(tracks, k, key) == AllOf(tracks, k, key)
    decreases k
  {
    if k > 0 {
      TotalIsExact(tracks, k - 1, key);
      var track := tracks[k - 1];
      forall i | 0 <= i < |track|
        ensures Proper(track[i].notes)
      {
        ProperRows(track, i);
      }
      TrackTallyIsExact(tracks[k - 1], |tracks[k - 1]|, key);
    }
  }

  // ---------------------------------------------------------------- one pair of strings

  /** Every string has one annotation. */
  predicate DistinctStrings(track: Track) {
    forall i, j :: 0 <= i < j < |track| ==> track[i].stringIndex != track[j].stringIndex
  }

  lemma LaterNext(track: Track, a: nat, b: nat, key: Key)
    requires a + 1 < b <= |track|
    ensures AllOfLater(track, a, b, key)
      == Plus(AllOfLater(track, a, b - 1, key), AllSelected(track[a], track[b - 1], key))
  {
    hide AllSelected, Plus;
  }

  lemma TrackNext(track: Track, n: nat, key: Key)
    requires 0 < n <= |track|
    ensures AllOfTrack(track, n, key) == Plus(AllOfTrack(track, n - 1, key), AllOfLater(track, n - 1, |track|, key))
  {
    hide AllOfLater, Plus;
  }

  lemma NoneAddsNothing(t: Tally)
    ensures Plus(t, NONE) == t && Plus(NONE, t) == t
  {
  }

  lemma {:induction false} NothingLater(track: Track, a: nat, b: nat, key: Key)
    requires a < b <= |track|
    requires forall c :: a < c < b ==> !Selects(key, track[a], track[c])
    ensures AllOfLater(track, a, b, key) == NONE
    decreases b
  {
    hide Selects, Plus, AllPairs;
    if b > a + 1 {
      LaterNext(track, a, b, key);
      hide AllOfLater;
      NothingLater(track, a, b - 1, key);
      NoneAddsNothing(NONE);
    }
  }

  lemma {:induction false} OneLater(track: Track, a: nat, b: nat, key: Key, c: nat)
    requires a < c < b <= |track| && Selects(key, track[a], track[c])
    requires forall d :: a < d < b && d != c ==> !Selects(key, track[a], track[d])
    ensures AllOfLater(track, a, b, key) == AllPairs(track[a].notes, track[c].notes)
    decreases b
  {
    hide Selects, Plus, AllPairs, AllOfLater;
    LaterNext(track, a, b, key);
    NoneAddsNothing(AllPairs(track[a].notes, track[c].notes));
    if c == b - 1 {
      NothingLater(track, a, b - 1, key);
    } else {
      OneLater(track, a, b - 1, key, c);
    }
  }

  /** The key selects no two strings of which the first is one of the first n. */
  predicate SelectsNone(track: Track, n: nat, key: Key)
    requires n <= |track|
  {
    forall a, b :: 0 <= a < n && a < b < |track| ==> !Selects(key, track[a], track[b])
  }

  lemma {:induction false} NothingInTrack(track: Track, n: nat, key: Key)
    requires n <= |track| && SelectsNone(track, n, key)
    ensures AllOfTrack(track, n, key) == NONE
    decreases n
  {
    hide Selects, Plus, AllOfLater;
    if n > 0 {
      TrackNext(track, n, key);
      hide AllOfTrack;
      NothingInTrack(track, n - 1, key);
      NothingLater(track, n - 1, |track|, key);
      NoneAddsNothing(NONE);
    }
  }

  lemma {:induction false} OneInTrack(track: Track, n: nat, key: Key, a: nat, b: nat)
    requires a < n <= |track| && a < b < |track| && Selects(key, track[a], track[b])
    requires forall c, d :: 0 <= c < n && c < d < |track| && !(c == a && d == b) ==> !Selects(key, track[c], track[d])
    ensures AllOfTrack(track, n, key) == AllPairs(track[a].notes, track[b].notes)
    decreases n
  {
    hide Selects, Plus, AllOfLater, AllOfTrack, AllPairs;
    TrackNext(track, n, key);
    NoneAddsNothing(AllPairs(track[a].notes, track[b].notes));
    if a == n - 1 {
      NothingInTrack(track, n - 1, key);
      OneLater(track, a, |track|, key, b);
    } else {
      OneInTrack(track, n - 1, key, a, b);
      NothingLater(track, n - 1, |track|, key);
    }
  }

  /**
   * A track is counted under the strings of its annotations, the earlier one first: as many pairs as
   * there are pairs of their notes of equal pitch that overlap by more than the limit.
   */
  lemma PairsOfStrings(track: Track, a: nat, b: nat)
    requires DistinctStrings(track) && a < b < |track|
    ensures var strings := (track[a].stringIndex, track[b].stringIndex);
      AllOfTrack(track, |track|, Some(strings)).pairs == |FoundPairs(track[a].notes, track[b].notes)|
  {
    OneInTrack(track, |track|, Some((track[a].stringIndex, track[b].stringIndex)), a, b);
    PairsAreCounted(track[a].notes, track[b].notes);
  }

  lemma NoOtherStrings(track: Track, strings: (nat, nat))
    requires forall a, b :: 0 <= a < b < |track| ==> strings != (track[a].stringIndex, track[b].stringIndex)
    ensures AllOfTrack(track, |track|, Some(strings)) == NONE
  {
    NothingInTrack(track, |track|, Some(strings));
  }

  // ---------------------------------------------------------------- the loops

  /** All notes of a track, unless one of them has no length. */
  method Collect(track: Track) returns (notes: Option<seq<Note>>)
    ensures notes == if Proper(NotesOf(track)) then Some(NotesOf(track)) else None
  {
    var all: seq<Note> := [];
    for i := 0 to |track|
      invariant all == NotesOf(track[..i]) && Proper(all)
    {
      assert track[..i + 1][..i] == track[..i];
      for j := 0 to |track[i].notes|
        invariant all == NotesOf(track[..i]) + track[i].notes[..j] && Proper(all)
      {
        if track[i].notes[j].duration <= 0.0 {
          ghost var bad := track[i].notes;
          assert bad[j].duration <= 0.0;
          if Proper(NotesOf(track)) {
            ProperRows(track, i);
            assert false;
          }
          return None;
        }
        all := all + [track[i].notes[j]];
      }
    }
    assert track[..|track|] == track;
    return Some(all);
  }

  method CountTrack(track: Track, pairs: map<(nat, nat), nat>, seconds: real)
    returns (pairs': map<(nat, nat), nat>, seconds': real)
    ensures forall strings :: At(pairs', strings) == At(pairs, strings) + TrackTally(track, |track|, Some(strings)).pairs
    ensures seconds' == seconds + TrackTally(track, |track|, None).seconds
  {
    pairs', seconds' := pairs, seconds;
    for a := 0 to |track|
      invariant forall strings :: At(pairs', strings) == At(pairs, strings) + TrackTally(track, a, Some(strings)).pairs
      invariant seconds' == seconds + TrackTally(track, a, None).seconds
    {
      var counted, length := CountLater(track, a, pairs', seconds');
      pairs', seconds' := counted, length;
    }
  }

  method CountPair(a: Rows, b: Rows, pairs: map<(nat, nat), nat>, seconds: real)
    returns (pairs': map<(nat, nat), nat>, seconds': real)
    ensures forall strings :: At(pairs', strings) == At(pairs, strings) + Selected(a, b, Some(strings)).pairs
    ensures seconds' == seconds + Selected(a, b, None).seconds
  {
    var tally := CountOverlaps(a.notes, b.notes);
    var strings := (a.stringIndex, b.stringIndex);
    pairs', seconds' := pairs, seconds + tally.seconds;
    if tally.pairs > 0 {
      pairs' := pairs[strings := At(pairs, strings) + tally.pairs];
    }
  }

  method CountLater(track: Track, a: nat, pairs: map<(nat, nat), nat>, seconds: real)
    returns (pairs': map<(nat, nat), nat>, seconds': real)
    requires a < |track|
    ensures forall strings ::
      At(pairs', strings) == At(pairs, strings) + AgainstLater(track, a, |track|, Some(strings)).pairs
    ensures seconds' == seconds + AgainstLater(track, a, |track|, None).seconds
  {
    pairs', seconds' := pairs, seconds;
    for b := a + 1 to |track|
      invariant forall strings ::
        At(pairs', strings) == At(pairs, strings) + AgainstLater(track, a, b, Some(strings)).pairs
      invariant seconds' == seconds + AgainstLater(track, a, b, None).seconds
    {
      pairs', seconds' := CountPair(track[a], track[b], pairs', seconds');
    }
  }

  /** The report gains what the track holds. */
  ghost predicate Gains(before: Report, track: Track, after: Report) {
    && (forall strings ::
          At(after.pairs, strings) == At(before.pairs, strings) + TrackTally(track, |track|, Some(strings)).pairs)
    && after.seconds == before.seconds + TrackTally(track, |track|, None).seconds
    && after.polyphony >= before.polyphony
    && (forall t :: Covering(NotesOf(track), t) <= after.polyphony)
    && (after.polyphony == before.polyphony || exists t :: Covering(NotesOf(track), t) == after.polyphony)
  }

  method AddTrack(before: Report, track: Track) returns (after: Option<Report>)
    ensures after.Some? <==> Proper(NotesOf(track))
    ensures after.Some? ==> Gains(before, track, after.value)
  {
    var notes := Collect(track);
    if notes.None? {
      return None;
    }
    var pairs, seconds := CountTrack(track, before.pairs, before.seconds);
    var peak := Sweep(notes.value);
    after := Some(Report(pairs, seconds, if peak > before.polyphony then peak else before.polyphony));
  }

  /** The report of the first k tracks. */
  ghost predicate Sums(tracks: seq<Track>, k: nat, r: Report)
    requires k <= |tracks|
  {
    && (forall strings :: At(r.pairs, strings) == Total(tracks, k, Some(strings)).pairs)
    && r.seconds == Total(tracks, k, None).seconds
    && (forall i, t :: 0 <= i < k ==> Covering(NotesOf(tracks[i]), t) <= r.polyphony)
    && (r.polyphony == 0 || exists i, t :: 0 <= i < k && Covering(NotesOf(tracks[i]), t) == r.polyphony)
  }

  lemma SumsGrow(tracks: seq<Track>, k: nat, before: Report, after: Report)
    requires k < |tracks| && Sums(tracks, k, before) && Gains(before, tracks[k], after)
    ensures Sums(tracks, k + 1, after)
  {
  }

  /** The overlap and polyphony parts of `summarize`: None stands for an invalid note interval. */
  method Summarize(tracks: seq<Track>) returns (r: Option<Report>)
    ensures r.Some? <==> ProperTracks(tracks)
    ensures r.Some? ==> Sums(tracks, |tracks|, r.value)
  {
    r := Some(Report(map[], 0.0, 0));
    var k := 0;
    while k < |tracks| && r.Some?
      invariant 0 <= k <= |tracks|
      invariant r.Some? <==> ProperTracks(tracks[..k])
      invariant r.Some? ==> Sums(tracks, k, r.value)
    {
      ghost var before := r.value;
      r := AddTrack(r.value, tracks[k]);
      if r.Some? {
        SumsGrow(tracks, k, before, r.value);
      }
      k := k + 1;
    }
    assert forall i :: 0 <= i < k ==> tracks[..k][i] == tracks[i];
  }
}
