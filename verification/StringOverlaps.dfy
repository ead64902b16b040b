/** The two-cursor search for notes of one pitch that sound on two strings at once. */
module StringOverlaps {
  import opened Polyphony

  const LIMIT := 0.020

  function Min(a: real, b: real): real {
    if b < a then b else a
  }

  function Max(a: real, b: real): real {
    if b > a then b else a
  }

  function Overlap(a: Note, b: Note): real {
    Min(End(a), End(b)) - Max(a.start, b.start)
  }

  /** Pairs found and the seconds they overlap. */
  datatype Tally = Tally(pairs: nat, seconds: real)

  const NONE := Tally(0, 0.0)

  function Plus(a: Tally, b: Tally): Tally {
    Tally(a.pairs + b.pairs, a.seconds + b.seconds)
  }

  lemma Regroup(a: Tally, b: Tally, c: Tally, d: Tally)
    ensures Plus(Plus(a, b), Plus(c, d)) == Plus(Plus(a, c), Plus(b, d))
    ensures Plus(a, Plus(b, c)) == Plus(Plus(a, b), c)
    ensures Plus(a, b) == Plus(b, a)
    ensures Plus(a, NONE) == a
  {
  }

  predicate Found(a: Note, b: Note) {
    Overlap(a, b) > LIMIT && a.pitch == b.pitch
  }

  function Pair(a: Note, b: Note): Tally {
    if Found(a, b) then Tally(1, Overlap(a, b)) else NONE
  }

  /** Two notes of one pitch that share more than 0.020 seconds. */
  lemma FoundMeans(a: Note, b: Note)
    ensures Found(a, b) <==>
      && a.pitch == b.pitch && a.duration > 0.020 && b.duration > 0.020
      && a.start + a.duration - b.start > 0.020 && b.start + b.duration - a.start > 0.020
  {
  }

  // ---------------------------------------------------------------- sorting a string by start

  predicate Sorted(s: seq<Note>) {
    forall i, j :: 0 <= i < j < |s| ==> s[i].start <= s[j].start
  }

  function Insert(s: seq<Note>, x: Note): (r: seq<Note>)
    requires Sorted(s)
    ensures Sorted(r) && |r| == |s| + 1 && r[0] == if s == [] || x.start < s[0].start then x else s[0]
  {
    if s == [] || x.start < s[0].start then [x] + s else [s[0]] + Insert(s[1..], x)
  }

  /** `sorted(rows, key=time)`. */
  function ByStart(rows: seq<Note>): (r: seq<Note>)
    ensures Sorted(r) && |r| == |rows|
  {
    if rows == [] then [] else Insert(ByStart(rows[..|rows| - 1]), rows[|rows| - 1])
  }

  // ---------------------------------------------------------------- all pairs

  function RowPairs(a: Note, right: seq<Note>): Tally {
    if right == [] then NONE else Plus(Pair(a, right[0]), RowPairs(a, right[1..]))
  }

  function ColumnPairs(left: seq<Note>, b: Note): Tally {
    if left == [] then NONE else Plus(Pair(left[0], b), ColumnPairs(left[1..], b))
  }

  /** Every note of the left string against every note of the right one. */
  function AllPairs(left: seq<Note>, right: seq<Note>): Tally {
    if left == [] then NONE else Plus(RowPairs(left[0], right), AllPairs(left[1..], right))
  }

  /** Which notes of the right string are found with a, and which pairs of positions are found. */
  ghost function Partners(a: Note, right: seq<Note>): set<nat> {
    set j: nat | j < |right| && Found(a, right[j])
  }

  ghost function FoundPairs(left: seq<Note>, right: seq<Note>): set<(nat, nat)> {
    set i: nat, j: nat | i < |left| && j < |right| && Found(left[i], right[j]) :: (i, j)
  }

  lemma {:induction false} RowCountsPartners(a: Note, right: seq<Note>)
    ensures RowPairs(a, right).pairs == |Partners(a, right)|
    decreases |right|
  {
    hide Found;
    if right != [] {
      var rest := right[1..];
      RowCountsPartners(a, rest);
      var shifted := set j: nat | j in Partners(a, rest) :: j + 1;
      ShiftKeepsSize(Partners(a, rest), shifted);
      assert Partners(a, right) == shifted + if Found(a, right[0]) then {0} else {} by {
        forall j: nat
          ensures j in Partners(a, right) <==> j in shifted || (j == 0 && Found(a, right[0]))
        {
          if 0 < j < |right| {
            assert right[j] == rest[j - 1];
            assert j - 1 in Partners(a, rest) <==> Found(a, right[j]);
          }
        }
      }
    }
  }

  lemma {:induction false} ShiftKeepsSize(s: set<nat>, shifted: set<nat>)
    requires forall j: nat :: j in shifted <==> j > 0 && j - 1 in s
    ensures |shifted| == |s|
    decreases s
  {
    if s == {} {
      assert shifted == {};
    } else {
      var j :| j in s;
      assert j + 1 in shifted;
      ShiftKeepsSize(s - {j}, shifted - {j + 1});
    }
  }

  lemma {:induction false} FirstKeepsSize(s: set<nat>, firsts: set<(nat, nat)>)
    requires forall p: (nat, nat) :: p in firsts <==> p.0 == 0 && p.1 in s
    ensures |firsts| == |s|
    decreases s
  {
    if s == {} {
      assert firsts == {};
    } else {
      var j :| j in s;
      assert (0, j) in firsts;
      FirstKeepsSize(s - {j}, firsts - {(0, j)});
    }
  }

  lemma {:induction false} LaterKeepsSize(s: set<(nat, nat)>, laters: set<(nat, nat)>)
    requires forall p: (nat, nat) :: p in laters <==> p.0 > 0 && (p.0 - 1, p.1) in s
    ensures |laters| == |s|
    decreases s
  {
    if s == {} {
      assert laters == {};
    } else {
      var p :| p in s;
      assert (p.0 + 1, p.1) in laters;
      LaterKeepsSize(s - {p}, laters - {(p.0 + 1, p.1)});
    }
  }

  lemma FirstsAndLatersAreAll(all: set<(nat, nat)>, s: set<nat>, t: set<(nat, nat)>)
    requires forall p: (nat, nat) ::
      p in all <==> (p.0 == 0 && p.1 in s) || (p.0 > 0 && (p.0 - 1, p.1) in t)
    ensures |all| == |s| + |t|
  {
    var firsts: set<(nat, nat)> := set p | p in all && p.0 == 0;
    var laters: set<(nat, nat)> := set p | p in all && p.0 > 0;
    FirstKeepsSize(s, firsts);
    LaterKeepsSize(t, laters);
    assert all == firsts + laters && firsts * laters == {};
  }

  /** The pairs of the definition are the pairs of positions whose notes are found together. */
  lemma {:induction false} PairsAreCounted(left: seq<Note>, right: seq<Note>)
    ensures AllPairs(left, right).pairs == |FoundPairs(left, right)|
    decreases |left|
  {
    hide Found, RowPairs, Pair;
    if left == [] {
      assert FoundPairs(left, right) == {};
    } else {
      var rest := left[1..];
      RowCountsPartners(left[0], right);
      PairsAreCounted(rest, right);
      hide Partners, FoundPairs;
      forall p: (nat, nat)
        ensures p in FoundPairs(left, right) <==>
          (p.0 == 0 && p.1 in Partners(left[0], right)) || (p.0 > 0 && (p.0 - 1, p.1) in FoundPairs(rest, right))
      {
        PairIsFirstOrLater(left, right, p.0, p.1);
      }
      FirstsAndLatersAreAll(FoundPairs(left, right), Partners(left[0], right), FoundPairs(rest, right));
    }
  }

  lemma PairIsFirstOrLater(left: seq<Note>, right: seq<Note>, i: nat, j: nat)
    requires left != []
    ensures (i, j) in FoundPairs(left, right) <==>
      if i == 0 then j in Partners(left[0], right) else (i - 1, j) in FoundPairs(left[1..], right)
  {
  }

  lemma {:induction false} AllPairsByColumn(left: seq<Note>, right: seq<Note>)
    requires right != []
    ensures AllPairs(left, right) == Plus(ColumnPairs(left, right[0]), AllPairs(left, right[1..]))
    decreases |left|
  {
    hide Pair, Plus;
    if left == [] {
      NothingPairs(left, right, right[0]);
      NothingPairs(left, right[1..], right[0]);
      Regroup(NONE, NONE, NONE, NONE);
    } else {
      AllPairsByColumn(left[1..], right);
      OneMoreRow(left, right, right[0]);
      OneMoreRow(left, right[1..], right[0]);
      assert RowPairs(left[0], right) == Plus(Pair(left[0], right[0]), RowPairs(left[0], right[1..]));
      Regroup(
        Pair(left[0], right[0]), RowPairs(left[0], right[1..]),
        ColumnPairs(left[1..], right[0]), AllPairs(left[1..], right[1..]));
    }
  }

  lemma NothingPairs(left: seq<Note>, right: seq<Note>, b: Note)
    requires left == []
    ensures AllPairs(left, right) == NONE && ColumnPairs(left, b) == NONE
  {
  }

  lemma OneMoreRow(left: seq<Note>, right: seq<Note>, b: Note)
    requires left != []
    ensures AllPairs(left, right) == Plus(RowPairs(left[0], right), AllPairs(left[1..], right))
    ensures ColumnPairs(left, b) == Plus(Pair(left[0], b), ColumnPairs(left[1..], b))
  {
  }

  lemma {:induction false} AllPairsOfNothing(left: seq<Note>)
    ensures AllPairs(left, []) == NONE
    decreases |left|
  {
    hide Pair, Plus;
    if left != [] {
      AllPairsOfNothing(left[1..]);
      OneMoreRow(left, [], left[0]);
      assert RowPairs(left[0], []) == NONE;
      Regroup(NONE, NONE, NONE, NONE);
    }
  }

  lemma {:induction false} RowPairsAfterInsert(a: Note, s: seq<Note>, x: Note)
    requires Sorted(s)
    ensures RowPairs(a, Insert(s, x)) == Plus(RowPairs(a, s), Pair(a, x))
    decreases |s|
  {
    hide Pair;
    if s == [] || x.start < s[0].start {
      assert ([x] + s)[1..] == s;
    } else {
      RowPairsAfterInsert(a, s[1..], x);
      Regroup(Pair(a, s[0]), RowPairs(a, s[1..]), Pair(a, x), NONE);
      assert ([s[0]] + Insert(s[1..], x))[1..] == Insert(s[1..], x);
    }
  }

  lemma {:induction false} RowPairsAfterAppend(a: Note, s: seq<Note>, x: Note)
    ensures RowPairs(a, s + [x]) == Plus(RowPairs(a, s), Pair(a, x))
    decreases |s|
  {
    hide Pair;
    if s == [] {
      assert s + [x] == [x] && [x][1..] == [];
    } else {
      assert (s + [x])[1..] == s[1..] + [x];
      RowPairsAfterAppend(a, s[1..], x);
      Regroup(Pair(a, s[0]), RowPairs(a, s[1..]), Pair(a, x), NONE);
    }
  }

  lemma {:induction false} AllPairsAfterInsert(s: seq<Note>, x: Note, right: seq<Note>)
    requires Sorted(s)
    ensures AllPairs(Insert(s, x), right) == Plus(AllPairs(s, right), RowPairs(x, right))
    decreases |s|
  {
    hide RowPairs, Pair;
    if s == [] || x.start < s[0].start {
      assert ([x] + s)[1..] == s;
    } else {
      AllPairsAfterInsert(s[1..], x, right);
      Regroup(RowPairs(s[0], right), AllPairs(s[1..], right), RowPairs(x, right), NONE);
      assert ([s[0]] + Insert(s[1..], x))[1..] == Insert(s[1..], x);
    }
  }

  lemma {:induction false} AllPairsAfterAppend(s: seq<Note>, x: Note, right: seq<Note>)
    ensures AllPairs(s + [x], right) == Plus(AllPairs(s, right), RowPairs(x, right))
    decreases |s|
  {
    hide RowPairs, Pair;
    if s == [] {
      assert s + [x] == [x] && [x][1..] == [];
    } else {
      assert (s + [x])[1..] == s[1..] + [x];
      AllPairsAfterAppend(s[1..], x, right);
      Regroup(RowPairs(s[0], right), AllPairs(s[1..], right), RowPairs(x, right), NONE);
    }
  }

  lemma {:induction false} SortingKeepsRowPairs(a: Note, rows: seq<Note>)
    ensures RowPairs(a, ByStart(rows)) == RowPairs(a, rows)
    decreases |rows|
  {
    hide Pair;
    if rows != [] {
      var init, last := rows[..|rows| - 1], rows[|rows| - 1];
      SortingKeepsRowPairs(a, init);
      RowPairsAfterInsert(a, ByStart(init), last);
      RowPairsAfterAppend(a, init, last);
      assert rows == init + [last];
    }
  }

  lemma {:induction false} SortingRightKeepsPairs(left: seq<Note>, right: seq<Note>)
    ensures AllPairs(left, ByStart(right)) == AllPairs(left, right)
    decreases |left|
  {
    hide Pair;
    if left != [] {
      SortingKeepsRowPairs(left[0], right);
      SortingRightKeepsPairs(left[1..], right);
    }
  }

  lemma {:induction false} SortingLeftKeepsPairs(left: seq<Note>, right: seq<Note>)
    ensures AllPairs(ByStart(left), right) == AllPairs(left, right)
    decreases |left|
  {
    hide RowPairs, Pair;
    if left != [] {
      var init, last := left[..|left| - 1], left[|left| - 1];
      SortingLeftKeepsPairs(init, right);
      AllPairsAfterInsert(ByStart(init), last, right);
      AllPairsAfterAppend(init, last, right);
      assert left == init + [last];
    }
  }

  // ---------------------------------------------------------------- the two cursors

  /** What the loop finds from its cursors on. */
  function TwoCursors(left: seq<Note>, right: seq<Note>): Tally
    decreases |left| + |right|
  {
    if left == [] || right == [] then NONE
    else Plus(Pair(left[0], right[0]),
              if End(left[0]) < End(right[0]) then TwoCursors(left[1..], right) else TwoCursors(left, right[1..]))
  }

  /** No two notes of the string overlap by more than the limit. */
  predicate Separate(s: seq<Note>) {
    forall i, j :: 0 <= i < j < |s| ==> Overlap(s[i], s[j]) <= LIMIT
  }

  /** Two notes that both reach past a third one's overlap with the second overlap themselves. */
  lemma OverlapCarriesOver(a: Note, b: Note, c: Note)
    requires End(a) <= End(b) && b.start <= c.start && Overlap(a, c) > LIMIT
    ensures Overlap(b, c) > LIMIT
  {
  }

  lemma {:induction false} NothingFurtherRight(a: Note, b: Note, right: seq<Note>)
    requires End(a) <= End(b)
    requires forall j :: 0 <= j < |right| ==> b.start <= right[j].start && Overlap(b, right[j]) <= LIMIT
    ensures RowPairs(a, right) == NONE
    decreases |right|
  {
    if right != [] {
      if Found(a, right[0]) {
        OverlapCarriesOver(a, b, right[0]);
      }
      NothingFurtherRight(a, b, right[1..]);
    }
  }

  lemma {:induction false} NothingFurtherLeft(left: seq<Note>, a: Note, b: Note)
    requires End(b) <= End(a)
    requires forall i :: 0 <= i < |left| ==> a.start <= left[i].start && Overlap(a, left[i]) <= LIMIT
    ensures ColumnPairs(left, b) == NONE
    decreases |left|
  {
    if left != [] {
      if Found(left[0], b) {
        OverlapCarriesOver(b, a, left[0]);
      }
      NothingFurtherLeft(left[1..], a, b);
    }
  }

  /** On sorted strings whose own notes stay apart the cursors miss no pair. */
  lemma {:induction false} CursorsFindAllPairs(left: seq<Note>, right: seq<Note>)
    requires Sorted(left) && Sorted(right) && Separate(left) && Separate(right)
    ensures TwoCursors(left, right) == AllPairs(left, right)
    decreases |left| + |right|
  {
    hide Pair, Overlap;
    if right == [] {
      AllPairsOfNothing(left);
    } else if left != [] {
      if End(left[0]) < End(right[0]) {
        NothingFurtherRight(left[0], right[0], right[1..]);
        CursorsFindAllPairs(left[1..], right);
      } else {
        NothingFurtherLeft(left[1..], left[0], right[0]);
        AllPairsByColumn(left, right);
        CursorsFindAllPairs(left, right[1..]);
      }
    }
  }

  // ---------------------------------------------------------------- sorting keeps separateness

  lemma {:induction false} InsertHolds(s: seq<Note>, x: Note, y: Note)
    requires Sorted(s)
    ensures y in Insert(s, x) <==> y in s || y == x
    decreases |s|
  {
    if s != [] && s[0].start <= x.start {
      InsertHolds(s[1..], x, y);
      assert s == [s[0]] + s[1..];
    }
  }

  /** The note overlaps no note of the string by more than the limit. */
  predicate Clear(x: Note, s: seq<Note>) {
    forall i :: 0 <= i < |s| ==> Overlap(x, s[i]) <= LIMIT
  }

  lemma ClearOfSame(x: Note, s: seq<Note>, t: seq<Note>, extra: Note)
    requires forall y :: y in t <==> y in s || y == extra
    ensures Clear(x, t) <==> Clear(x, s) && Overlap(x, extra) <= LIMIT
  {
    if Clear(x, t) {
      forall i | 0 <= i < |s|
        ensures Overlap(x, s[i]) <= LIMIT
      {
        assert s[i] in t;
      }
      assert extra in t;
    } else {
      var i :| 0 <= i < |t| && Overlap(x, t[i]) > LIMIT;
      assert t[i] in t;
    }
  }

  lemma SeparateAtFront(x: Note, s: seq<Note>)
    ensures Separate([x] + s) <==> Separate(s) && Clear(x, s)
  {
    hide Overlap;
    var r := [x] + s;
    forall i | 0 <= i < |s|
      ensures r[i + 1] == s[i]
    {
    }
    if Separate(r) {
      forall i | 0 <= i < |s|
        ensures Overlap(x, s[i]) <= LIMIT
      {
        assert Overlap(r[0], r[i + 1]) <= LIMIT;
      }
      forall i, j | 0 <= i < j < |s|
        ensures Overlap(s[i], s[j]) <= LIMIT
      {
        assert Overlap(r[i + 1], r[j + 1]) <= LIMIT;
      }
    }
  }

  lemma SeparateAtEnd(s: seq<Note>, x: Note)
    ensures Separate(s + [x]) <==> Separate(s) && Clear(x, s)
  {
    var r := s + [x];
    assert forall i :: 0 <= i < |s| ==> r[i] == s[i];
    if Separate(r) {
      forall i | 0 <= i < |s|
        ensures Overlap(x, s[i]) <= LIMIT
      {
        assert Overlap(r[i], r[|s|]) <= LIMIT;
      }
    }
  }

  lemma {:induction false} InsertKeepsSeparate(s: seq<Note>, x: Note)
    requires Sorted(s)
    ensures Separate(Insert(s, x)) <==> Separate(s) && Clear(x, s)
    decreases |s|
  {
    if s == [] || x.start < s[0].start {
      SeparateAtFront(x, s);
    } else {
      var rest := Insert(s[1..], x);
      InsertKeepsSeparate(s[1..], x);
      SeparateAtFront(s[0], rest);
      SeparateAtFront(s[0], s[1..]);
      assert s == [s[0]] + s[1..];
      forall y
        ensures y in rest <==> y in s[1..] || y == x
      {
        InsertHolds(s[1..], x, y);
      }
      ClearOfSame(s[0], s[1..], rest, x);
      ClearAtFront(x, s);
    }
  }

  lemma ClearAtFront(x: Note, s: seq<Note>)
    requires s != []
    ensures Clear(x, s) <==> Overlap(s[0], x) <= LIMIT && Clear(x, s[1..])
  {
    if Clear(x, s[1..]) {
      assert forall i :: 0 < i < |s| ==> s[i] == s[1..][i - 1];
    }
  }

  lemma SameClear(x: Note, s: seq<Note>, t: seq<Note>)
    requires forall y :: y in t <==> y in s
    ensures Clear(x, t) <==> Clear(x, s)
  {
    assert forall i :: 0 <= i < |s| ==> s[i] in s;
    assert forall i :: 0 <= i < |t| ==> t[i] in t;
    if Clear(x, t) {
      assert forall i :: 0 <= i < |s| ==> s[i] in t;
    }
  }

  lemma {:induction false} SortingHolds(rows: seq<Note>, y: Note)
    ensures y in ByStart(rows) <==> y in rows
    decreases |rows|
  {
    if rows != [] {
      var init, last := rows[..|rows| - 1], rows[|rows| - 1];
      assert rows == init + [last];
      SortingHolds(init, y);
      InsertHolds(ByStart(init), last, y);
    }
  }

  lemma {:induction false} SortingKeepsSeparate(rows: seq<Note>)
    ensures Separate(ByStart(rows)) <==> Separate(rows)
    decreases |rows|
  {
    if rows != [] {
      var init, last := rows[..|rows| - 1], rows[|rows| - 1];
      assert rows == init + [last];
      SortingKeepsSeparate(init);
      InsertKeepsSeparate(ByStart(init), last);
      SeparateAtEnd(init, last);
      forall y
        ensures y in ByStart(init) <==> y in init
      {
        SortingHolds(init, y);
      }
      SameClear(last, init, ByStart(init));
    }
  }

  // ---------------------------------------------------------------- the exact condition

  /** The overlap of two notes as a note of its own, with the pitch of the second. */
  function Shared(a: Note, b: Note): (n: Note)
    ensures n.duration == Overlap(a, b) && n.pitch == b.pitch
  {
    Note(Max(a.start, b.start), Overlap(a, b), b.pitch)
  }

  lemma OnePairPerRow(left: seq<Note>, b: Note)
    requires left != []
    ensures AllPairs(left, [b]).pairs == Pair(left[0], b).pairs + AllPairs(left[1..], [b]).pairs
    ensures TwoCursors(left, [b]).pairs
         == Pair(left[0], b).pairs + if End(left[0]) < End(b) then TwoCursors(left[1..], [b]).pairs else 0
  {
    assert [b][1..] == [] && RowPairs(left[0], []) == NONE;
    assert RowPairs(left[0], [b]) == Plus(Pair(left[0], b), NONE);
  }

  /** Once a note ends no earlier than the only right note, nothing later is looked at. */
  lemma {:induction false} CursorStopsEarly(left: seq<Note>, b: Note, i: nat, k: nat)
    requires i < k < |left| && End(left[i]) >= End(b) && Found(left[k], b)
    ensures TwoCursors(left, [b]).pairs < AllPairs(left, [b]).pairs
    decreases |left|
  {
    hide Pair, TwoCursors, AllPairs, RowPairs, Found;
    OnePairPerRow(left, b);
    if End(left[0]) < End(b) {
      CursorStopsEarly(left[1..], b, i - 1, k - 1);
    } else {
      FoundIsCounted(left[1..], b, k - 1);
    }
  }

  lemma {:induction false} FoundIsCounted(left: seq<Note>, b: Note, k: nat)
    requires k < |left| && Found(left[k], b)
    ensures AllPairs(left, [b]).pairs > 0
    decreases |left|
  {
    OnePairPerRow(left, b);
    if k > 0 {
      FoundIsCounted(left[1..], b, k - 1);
    }
  }

  /** With an own overlap, a single well-chosen note on the other string is missed. */
  lemma OwnOverlapHidesAPair(left: seq<Note>) returns (b: Note)
    requires !Separate(left)
    ensures b.duration > 0.0 && TwoCursors(ByStart(left), ByStart([b])) != AllPairs(left, [b])
  {
    SortingKeepsSeparate(left);
    var s := ByStart(left);
    var i, k :| 0 <= i < k < |s| && Overlap(s[i], s[k]) > LIMIT;
    b := Shared(s[i], s[k]);
    assert [b][..0] == [] && ByStart([b]) == [b];
    CursorStopsEarly(s, b, i, k);
    SortingLeftKeepsPairs(left, [b]);
  }

  /** The loop counts what the all-pairs definition counts, for every separate right string, exactly when the left one is separate. */
  lemma CursorsAreExactWhenSeparate(left: seq<Note>)
    ensures Separate(left) <==>
      forall right :: Separate(right) && Proper(right) ==>
        TwoCursors(ByStart(left), ByStart(right)) == AllPairs(left, right)
  {
    if Separate(left) {
      forall right | Separate(right) && Proper(right)
        ensures TwoCursors(ByStart(left), ByStart(right)) == AllPairs(left, right)
      {
        SortingKeepsSeparate(left);
        SortingKeepsSeparate(right);
        CursorsFindAllPairs(ByStart(left), ByStart(right));
        SortingLeftKeepsPairs(left, ByStart(right));
        SortingRightKeepsPairs(left, right);
      }
    } else {
      var b := OwnOverlapHidesAPair(left);
      assert Separate([b]) && Proper([b]);
    }
  }

  /** A note that ends before both, and overlaps the second by half of what they have beyond the limit. */
  function Shorter(a: Note, b: Note): (n: Note)
    ensures n.duration == (Overlap(a, b) + LIMIT) / 2.0 && n.pitch == b.pitch
  {
    Note(Max(a.start, b.start), (Overlap(a, b) + LIMIT) / 2.0, b.pitch)
  }

  lemma ShorterIsFound(a: Note, b: Note)
    requires Overlap(a, b) > LIMIT
    ensures End(Shorter(a, b)) < End(a) && Found(Shorter(a, b), b) && Shorter(a, b).duration > 0.0
  {
  }

  lemma OnePairPerColumn(a: Note, right: seq<Note>)
    requires right != []
    ensures AllPairs([a], right).pairs == Pair(a, right[0]).pairs + AllPairs([a], right[1..]).pairs
    ensures TwoCursors([a], right).pairs
         == Pair(a, right[0]).pairs + if End(a) < End(right[0]) then 0 else TwoCursors([a], right[1..]).pairs
  {
    assert [a][1..] == [] && AllPairs([], right) == AllPairs([], right[1..]) == NONE;
    assert RowPairs(a, right) == Plus(Pair(a, right[0]), RowPairs(a, right[1..]));
    assert AllPairs([a], right) == Plus(RowPairs(a, right), NONE);
    assert AllPairs([a], right[1..]) == Plus(RowPairs(a, right[1..]), NONE);
  }

  /** Once a right note ends later than the only left note, nothing later is looked at. */
  lemma {:induction false} CursorLeavesEarly(a: Note, right: seq<Note>, i: nat, k: nat)
    requires i < k < |right| && End(a) < End(right[i]) && Found(a, right[k])
    ensures TwoCursors([a], right).pairs < AllPairs([a], right).pairs
    decreases |right|
  {
    hide Pair, TwoCursors, AllPairs, RowPairs, Found;
    OnePairPerColumn(a, right);
    if End(a) < End(right[0]) {
      FoundOnRightIsCounted(a, right[1..], k - 1);
    } else {
      CursorLeavesEarly(a, right[1..], i - 1, k - 1);
    }
  }

  lemma {:induction false} FoundOnRightIsCounted(a: Note, right: seq<Note>, k: nat)
    requires k < |right| && Found(a, right[k])
    ensures AllPairs([a], right).pairs > 0
    decreases |right|
  {
    hide TwoCursors, AllPairs, RowPairs, Found;
    OnePairPerColumn(a, right);
    if k > 0 {
      assert right[1..][k - 1] == right[k];
      FoundOnRightIsCounted(a, right[1..], k - 1);
    }
  }

  /** With an own overlap on the right, a single well-chosen note on the left is missed with the second of them. */
  lemma OwnOverlapOnRightHidesAPair(right: seq<Note>) returns (a: Note)
    requires !Separate(right)
    ensures a.duration > 0.0 && TwoCursors(ByStart([a]), ByStart(right)) != AllPairs([a], right)
  {
    SortingKeepsSeparate(right);
    var s := ByStart(right);
    var i, k :| 0 <= i < k < |s| && Overlap(s[i], s[k]) > LIMIT;
    a := Shorter(s[i], s[k]);
    ShorterIsFound(s[i], s[k]);
    assert [a][..0] == [] && ByStart([a]) == [a];
    CursorLeavesEarly(a, s, i, k);
    SortingRightKeepsPairs([a], right);
  }

  /** The same for the right string, all notes of which have a length. */
  lemma CursorsAreExactWhenRightIsSeparate(right: seq<Note>)
    requires Proper(right)
    ensures Separate(right) <==>
      forall left :: Separate(left) ==> TwoCursors(ByStart(left), ByStart(right)) == AllPairs(left, right)
  {
    if Separate(right) {
      forall left | Separate(left)
        ensures TwoCursors(ByStart(left), ByStart(right)) == AllPairs(left, right)
      {
        CursorsAreExactWhenSeparate(left);
      }
    } else {
      var a := OwnOverlapOnRightHidesAPair(right);
      assert Separate([a]);
    }
  }

  lemma CursorStep(left: seq<Note>, right: seq<Note>, i: nat, j: nat, tally: Tally)
    requires i < |left| && j < |right|
    ensures Plus(tally, TwoCursors(left[i..], right[j..])) ==
      Plus(Plus(tally, Pair(left[i], right[j])),
           if End(left[i]) < End(right[j]) then TwoCursors(left[i + 1..], right[j..])
           else TwoCursors(left[i..], right[j + 1..]))
  {
    hide Pair;
    assert left[i..][1..] == left[i + 1..] && right[j..][1..] == right[j + 1..];
    assert left[i..][0] == left[i] && right[j..][0] == right[j];
  }

  lemma CursorsEnd(left: seq<Note>, right: seq<Note>, tally: Tally)
    requires left == [] || right == []
    ensures Plus(tally, TwoCursors(left, right)) == tally
  {
  }

  method CountOverlaps(leftRows: seq<Note>, rightRows: seq<Note>) returns (tally: Tally)
    ensures tally == TwoCursors(ByStart(leftRows), ByStart(rightRows))
    ensures Separate(leftRows) && Separate(rightRows) && Proper(rightRows) ==> tally == AllPairs(leftRows, rightRows)
  {
    hide Pair, Separate, Overlap, AllPairs, TwoCursors, Plus;
    var left, right := ByStart(leftRows), ByStart(rightRows);
    tally := NONE;
    var i, j := 0, 0;
    assert left[i..] == left && right[j..] == right && Plus(NONE, TwoCursors(left, right)) == TwoCursors(left, right) by {
      Regroup(TwoCursors(left, right), NONE, NONE, NONE);
    }
    while i < |left| && j < |right|
      invariant 0 <= i <= |left| && 0 <= j <= |right|
      invariant Plus(tally, TwoCursors(left[i..], right[j..])) == TwoCursors(left, right)
      decreases |left| - i + |right| - j
    {
      CursorStep(left, right, i, j, tally);
      tally := Plus(tally, Pair(left[i], right[j]));
      if End(left[i]) < End(right[j]) {
        i := i + 1;
      } else {
        j := j + 1;
      }
    }
    CursorsEnd(left[i..], right[j..], tally);
    CursorsAreExactWhenSeparate(leftRows);
  }
}
