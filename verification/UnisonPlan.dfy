/** Greedy bounded selection of unison cases, and how much of the optimum it must cover. */
module UnisonPlan {
  import opened Sets

  datatype NoteClass = NoteClass(physicalString: int, fret: int, midiNote: int)

  datatype Feature =
    | Size(members: nat)
    | Midi(note: int)
    | Class(physicalString: int, fret: int)
    | Pair(first: int, second: int)

  type Row = seq<NoteClass>

  function Features(row: Row): set<Feature>
    requires row != []
  {
    {Size(|row|), Midi(row[0].midiNote)}
    + (set i | 0 <= i < |row| :: Class(row[i].physicalString, row[i].fret))
    + (set i, j | 0 <= i < j < |row| :: Pair(row[i].physicalString, row[j].physicalString))
  }

  /** A feature of a row is its size, its first pitch, one of its (string, fret) or two of its strings in order. */
  lemma FeaturesAre(row: Row, f: Feature)
    requires row != []
    ensures f in Features(row) <==>
      match f
      case Size(members) => members == |row|
      case Midi(note) => note == row[0].midiNote
      case Class(s, fret) => exists c :: c in row && c.physicalString == s && c.fret == fret
      case Pair(s, t) => exists i, j :: 0 <= i < j < |row| && row[i].physicalString == s && row[j].physicalString == t
  {
    assert forall i :: 0 <= i < |row| ==> row[i] in row;
  }

  // ---------------------------------------------------------------- coverage

  ghost predicate Indices<F>(sets: seq<set<F>>, chosen: set<nat>) {
    forall i :: i in chosen ==> i < |sets|
  }

  /** All features of the chosen sets. */
  ghost function Covered<F>(sets: seq<set<F>>, chosen: set<nat>): set<F>
    requires Indices(sets, chosen)
  {
    set i, f | i in chosen && f in sets[i] :: f
  }

  ghost function Elements(s: seq<nat>): set<nat> {
    set i | i in s
  }

  lemma ElementsAppend(s: seq<nat>, x: nat)
    ensures Elements(s + [x]) == Elements(s) + {x}
  {
  }

  ghost function Gain<F>(sets: seq<set<F>>, chosen: set<nat>, i: nat): nat
    requires Indices(sets, chosen) && i < |sets|
  {
    |sets[i] - Covered(sets, chosen)|
  }

  /** Each choice is new and gains at least as much as every index still unchosen. */
  ghost predicate GreedyRun<F>(sets: seq<set<F>>, chosen: seq<nat>) {
    && Indices(sets, Elements(chosen))
    && forall n :: 0 <= n < |chosen| ==> GreedyStep(sets, chosen[..n], chosen[n])
  }

  ghost predicate GreedyStep<F>(sets: seq<set<F>>, before: seq<nat>, best: nat) {
    && Indices(sets, Elements(before)) && best < |sets|
    && best !in before
    && forall i :: 0 <= i < |sets| && i !in before ==>
         Gain(sets, Elements(before), i) <= Gain(sets, Elements(before), best)
  }

  lemma CoveredGrows<F>(sets: seq<set<F>>, chosen: set<nat>, i: nat)
    requires Indices(sets, chosen) && i < |sets|
    ensures Covered(sets, chosen + {i}) == Covered(sets, chosen) + sets[i]
    ensures |Covered(sets, chosen + {i})| == |Covered(sets, chosen)| + Gain(sets, chosen, i)
  {
    var c := Covered(sets, chosen);
    assert Covered(sets, chosen + {i}) == c + sets[i];
    assert c + sets[i] == c + (sets[i] - c);
  }

  lemma UnionGain<F>(sets: seq<set<F>>, chosen: set<nat>, rest: set<nat>, r: nat)
    requires Indices(sets, chosen) && Indices(sets, rest) && r < |sets|
    ensures |Covered(sets, rest + {r}) - Covered(sets, chosen)|
         <= |Covered(sets, rest) - Covered(sets, chosen)| + Gain(sets, chosen, r)
  {
    var c := Covered(sets, chosen);
    CoveredGrows(sets, rest, r);
    var a, b := Covered(sets, rest) - c, sets[r] - c;
    assert Covered(sets, rest + {r}) - c == a + (b - a);
    SubsetSize(b - a, b);
  }

  /** The sum of m gains of g each. */
  function Times(m: nat, g: nat): nat {
    if m == 0 then 0 else Times(m - 1, g) + g
  }

  lemma TimesNext(m: nat, n: nat, g: nat)
    requires n == m + 1
    ensures Times(n, g) == Times(m, g) + g
  {
  }

  /** If no set gains more than g, then no k sets together gain more than k * g. */
  lemma {:induction false} FewSetsGainLittle<F>(sets: seq<set<F>>, chosen: set<nat>, rivals: set<nat>, g: nat)
    requires Indices(sets, chosen) && Indices(sets, rivals)
    requires forall i :: i in rivals ==> Gain(sets, chosen, i) <= g
    ensures |Covered(sets, rivals) - Covered(sets, chosen)| <= Times(|rivals|, g)
    decreases |rivals|
  {
    if rivals == {} {
      assert Covered(sets, rivals) - Covered(sets, chosen) == {};
    } else {
      var r :| r in rivals;
      var rest := rivals - {r};
      FewSetsGainLittle(sets, chosen, rest, g);
      assert rest + {r} == rivals;
      UnionGain(sets, chosen, rest, r);
      TimesNext(|rest|, |rivals|, g);
    }
  }

  /** One choice closes at least a k-th of the gap to the optimum. */
  predicate Closes(k: int, optimum: int, covered: int, next: int) {
    k * (optimum - next) <= (k - 1) * (optimum - covered)
  }

  /** After n choices the gap is at most (1 - 1/k)^n of the optimum, both sides times k^n. */
  predicate GapAfter(k: int, n: nat, optimum: int, covered: int) {
    Pow(k, n) * (optimum - covered) <= Pow(k - 1, n) * optimum
  }

  /** The covered share is at least 1 - (1 - 1/k)^k, both sides times k^k. */
  predicate CoversShare(k: nat, covered: int, optimum: int) {
    Pow(k, k) * covered >= (Pow(k, k) - Pow(k - 1, k)) * optimum
  }

  function Pow(base: int, n: nat): int {
    if n == 0 then 1 else base * Pow(base, n - 1)
  }

  lemma {:induction false} PowNonNegative(base: int, n: nat)
    requires base >= 0
    ensures Pow(base, n) >= 0
  {
    if n > 0 {
      PowNonNegative(base, n - 1);
    }
  }

  lemma {:induction false} TimesIsProduct(m: nat, g: nat)
    ensures Times(m, g) == m * g
  {
    if m > 0 {
      TimesIsProduct(m - 1, g);
    }
  }

  lemma MultiplyBoth(m: int, a: int, b: int)
    requires m >= 0 && a <= b
    ensures m * a <= m * b
  {
  }

  lemma GapCloses(k: int, m: nat, optimum: int, now: int, gain: nat, next: int)
    requires m <= k && next == now + gain && optimum - now <= Times(m, gain)
    ensures Closes(k, optimum, now, next)
  {
    TimesIsProduct(m, gain);
    MultiplyBoth(gain, m, k);
    GapDifference(k, optimum, now, gain, next);
  }

  lemma GapDifference(k: int, optimum: int, now: int, gain: int, next: int)
    requires next == now + gain && optimum - now <= gain * k
    ensures Closes(k, optimum, now, next)
  {
    assert k * (optimum - next) == k * (optimum - now) - gain * k;
    assert (k - 1) * (optimum - now) == k * (optimum - now) - (optimum - now);
  }

  lemma GapArithmetic(k: int, p: int, q: int, optimum: int, now: int, next: int)
    requires k >= 1 && p >= 0
    requires p * now <= q * optimum && k * next <= (k - 1) * now
    ensures (k * p) * next <= ((k - 1) * q) * optimum
  {
    calc <= {
      (k * p) * next;
      == p * (k * next);
      { MultiplyBoth(p, k * next, (k - 1) * now); }
      p * ((k - 1) * now);
      == (k - 1) * (p * now);
      { MultiplyBoth(k - 1, p * now, q * optimum); }
      (k - 1) * (q * optimum);
      == ((k - 1) * q) * optimum;
    }
  }

  lemma GapStart(k: int, optimum: int, covered: nat)
    ensures GapAfter(k, 0, optimum, covered)
  {
  }

  lemma GapNext(k: int, m: nat, n: nat, optimum: int, covered: int, next: int)
    requires k >= 1 && n == m + 1
    requires GapAfter(k, m, optimum, covered) && Closes(k, optimum, covered, next)
    ensures GapAfter(k, n, optimum, next)
  {
    PowNonNegative(k, m);
    GapArithmetic(k, Pow(k, m), Pow(k - 1, m), optimum, optimum - covered, optimum - next);
  }

  lemma GapGivesShare(k: nat, optimum: int, covered: int)
    requires GapAfter(k, k, optimum, covered)
    ensures CoversShare(k, covered, optimum)
  {
    var p, q := Pow(k, k), Pow(k - 1, k);
    assert p * (optimum - covered) == p * optimum - p * covered;
    assert (p - q) * optimum == p * optimum - q * optimum;
  }

  /** The best unchosen set gains at least the average gain of any rivals. */
  lemma GreedyGains<F>(sets: seq<set<F>>, before: seq<nat>, best: nat, rivals: set<nat>)
    requires GreedyStep(sets, before, best) && Indices(sets, rivals)
    ensures var c := Elements(before);
      |Covered(sets, rivals)| - |Covered(sets, c)| <= Times(|rivals|, Gain(sets, c, best))
  {
    var c := Elements(before);
    forall i | i in rivals
      ensures Gain(sets, c, i) <= Gain(sets, c, best)
    {
      if i in c {
        assert sets[i] - Covered(sets, c) == {};
      }
    }
    FewSetsGainLittle(sets, c, rivals, Gain(sets, c, best));
    var a, b := Covered(sets, rivals), Covered(sets, c);
    SubsetSize(a, (a - b) + b);
  }

  /** How many features the first n choices cover. */
  ghost function Score<F>(sets: seq<set<F>>, chosen: seq<nat>, n: nat): nat
    requires Indices(sets, Elements(chosen)) && n <= |chosen|
  {
    assert forall i :: i in chosen[..n] ==> i in Elements(chosen);
    |Covered(sets, Elements(chosen[..n]))|
  }

  lemma ScoreGains<F>(sets: seq<set<F>>, chosen: seq<nat>, rivals: set<nat>, m: nat, n: nat)
    returns (gain: nat)
    requires GreedyRun(sets, chosen) && m < n == m + 1 <= |chosen| && Indices(sets, rivals)
    ensures Score(sets, chosen, n) == Score(sets, chosen, m) + gain
    ensures |Covered(sets, rivals)| - Score(sets, chosen, m) <= Times(|rivals|, gain)
  {
    assert GreedyStep(sets, chosen[..m], chosen[m]);
    assert chosen[..n] == chosen[..m] + [chosen[m]];
    ElementsAppend(chosen[..m], chosen[m]);
    GreedyGains(sets, chosen[..m], chosen[m], rivals);
    CoveredGrows(sets, Elements(chosen[..m]), chosen[m]);
    gain := Gain(sets, Elements(chosen[..m]), chosen[m]);
  }

  lemma {:induction false} GreedyGap<F>(sets: seq<set<F>>, chosen: seq<nat>, rivals: set<nat>, k: nat, n: nat)
    requires GreedyRun(sets, chosen) && n <= |chosen|
    requires k >= 1 && Indices(sets, rivals) && |rivals| <= k
    ensures GapAfter(k, n, |Covered(sets, rivals)|, Score(sets, chosen, n))
    decreases n
  {
    var optimum := |Covered(sets, rivals)|;
    if n == 0 {
      GapStart(k, optimum, Score(sets, chosen, 0));
    } else {
      var m := n - 1;
      GreedyGap(sets, chosen, rivals, k, m);
      var gain := ScoreGains(sets, chosen, rivals, m, n);
      GapCloses(k, |rivals|, optimum, Score(sets, chosen, m), gain, Score(sets, chosen, n));
      GapNext(k, m, n, optimum, Score(sets, chosen, m), Score(sets, chosen, n));
    }
  }

  /** k greedy choices cover at least 1 - (1 - 1/k)^k of what any k sets cover. */
  lemma GreedyRatio<F>(sets: seq<set<F>>, chosen: seq<nat>, rivals: set<nat>)
    requires GreedyRun(sets, chosen) && chosen != []
    requires Indices(sets, rivals) && |rivals| <= |chosen|
    ensures CoversShare(|chosen|, |Covered(sets, Elements(chosen))|, |Covered(sets, rivals)|)
  {
    var k := |chosen|;
    GreedyGap(sets, chosen, rivals, k, k);
    assert chosen[..k] == chosen;
    GapGivesShare(k, |Covered(sets, rivals)|, |Covered(sets, Elements(chosen))|);
  }

  // ---------------------------------------------------------------- the selection

  /** The selection key of an index: gain, then row length, then the smaller index. */
  predicate Precedes(gain: nat, length: nat, index: nat, gain': nat, length': nat, index': nat) {
    gain > gain' || (gain == gain' && (length > length' || (length == length' && index < index')))
  }

  /** Among the rows left that gain as much, the choice is the longest one, and the first of those. */
  ghost predicate BreaksTies(rows: seq<Row>, sets: seq<set<Feature>>, before: seq<nat>, best: nat) {
    && |rows| == |sets| && Indices(sets, Elements(before)) && best < |sets|
    && forall i ::
         (0 <= i < |sets| && i !in before && i != best
          && Gain(sets, Elements(before), i) == Gain(sets, Elements(before), best)) ==>
           |rows[i]| < |rows[best]| || (|rows[i]| == |rows[best]| && best < i)
  }

  /** Every choice so far broke its ties like this. */
  ghost predicate TiesAreBroken(rows: seq<Row>, sets: seq<set<Feature>>, chosen: seq<nat>) {
    forall n :: 0 <= n < |chosen| ==> BreaksTies(rows, sets, chosen[..n], chosen[n])
  }

  lemma TiesNext(
    rows: seq<Row>, sets: seq<set<Feature>>, picked: seq<nat>, uncovered: set<Feature>, remaining: set<nat>, best: nat)
    requires |rows| == |sets| && Picking(sets, picked, uncovered, remaining) && best in remaining
    requires TiesAreBroken(rows, sets, picked)
    requires forall i :: i in remaining && i != best ==>
      Precedes(|sets[best] * uncovered|, |rows[best]|, best, |sets[i] * uncovered|, |rows[i]|, i)
    ensures TiesAreBroken(rows, sets, picked + [best])
  {
    var c := Elements(picked);
    forall i | 0 <= i < |sets|
      ensures Gain(sets, c, i) == |sets[i] * uncovered|
    {
      assert sets[i] - Covered(sets, c) == sets[i] * uncovered;
    }
    assert BreaksTies(rows, sets, picked, best);
    forall n | 0 <= n <= |picked|
      ensures BreaksTies(rows, sets, (picked + [best])[..n], (picked + [best])[n])
    {
      assert (picked + [best])[..n] == picked[..n];
      assert picked[..|picked|] == picked;
    }
  }

  function Range(n: nat): (s: set<nat>)
    ensures forall i: nat :: i in s <==> i < n
    ensures |s| == n
  {
    if n == 0 then {} else
    var rest := Range(n - 1);
    rest + {n - 1}
  }

  /** The remaining index with the largest key. */
  method PickBest(rows: seq<Row>, sets: seq<set<Feature>>, uncovered: set<Feature>, remaining: set<nat>)
    returns (best: nat)
    requires |rows| == |sets| && Indices(sets, remaining) && remaining != {}
    ensures best in remaining
    ensures forall i :: i in remaining && i != best ==>
      Precedes(|sets[best] * uncovered|, |rows[best]|, best, |sets[i] * uncovered|, |rows[i]|, i)
  {
    var found := false;
    best := 0;
    for i := 0 to |rows|
      invariant found <==> exists j :: j in remaining && j < i
      invariant found ==> best in remaining && best < i
      invariant found ==> forall j :: j in remaining && j < i && j != best ==>
        Precedes(|sets[best] * uncovered|, |rows[best]|, best, |sets[j] * uncovered|, |rows[j]|, j)
    {
      if i in remaining {
        if !found || Precedes(|sets[i] * uncovered|, |rows[i]|, i, |sets[best] * uncovered|, |rows[best]|, best) {
          best := i;
        }
        found := true;
      }
    }
  }

  predicate Increasing(s: seq<nat>) {
    forall i, j :: 0 <= i < j < |s| ==> s[i] < s[j]
  }

  predicate Distinct(s: seq<nat>) {
    forall i, j :: 0 <= i < j < |s| ==> s[i] != s[j]
  }

  /** What the loop variables hold after the picks so far. */
  ghost predicate Picking(
    sets: seq<set<Feature>>, picked: seq<nat>, uncovered: set<Feature>, remaining: set<nat>)
  {
    && GreedyRun(sets, picked) && Distinct(picked)
    && (forall i: nat :: i in remaining <==> i < |sets| && i !in picked)
    && (forall i, f :: 0 <= i < |sets| && f in sets[i] ==>
          (f in uncovered <==> f !in Covered(sets, Elements(picked))))
  }

  lemma GreedyRunAppend<F>(sets: seq<set<F>>, picked: seq<nat>, best: nat)
    requires GreedyRun(sets, picked) && GreedyStep(sets, picked, best)
    ensures GreedyRun(sets, picked + [best])
  {
    var next := picked + [best];
    ElementsAppend(picked, best);
    forall n | 0 <= n < |next|
      ensures GreedyStep(sets, next[..n], next[n])
    {
      if n < |picked| {
        assert next[..n] == picked[..n] && next[n] == picked[n];
      } else {
        assert next[..n] == picked;
      }
    }
  }

  lemma PickingNext(
    sets: seq<set<Feature>>, picked: seq<nat>, uncovered: set<Feature>, remaining: set<nat>, best: nat)
    requires Picking(sets, picked, uncovered, remaining) && best in remaining
    requires forall i :: i in remaining ==> |sets[best] * uncovered| >= |sets[i] * uncovered|
    ensures Picking(sets, picked + [best], uncovered - sets[best], remaining - {best})
  {
    var c := Elements(picked);
    forall i | 0 <= i < |sets|
      ensures Gain(sets, c, i) == |sets[i] * uncovered|
    {
      assert sets[i] - Covered(sets, c) == sets[i] * uncovered;
    }
    GreedyRunAppend(sets, picked, best);
    ElementsAppend(picked, best);
    CoveredGrows(sets, c, best);
  }

  /** The greedy loop: always take the remaining row with the largest key. */
  method Choose(rows: seq<Row>, sets: seq<set<Feature>>, maximumCases: nat) returns (picked: seq<nat>)
    requires |sets| == |rows| && maximumCases < |rows|
    ensures |picked| == maximumCases && Distinct(picked)
    ensures GreedyRun(sets, picked) && TiesAreBroken(rows, sets, picked)
  {
    var uncovered := set i, f | 0 <= i < |sets| && f in sets[i] :: f;
    var remaining := Range(|rows|);
    picked := [];
    while remaining != {} && |picked| < maximumCases
      invariant |picked| <= maximumCases
      invariant Picking(sets, picked, uncovered, remaining) && TiesAreBroken(rows, sets, picked)
      decreases remaining
    {
      var best := PickBest(rows, sets, uncovered, remaining);
      PickingNext(sets, picked, uncovered, remaining, best);
      TiesNext(rows, sets, picked, uncovered, remaining, best);
      picked := picked + [best];
      uncovered := uncovered - sets[best];
      remaining := remaining - {best};
    }
    EnoughRemain(remaining, picked, |rows|);
  }

  /** `select_balanced_unison_plan`; `order` are the kept indices, `chosen` the greedy choices. */
  method SelectBalanced(rows: seq<Row>, maximumCases: int)
    returns (plan: seq<Row>, ghost order: seq<nat>, ghost chosen: seq<nat>)
    requires 0 < maximumCases < |rows| ==> forall i :: 0 <= i < |rows| ==> rows[i] != []
    ensures !(0 < maximumCases < |rows|) ==> plan == rows
    ensures 0 < maximumCases < |rows| ==>
      && |plan| == |order| == |chosen| == maximumCases
      && Increasing(order) && Elements(order) == Elements(chosen)
      && (forall i :: 0 <= i < |order| ==> order[i] < |rows| && plan[i] == rows[order[i]])
      && GreedyRun(seq(|rows|, i requires 0 <= i < |rows| => Features(rows[i])), chosen)
      && TiesAreBroken(rows, seq(|rows|, i requires 0 <= i < |rows| => Features(rows[i])), chosen)
  {
    order, chosen := [], [];
    if maximumCases <= 0 || maximumCases >= |rows| {
      return rows, order, chosen;
    }
    var sets := seq(|rows|, i requires 0 <= i < |rows| => Features(rows[i]));
    var picked := Choose(rows, sets, maximumCases);
    chosen := picked;
    plan, order := InOrder(rows, picked);
    assert forall i :: i in picked ==> i in Elements(picked);
    SameSizeWhenDistinct(order, picked);
  }

  /** The picked rows in their original order. */
  method InOrder(rows: seq<Row>, picked: seq<nat>) returns (plan: seq<Row>, ghost order: seq<nat>)
    ensures |plan| == |order| && Increasing(order)
    ensures forall j :: 0 <= j < |order| ==> order[j] < |rows| && plan[j] == rows[order[j]]
    ensures forall j: nat :: j in order <==> j < |rows| && j in picked
  {
    plan, order := [], [];
    for i := 0 to |rows|
      invariant |plan| == |order| && Increasing(order)
      invariant forall j :: 0 <= j < |order| ==> order[j] < i && plan[j] == rows[order[j]]
      invariant forall j: nat :: j in order <==> j < i && j in picked
    {
      if i in picked {
        plan, order := plan + [rows[i]], order + [i];
      }
    }
  }

  lemma {:induction false} DistinctSize(s: seq<nat>)
    requires Distinct(s)
    ensures |Elements(s)| == |s|
  {
    if s != [] {
      var last := |s| - 1;
      DistinctSize(s[..last]);
      assert Elements(s) == Elements(s[..last]) + {s[last]};
    }
  }

  lemma SameSizeWhenDistinct(a: seq<nat>, b: seq<nat>)
    requires Increasing(a) && Distinct(b)
    requires forall n :: n in a <==> n in b
    ensures |a| == |b| && Elements(a) == Elements(b)
  {
    DistinctSize(a);
    DistinctSize(b);
    assert Elements(a) == Elements(b);
  }

  lemma EnoughRemain(remaining: set<nat>, picked: seq<nat>, n: nat)
    requires forall i: nat :: i in remaining <==> i < n && i !in picked
    requires Distinct(picked) && forall i :: i in Elements(picked) ==> i < n
    ensures remaining == {} ==> |picked| == n
  {
    if remaining == {} {
      DistinctSize(picked);
      assert Elements(picked) == Range(n);
    }
  }

  /** The kept plan covers the promised share of what any equally small plan covers. */
  lemma PlanRatio(rows: seq<Row>, maximumCases: int, chosen: seq<nat>, rivals: set<nat>)
    requires 0 < maximumCases == |chosen| && forall i :: 0 <= i < |rows| ==> rows[i] != []
    requires GreedyRun(seq(|rows|, i requires 0 <= i < |rows| => Features(rows[i])), chosen)
    requires |rivals| <= maximumCases && forall i :: i in rivals ==> i < |rows|
    ensures var sets := seq(|rows|, i requires 0 <= i < |rows| => Features(rows[i]));
      CoversShare(maximumCases, |Covered(sets, Elements(chosen))|, |Covered(sets, rivals)|)
  {
    GreedyRatio(seq(|rows|, i requires 0 <= i < |rows| => Features(rows[i])), chosen, rivals);
  }
}
