/** The exhaustive string-mask classifier over least-squares fits of one spectral fingerprint. */
module MaskClassifier {
  import opened Results
  import opened Vectors
  import opened GaussJordan
  import opened LeastSquares
  import opened LaneMasks

  const FEATURE_COUNT: nat := 102
  const STRING_COUNT: nat := 8
  const MASK_END: nat := 256
  const OPEN_NOTES: seq<int> := [32, 36, 40, 44, 48, 52, 56, 60]
  const POSITIVE_WEIGHT_FLOOR := 1.0 / 1000000000.0

  datatype Error = MemberBounds | Fingerprint | LaneRange

  datatype Disposition = Unlabeled | Exact | Subset | Superset | Overlap | Disjoint

  datatype Fit = Fit(residual: real, mask: nat, weights: Vector)

  datatype Classification =
    | Invalid
    | Valid(mask: nat, members: nat, residual: real, runnerUp: Option<real>,
            margin: Option<real>, weights: Vector, disposition: Disposition)

  // ---------------------------------------------------------------- dispositions

  function Disposed(expected: Option<nat>, observed: nat): Disposition {
    if expected.None? then Unlabeled
    else if observed == expected.value then Exact
    else
      var overlap := And(observed, expected.value);
      if overlap == observed then Subset
      else if overlap == expected.value then Superset
      else if overlap != 0 then Overlap else Disjoint
  }

  /** The disposition names the relation between the two sets of lanes. */
  lemma DispositionNamesTheRelation(expected: nat, observed: nat)
    ensures var d := Disposed(Some(expected), observed);
      && (d == Exact <==> Within(observed, expected) && Within(expected, observed))
      && (d == Subset <==> Within(observed, expected) && !Within(expected, observed))
      && (d == Superset <==> Within(expected, observed) && !Within(observed, expected))
      && (d == Disjoint <==>
            && !Within(observed, expected) && !Within(expected, observed)
            && forall lane: nat :: !(Bit(observed, lane) && Bit(expected, lane)))
      && d != Unlabeled && Disposed(None, observed) == Unlabeled
  {
    AndIsFirstWhenWithin(observed, expected);
    AndIsZeroWhenDisjoint(observed, expected);
    if Within(observed, expected) && Within(expected, observed) {
      SameBitsSameMask(observed, expected);
    }
  }

  // ---------------------------------------------------------------- accepted masks

  function Lanes(mask: nat): seq<nat> {
    LanesFrom(mask, 0, STRING_COUNT)
  }

  /** Observed fingerprint, templates by lane, the playable lanes and the size bounds. */
  datatype Problem = Problem(
    bank: map<nat, Vector>, playable: nat, target: Vector, minimum: nat, maximum: nat)
  {
    predicate Valid() {
      && (forall lane :: lane in bank ==> |bank[lane]| == |target|)
      && (forall lane: nat :: lane < STRING_COUNT && Bit(playable, lane) ==> lane in bank)
    }

    /** The masks the search looks at: the right size, and every lane playable. */
    predicate Candidate(mask: nat) {
      && 1 <= mask < MASK_END
      && minimum <= PopCount(mask) <= maximum
      && And(mask, playable) == mask
    }

    function MemberColumns(mask: nat): (c: seq<Vector>)
      requires Valid() && Candidate(mask)
      ensures |c| == |Lanes(mask)| && Columns(c, |target|)
      ensures forall i :: 0 <= i < |c| ==> Lanes(mask)[i] in bank && c[i] == bank[Lanes(mask)[i]]
    {
      LanesAreInBank(mask);
      hide Candidate, Lanes;
      var lanes := Lanes(mask);
      seq(|lanes|, (i: nat) requires i < |lanes| => bank[lanes[i]])
    }

    lemma LanesAreInBank(mask: nat)
      requires Valid() && Candidate(mask)
      ensures forall i :: 0 <= i < |Lanes(mask)| ==> Lanes(mask)[i] in bank
    {
      hide And, PopCount, Bit, LanesFrom;
      AndIsFirstWhenWithin(mask, playable);
    }

    /** The fit of one mask, if it is a candidate and every weight is above the floor. */
    function FitOf(mask: nat): (fit: Option<Fit>)
      requires Valid()
      ensures fit.Some? ==> fit.value.mask == mask
    {
      if !Candidate(mask) then None else
      var columns := MemberColumns(mask);
      var w := Weights(columns, target);
      if w.None? || !AllAboveFloor(w.value) then None
      else Some(Fit(SquaredError(columns, w.value, target), mask, Expanded(Lanes(mask), w.value, |w.value|)))
    }

    /** The outcome of every mask, by mask. */
    ghost function Outcomes(): (outcomes: seq<Option<Fit>>)
      requires Valid()
      ensures |outcomes| == MASK_END
      ensures forall mask :: 0 <= mask < MASK_END ==> outcomes[mask] == FitOf(mask)
    {
      seq(MASK_END, (mask: nat) requires mask < MASK_END && Valid() => FitOf(mask))
    }
  }

  predicate AllAboveFloor(w: Vector) {
    forall i :: 0 <= i < |w| ==> w[i] > POSITIVE_WEIGHT_FLOOR
  }

  /** The first k weights written to their lanes, zero on all other lanes. */
  function Expanded(lanes: seq<nat>, w: Vector, k: nat): (expanded: Vector)
    requires k <= |w| == |lanes|
    requires forall i :: 0 <= i < |lanes| ==> lanes[i] < STRING_COUNT
    requires forall i, j :: 0 <= i < j < |lanes| ==> lanes[i] < lanes[j]
    ensures |expanded| == STRING_COUNT
    ensures forall i :: 0 <= i < k ==> expanded[lanes[i]] == w[i]
    ensures forall lane: nat :: lane < STRING_COUNT && lane !in lanes[..k] ==> expanded[lane] == 0.0
  {
    if k == 0 then seq(STRING_COUNT, i => 0.0)
    else
      assert lanes[..k] == lanes[..k - 1] + [lanes[k - 1]];
      Expanded(lanes, w, k - 1)[lanes[k - 1] := w[k - 1]]
  }

  // ---------------------------------------------------------------- ordering the fits

  predicate Before(a: Fit, b: Fit) {
    a.residual < b.residual || (a.residual == b.residual && a.mask < b.mask)
  }

  predicate Ordered(fits: seq<Fit>) {
    forall i, j :: 0 <= i < j < |fits| ==> Before(fits[i], fits[j])
  }

  /** Inserts one fit into an ordered list by (residual, mask). */
  function Insert(fit: Fit, fits: seq<Fit>): (r: seq<Fit>)
    requires Ordered(fits) && forall f :: f in fits ==> f.mask != fit.mask
    ensures Ordered(r) && |r| == |fits| + 1
    ensures forall f :: f in r <==> f == fit || f in fits
  {
    if fits == [] || Before(fit, fits[0]) then [fit] + fits
    else
      assert forall f :: f in fits <==> f == fits[0] || f in fits[1..];
      assert Before(fits[0], fit) by { assert fits[0] in fits; }
      var rest := Insert(fit, fits[1..]);
      assert forall f :: f in fits[1..] ==> Before(fits[0], f);
      [fits[0]] + rest
  }

  /** `fits.sort(key=(residual, mask))` for fits of distinct masks. */
  function Sorted(fits: seq<Fit>): (r: seq<Fit>)
    requires forall i, j :: 0 <= i < j < |fits| ==> fits[i].mask != fits[j].mask
    ensures Ordered(r) && |r| == |fits|
    ensures forall f :: f in r <==> f in fits
  {
    if fits == [] then []
    else
      var last := |fits| - 1;
      assert fits == fits[..last] + [fits[last]];
      Insert(fits[last], Sorted(fits[..last]))
  }

  // ---------------------------------------------------------------- the search

  /** One outcome per mask; an accepted one carries its own mask. */
  predicate Labelled(outcomes: seq<Option<Fit>>) {
    forall m :: 0 <= m < |outcomes| && outcomes[m].Some? ==> outcomes[m].value.mask == m
  }

  ghost predicate Has(outcomes: seq<Option<Fit>>, f: Fit) {
    f.mask < |outcomes| && outcomes[f.mask] == Some(f)
  }

  /** The first of the accepted fits by (residual, mask), its runner-up and its margin. */
  ghost predicate IsBest(outcomes: seq<Option<Fit>>, expected: Option<nat>, c: Classification) {
    match c
    case Invalid =>
      forall m :: 0 <= m < |outcomes| ==> outcomes[m].None?
    case Valid(mask, members, residual, runnerUp, margin, weights, disposition) =>
      var best := Fit(residual, mask, weights);
      && Has(outcomes, best)
      && members == PopCount(mask)
      && disposition == Disposed(expected, mask)
      && (forall f :: Has(outcomes, f) && f != best ==> Before(best, f))
      && (runnerUp.None? ==> margin.None? && forall f :: Has(outcomes, f) ==> f == best)
      && (runnerUp.Some? ==>
            && margin == Some(runnerUp.value - residual) && margin.value >= 0.0
            && (exists f :: Has(outcomes, f) && f != best && f.residual == runnerUp.value)
            && (forall f :: Has(outcomes, f) && f != best ==> runnerUp.value <= f.residual))
  }

  /** The classification read off the ordered fits. */
  function Classified(fits: seq<Fit>, expected: Option<nat>): Classification {
    if fits == [] then Invalid
    else
      var best := fits[0];
      var runnerUp := if |fits| > 1 then Some(fits[1].residual) else None;
      var margin := if |fits| > 1 then Some(fits[1].residual - best.residual) else None;
      Valid(best.mask, PopCount(best.mask), best.residual, runnerUp, margin, best.weights,
            Disposed(expected, best.mask))
  }

  lemma ClassifiedIsBest(sorted: seq<Fit>, outcomes: seq<Option<Fit>>, expected: Option<nat>)
    requires Ordered(sorted) && Labelled(outcomes)
    requires forall f :: f in sorted <==> Has(outcomes, f)
    ensures IsBest(outcomes, expected, Classified(sorted, expected))
  {
    if sorted == [] {
      forall m | 0 <= m < |outcomes|
        ensures outcomes[m].None?
      {
        assert outcomes[m].Some? ==> Has(outcomes, outcomes[m].value);
      }
    } else {
      assert sorted[0] in sorted;
      if |sorted| > 1 {
        assert sorted[1] in sorted && Before(sorted[0], sorted[1]);
      }
    }
  }

  /** Solves the normal equations of one mask on fresh copies of its Gram matrix. */
  method SolveNormalEquations(columns: seq<Vector>, target: Vector) returns (w: Option<Vector>)
    requires Columns(columns, |target|)
    ensures w == Weights(columns, target)
  {
    var gram, correlation := Gram(columns, |target|), Correlation(columns, target);
    var matrix := new Vector[|gram|](i requires 0 <= i < |gram| => gram[i]);
    var right := new real[|correlation|](i requires 0 <= i < |correlation| => correlation[i]);
    assert matrix[..] == gram && right[..] == correlation;
    w := Solve(matrix, right);
  }

  /** The weights of a mask written back to the eight lanes. */
  method Expand(lanes: seq<nat>, w: Vector) returns (expanded: Vector)
    requires |w| == |lanes|
    requires forall i :: 0 <= i < |lanes| ==> lanes[i] < STRING_COUNT
    requires forall i, j :: 0 <= i < j < |lanes| ==> lanes[i] < lanes[j]
    ensures expanded == Expanded(lanes, w, |w|)
  {
    expanded := seq(STRING_COUNT, i => 0.0);
    for i := 0 to |lanes|
      invariant expanded == Expanded(lanes, w, i)
    {
      expanded := expanded[lanes[i] := w[i]];
    }
  }

  /** Fits one mask, or rejects it. */
  method FitMask(p: Problem, mask: nat) returns (fit: Option<Fit>)
    requires p.Valid() && mask < MASK_END
    ensures fit == p.Outcomes()[mask]
  {
    if !p.Candidate(mask) {
      return None;
    }
    var columns := p.MemberColumns(mask);
    var weights := SolveNormalEquations(columns, p.target);
    if weights.None? || !AllAboveFloor(weights.value) {
      return None;
    }
    var expanded := Expand(Lanes(mask), weights.value);
    fit := Some(Fit(SquaredError(columns, weights.value, p.target), mask, expanded));
  }

  ghost predicate Collected(fits: seq<Fit>, outcomes: seq<Option<Fit>>, end: nat) {
    && (forall f :: f in fits <==> f.mask < end && Has(outcomes, f))
    && (forall i, j :: 0 <= i < j < |fits| ==> fits[i].mask < fits[j].mask)
  }

  lemma CollectNext(fits: seq<Fit>, outcomes: seq<Option<Fit>>, end: nat, fit: Option<Fit>)
    requires Labelled(outcomes) && end < |outcomes| && outcomes[end] == fit
    requires Collected(fits, outcomes, end)
    ensures Collected(if fit.Some? then fits + [fit.value] else fits, outcomes, end + 1)
  {
    assert forall i :: 0 <= i < |fits| ==> fits[i] in fits;
  }

  /** The exhaustive search: fit every mask, sort the fits and keep the first two. */
  method Search(p: Problem, expected: Option<nat>) returns (c: Classification)
    requires p.Valid()
    ensures IsBest(p.Outcomes(), expected, c)
  {
    ghost var outcomes := p.Outcomes();
    assert outcomes[0].None?;
    assert Labelled(outcomes);
    var fits: seq<Fit> := [];
    var mask := 1;
    while mask < MASK_END
      invariant 1 <= mask <= MASK_END
      invariant Collected(fits, outcomes, mask)
    {
      var fit := FitMask(p, mask);
      CollectNext(fits, outcomes, mask, fit);
      if fit.Some? {
        fits := fits + [fit.value];
      }
      mask := mask + 1;
    }
    c := Ranked(fits, outcomes, expected);
  }

  method Ranked(fits: seq<Fit>, ghost outcomes: seq<Option<Fit>>, expected: Option<nat>)
    returns (c: Classification)
    requires Labelled(outcomes) && Collected(fits, outcomes, |outcomes|)
    ensures IsBest(outcomes, expected, c)
  {
    ClassifiedIsBest(Sorted(fits), outcomes, expected);
    c := Classified(Sorted(fits), expected);
  }

  // ---------------------------------------------------------------- the entry point

  /** A usable spectral fingerprint: full size, no negative feature, some energy. */
  predicate IsFingerprint(values: Vector) {
    && |values| == FEATURE_COUNT
    && (forall i :: 0 <= i < |values| ==> values[i] >= 0.0)
    && (exists i :: 0 <= i < |values| && values[i] > 0.0)
  }

  predicate PlaysOn(lane: int, midiNote: int) {
    0 <= lane < STRING_COUNT && 0 <= midiNote - OPEN_NOTES[lane] <= 24
  }

  /** A template entry is usable: a real lane, and a fingerprint if the note plays there. */
  predicate Usable(template: (int, Vector), midiNote: int) {
    && 0 <= template.0 < STRING_COUNT
    && (PlaysOn(template.0, midiNote) ==> IsFingerprint(template.1))
  }

  ghost predicate Admissible(
    observed: Vector, templates: seq<(int, Vector)>, midiNote: int, minimum: int, maximum: int)
  {
    && 2 <= minimum <= maximum <= 4
    && IsFingerprint(observed)
    && forall i :: 0 <= i < |templates| ==> Usable(templates[i], midiNote)
  }

  /** The problem poses exactly the playable templates, and its mask exactly their lanes. */
  ghost predicate Poses(p: Problem, templates: seq<(int, Vector)>, midiNote: int) {
    && (forall lane: nat :: Bit(p.playable, lane) <==> lane in p.bank)
    && (forall lane: nat :: lane in p.bank <==>
          exists i :: 0 <= i < |templates| && templates[i].0 == lane && PlaysOn(lane, midiNote))
    && (forall i :: 0 <= i < |templates| && templates[i].0 >= 0 && templates[i].0 in p.bank ==>
          p.bank[templates[i].0] == templates[i].1)
  }

  lemma RealLane(template: (int, Vector), midiNote: int)
    requires Usable(template, midiNote)
    ensures template.0 >= 0
  {
  }

  lemma PosesNext(p: Problem, templates: seq<(int, Vector)>, k: nat, midiNote: int, q: Problem)
    requires k < |templates| && Usable(templates[k], midiNote)
    requires forall i, j :: 0 <= i < j < |templates| ==> templates[i].0 != templates[j].0
    requires Poses(p, templates[..k], midiNote)
    requires var lane := templates[k].0;
      if PlaysOn(lane, midiNote)
      then q == p.(bank := p.bank[lane := templates[k].1], playable := SetBit(p.playable, lane))
      else q == p
    ensures Poses(q, templates[..k + 1], midiNote)
  {
    hide PlaysOn, IsFingerprint, SetBit, Bit;
    var lane := templates[k].0;
    var before, now := templates[..k], templates[..k + 1];
    RealLane(templates[k], midiNote);
    assert now == before + [templates[k]];
    if PlaysOn(lane, midiNote) {
      forall l: nat
        ensures Bit(q.playable, l) <==> l in q.bank
      {
        SetBitBits(p.playable, lane, l);
      }
    }
    forall l: nat
      ensures l in q.bank <==>
        exists i :: 0 <= i < |now| && now[i].0 == l && PlaysOn(l, midiNote)
    {
      if l == lane {
        assert now[k].0 == l;
      } else if l in p.bank {
        var i :| 0 <= i < |before| && before[i].0 == l;
        assert now[i].0 == l;
      } else {
        forall i | 0 <= i < |now| && now[i].0 == l
          ensures i < |before| && before[i].0 == l
        {
        }
      }
    }
  }

  /** One more template of the bank, unless its lane or its fingerprint is refused. */
  method PoseTemplate(p: Problem, templates: seq<(int, Vector)>, k: nat, midiNote: int)
    returns (r: Result<Problem, Error>)
    requires k < |templates| && Poses(p, templates[..k], midiNote) && FullSize(p)
    requires forall i, j :: 0 <= i < j < |templates| ==> templates[i].0 != templates[j].0
    ensures r.Ok? <==> Usable(templates[k], midiNote)
    ensures r.Ok? ==>
      && Poses(r.value, templates[..k + 1], midiNote) && FullSize(r.value)
      && r.value.target == p.target && r.value.minimum == p.minimum && r.value.maximum == p.maximum
  {
    var (lane, fingerprint) := templates[k];
    if !(0 <= lane < STRING_COUNT) {
      return Err(LaneRange);
    }
    var q := p;
    if PlaysOn(lane, midiNote) {
      if !IsFingerprint(fingerprint) {
        return Err(Fingerprint);
      }
      q := p.(bank := p.bank[lane := fingerprint], playable := SetBit(p.playable, lane));
    }
    PosesNext(p, templates, k, midiNote, q);
    r := Ok(q);
  }

  // ---------------------------------------------------------------- what is looked at

  /**
   * The weights that elimination of the normal equations gives for these lanes: as many as the bounds
   * allow, each with a template that plays the note within 24 frets, and all weights above 1/10^9.
   */
  ghost predicate Fits(
    templates: seq<(int, Vector)>, midiNote: int, target: Vector, minimum: int, maximum: int,
    lanes: seq<nat>, columns: seq<Vector>, w: Vector)
  {
    && minimum <= |lanes| <= maximum && |columns| == |w| == |lanes| && Columns(columns, |target|)
    && (forall i, j :: 0 <= i < j < |lanes| ==> lanes[i] < lanes[j])
    && (forall i :: 0 <= i < |lanes| ==>
          lanes[i] < 8 && 0 <= midiNote - (32 + 4 * lanes[i]) <= 24 && (lanes[i] as int, columns[i]) in templates)
    && Weights(columns, target) == Some(w)
    && forall i :: 0 <= i < |w| ==> w[i] > 1.0 / 1000000000.0
  }

  /** The answer read as lanes: the least error of all that fit, and the weights of one that has it. */
  ghost predicate Answers(
    templates: seq<(int, Vector)>, midiNote: int, target: Vector, minimum: int, maximum: int, c: Classification)
  {
    match c
    case Invalid =>
      forall lanes, columns, w :: !Fits(templates, midiNote, target, minimum, maximum, lanes, columns, w)
    case Valid(mask, members, residual, _, _, weights, _) =>
      && (exists lanes, columns, w ::
            && Fits(templates, midiNote, target, minimum, maximum, lanes, columns, w)
            && members == |lanes| && residual == SquaredError(columns, w, target) && Spread(lanes, w, weights)
            && forall lane: nat :: Bit(mask, lane) <==> lane in lanes)
      && forall lanes, columns, w :: Fits(templates, midiNote, target, minimum, maximum, lanes, columns, w) ==>
           residual <= SquaredError(columns, w, target)
  }

  /** Each lane has its weight, and every other lane zero. */
  predicate Spread(lanes: seq<nat>, w: Vector, weights: Vector) {
    && |w| == |lanes| && |weights| == 8
    && (forall i :: 0 <= i < |lanes| ==> lanes[i] < 8 && weights[lanes[i]] == w[i])
    && forall lane: nat :: lane < 8 && lane !in lanes ==> weights[lane] == 0.0
  }

  lemma LanesOfMask(lanes: seq<nat>)
    requires forall i, j :: 0 <= i < j < |lanes| ==> lanes[i] < lanes[j]
    requires forall i :: 0 <= i < |lanes| ==> lanes[i] < STRING_COUNT
    ensures MaskOf(lanes) < MASK_END && Lanes(MaskOf(lanes)) == lanes
    ensures forall lane: nat :: Bit(MaskOf(lanes), lane) <==> lane in lanes
  {
    var mask := MaskOf(lanes);
    forall lane: nat
      ensures Bit(mask, lane) <==> lane in lanes
    {
      MaskOfBits(lanes, lane);
    }
    LowBitsAreSmall(mask, STRING_COUNT);
    EightLanes();
    AscendingIsUnique(Lanes(mask), lanes);
  }

  lemma EightLanes()
    ensures Pow2(STRING_COUNT) == MASK_END
  {
    assert Pow2(1) == 2 && Pow2(2) == 4 && Pow2(4) == 16;
    assert Pow2(6) == 64;
  }

  lemma MaskHasItsLanes(mask: nat)
    requires mask < MASK_END
    ensures PopCount(mask) == |Lanes(mask)|
    ensures forall i, j :: 0 <= i < j < |Lanes(mask)| ==> Lanes(mask)[i] < Lanes(mask)[j]
    ensures forall lane: nat :: Bit(mask, lane) <==> lane in Lanes(mask)
  {
    EightLanes();
    PopCountCountsLanes(mask, STRING_COUNT);
    forall lane: nat
      ensures Bit(mask, lane) <==> lane in Lanes(mask)
    {
      if lane >= STRING_COUNT {
        HighBitsAreClear(mask, STRING_COUNT, lane);
      }
    }
  }

  /** A playable lane has a template that plays the note, which is its column. */
  lemma PlayableIsPosed(p: Problem, templates: seq<(int, Vector)>, midiNote: int, lane: nat)
    requires Poses(p, templates, midiNote) && Bit(p.playable, lane)
    ensures lane in p.bank && lane < 8 && 0 <= midiNote - (32 + 4 * lane) <= 24
    ensures (lane as int, p.bank[lane]) in templates
  {
    var k :| 0 <= k < |templates| && templates[k].0 == lane && PlaysOn(lane, midiNote);
    assert templates[k] in templates;
  }

  lemma PosedIsPlayable(p: Problem, templates: seq<(int, Vector)>, midiNote: int, lane: nat, column: Vector)
    requires Poses(p, templates, midiNote) && lane < 8 && 0 <= midiNote - (32 + 4 * lane) <= 24
    requires (lane as int, column) in templates
    ensures Bit(p.playable, lane) && lane in p.bank && p.bank[lane] == column
  {
    var k :| 0 <= k < |templates| && templates[k] == (lane as int, column);
    assert PlaysOn(lane, midiNote);
  }

  /** A fit of a mask is a fit of its lanes. */
  lemma FitOfMaskFits(p: Problem, templates: seq<(int, Vector)>, midiNote: int, mask: nat)
    requires p.Valid() && Poses(p, templates, midiNote) && mask < MASK_END && p.FitOf(mask).Some?
    ensures p.Candidate(mask) && Weights(p.MemberColumns(mask), p.target).Some?
    ensures var columns := p.MemberColumns(mask); var w := Weights(columns, p.target).value;
      && Fits(templates, midiNote, p.target, p.minimum, p.maximum, Lanes(mask), columns, w)
      && p.FitOf(mask).value.residual == SquaredError(columns, w, p.target)
      && Spread(Lanes(mask), w, p.FitOf(mask).value.weights)
  {
    hide Weights, SquaredError, Poses, Lanes, Problem.FitOf, Expanded, Spread;
    FitOfSays(p, mask);
    MaskHasItsLanes(mask);
    AndIsFirstWhenWithin(mask, p.playable);
    var lanes, columns := Lanes(mask), p.MemberColumns(mask);
    forall i | 0 <= i < |lanes|
      ensures lanes[i] < 8 && 0 <= midiNote - (32 + 4 * lanes[i]) <= 24 && (lanes[i] as int, columns[i]) in templates
    {
      assert lanes[i] in lanes;
      PlayableIsPosed(p, templates, midiNote, lanes[i]);
    }
    ExpandedIsSpread(lanes, Weights(columns, p.target).value);
  }

  lemma FitOfSays(p: Problem, mask: nat)
    requires p.Valid() && p.FitOf(mask).Some?
    ensures p.Candidate(mask) && Weights(p.MemberColumns(mask), p.target).Some?
    ensures var columns := p.MemberColumns(mask); var w := Weights(columns, p.target).value;
      && AllAboveFloor(w)
      && p.FitOf(mask).value == Fit(SquaredError(columns, w, p.target), mask, Expanded(Lanes(mask), w, |w|))
  {
    hide Weights, SquaredError, Expanded, Lanes;
  }

  lemma ExpandedIsSpread(lanes: seq<nat>, w: Vector)
    requires |w| == |lanes| && forall i :: 0 <= i < |lanes| ==> lanes[i] < STRING_COUNT
    requires forall i, j :: 0 <= i < j < |lanes| ==> lanes[i] < lanes[j]
    ensures Spread(lanes, w, Expanded(lanes, w, |w|))
  {
    assert lanes[..|w|] == lanes;
  }

  lemma PosedLanesAreWithin(
    p: Problem, templates: seq<(int, Vector)>, midiNote: int, lanes: seq<nat>, columns: seq<Vector>, mask: nat)
    requires Poses(p, templates, midiNote) && |columns| == |lanes|
    requires forall i :: 0 <= i < |lanes| ==>
      lanes[i] < 8 && 0 <= midiNote - (32 + 4 * lanes[i]) <= 24 && (lanes[i] as int, columns[i]) in templates
    requires forall lane: nat :: Bit(mask, lane) <==> lane in lanes
    ensures And(mask, p.playable) == mask
    ensures forall i :: 0 <= i < |lanes| ==> lanes[i] in p.bank && p.bank[lanes[i]] == columns[i]
  {
    hide Poses;
    forall i | 0 <= i < |lanes|
      ensures Bit(p.playable, lanes[i]) && lanes[i] in p.bank && p.bank[lanes[i]] == columns[i]
    {
      PosedIsPlayable(p, templates, midiNote, lanes[i], columns[i]);
    }
    AndIsFirstWhenWithin(mask, p.playable);
  }

  /** A fit of lanes is the fit of their mask. */
  lemma FitsIsFitOfMask(
    p: Problem, templates: seq<(int, Vector)>, midiNote: int, lanes: seq<nat>, columns: seq<Vector>, w: Vector)
    requires p.Valid() && Poses(p, templates, midiNote) && p.minimum >= 1
    requires Fits(templates, midiNote, p.target, p.minimum, p.maximum, lanes, columns, w)
    ensures MaskOf(lanes) < MASK_END && p.FitOf(MaskOf(lanes)).Some?
    ensures p.FitOf(MaskOf(lanes)).value.residual == SquaredError(columns, w, p.target)
  {
    hide Weights, SquaredError, Poses, Lanes, And, PopCount, MaskOf;
    LanesOfMask(lanes);
    var mask := MaskOf(lanes);
    MaskHasItsLanes(mask);
    PosedLanesAreWithin(p, templates, midiNote, lanes, columns, mask);
    assert Bit(mask, lanes[0]);
    ZeroHasNoBits(lanes[0]);
    assert p.Candidate(mask);
    assert p.MemberColumns(mask) == columns;
  }

  /** The best of the outcomes answers in terms of lanes, templates and weights. */
  lemma BestAnswers(
    p: Problem, templates: seq<(int, Vector)>, midiNote: int, expected: Option<nat>, c: Classification)
    requires p.Valid() && Poses(p, templates, midiNote) && p.minimum >= 1 && IsBest(p.Outcomes(), expected, c)
    ensures Answers(templates, midiNote, p.target, p.minimum, p.maximum, c)
  {
    hide IsBest, Poses, Weights, SquaredError, Spread, Problem.FitOf, Lanes, MaskOf, PopCount;
    forall lanes, columns, w | Fits(templates, midiNote, p.target, p.minimum, p.maximum, lanes, columns, w)
      ensures c.Valid? && c.residual <= SquaredError(columns, w, p.target)
    {
      FitsIsFitOfMask(p, templates, midiNote, lanes, columns, w);
      assert Has(p.Outcomes(), p.FitOf(MaskOf(lanes)).value);
      BestIsLeast(p.Outcomes(), expected, c, p.FitOf(MaskOf(lanes)).value);
    }
    if c.Valid? {
      BestIsOne(p.Outcomes(), expected, c);
      FitOfMaskFits(p, templates, midiNote, c.mask);
      MaskHasItsLanes(c.mask);
    }
  }

  lemma BestIsOne(outcomes: seq<Option<Fit>>, expected: Option<nat>, c: Classification)
    requires IsBest(outcomes, expected, c) && c.Valid?
    ensures Has(outcomes, Fit(c.residual, c.mask, c.weights)) && c.members == PopCount(c.mask)
  {
  }

  predicate FullSize(p: Problem) {
    forall lane :: lane in p.bank ==> |p.bank[lane]| == FEATURE_COUNT
  }

  /** `classify_feasible_masks`, on fingerprints that already have unit length. */
  method Classify(
    observed: Vector, templates: seq<(int, Vector)>, midiNote: int,
    minimum: int, maximum: int, expected: Option<nat>)
    returns (r: Result<Classification, Error>, ghost p: Problem)
    requires forall i, j :: 0 <= i < j < |templates| ==> templates[i].0 != templates[j].0
    ensures r.Ok? <==> Admissible(observed, templates, midiNote, minimum, maximum)
    ensures r.Ok? ==>
      && p.Valid() && p.target == observed && p.minimum == minimum && p.maximum == maximum
      && Poses(p, templates, midiNote)
      && IsBest(p.Outcomes(), expected, r.value)
      && Answers(templates, midiNote, observed, minimum, maximum, r.value)
  {
    p := Problem(map[], 0, observed, 0, 0);
    if !(2 <= minimum <= maximum <= 4) {
      return Err(MemberBounds), p;
    }
    if !IsFingerprint(observed) {
      return Err(Fingerprint), p;
    }
    var problem: Result<Problem, Error> := Ok(Problem(map[], 0, observed, minimum, maximum));
    NoLanesYet(problem.value, templates[..0], midiNote);
    var k := 0;
    while k < |templates| && problem.Ok?
      invariant 0 <= k <= |templates|
      invariant problem.Ok? <==> forall i :: 0 <= i < k ==> Usable(templates[i], midiNote)
      invariant problem.Ok? ==>
        && problem.value.target == observed && problem.value.minimum == minimum && problem.value.maximum == maximum
        && Poses(problem.value, templates[..k], midiNote) && FullSize(problem.value)
    {
      problem := PoseTemplate(problem.value, templates, k, midiNote);
      k := k + 1;
    }
    if problem.Err? {
      return Err(problem.error), p;
    }
    assert templates[..k] == templates;
    p := problem.value;
    var c := Search(problem.value, expected);
    BestAnswers(p, templates, midiNote, expected, c);
    r := Ok(c);
  }

  lemma NoLanesYet(p: Problem, templates: seq<(int, Vector)>, midiNote: int)
    requires p.bank == map[] && p.playable == 0 && templates == []
    ensures Poses(p, templates, midiNote)
  {
    forall lane: nat
      ensures !Bit(0, lane)
    {
      ZeroHasNoBits(lane);
    }
  }

  /** No real weights on any accepted mask fit the fingerprint better than the winner. */
  lemma WinnerFitsBest(
    p: Problem, expected: Option<nat>, c: Classification, mask: nat, v: Vector)
    requires p.Valid() && IsBest(p.Outcomes(), expected, c)
    requires mask < MASK_END && p.FitOf(mask).Some? && |v| == |Lanes(mask)|
    ensures c.Valid? && c.residual <= SquaredError(p.MemberColumns(mask), v, p.target)
    ensures c.residual == SquaredError(p.MemberColumns(mask), v, p.target) && mask <= c.mask ==>
      mask == c.mask && c.weights == Expanded(Lanes(mask), v, |v|)
  {
    hide IsBest, Weights, SquaredError, Expanded;
    var fit := p.FitOf(mask).value;
    assert Has(p.Outcomes(), fit);
    BestIsLeast(p.Outcomes(), expected, c, fit);
    WeightsAreBest(p.MemberColumns(mask), p.target, v);
  }

  lemma BestIsLeast(outcomes: seq<Option<Fit>>, expected: Option<nat>, c: Classification, f: Fit)
    requires IsBest(outcomes, expected, c) && Has(outcomes, f)
    ensures c.Valid? && c.residual <= f.residual
    ensures c.residual == f.residual && f.mask <= c.mask ==> f.mask == c.mask && f.weights == c.weights
  {
  }
}
