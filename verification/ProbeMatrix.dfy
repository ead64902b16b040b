/**
 * The crash-safe probe matrix: directories, renames, an attempt marker and a lock file, with a
 * crash possible after every file-system effect.
 */
module ProbeMatrix {
  import opened Results

  /** Sample rate and block size. */
  type RowId = (int, int)

  const UNKNOWN_ROW: RowId := (0, 0)

  /** The attempt marker of a directory; a document names a row unless its schema or row is unknown. */
  datatype Marker =
    | NoMarker
    | Unreadable
    | Document(row: Option<RowId>, current: bool)

  /** The staged results: their marker, and whether the phase log ends with the finish phase. */
  datatype Staging = Staging(marker: Marker, finished: bool)

  /** A preserved invalid attempt: its row, and whether its name says it was recovered. */
  datatype Invalid = Invalid(row: RowId, recovered: bool, marker: Marker)

  /** `exitMarker` is the mark of a guarded process group whose end was not confirmed. */
  datatype Disk = Disk(
    lock: bool,
    exitMarker: bool,
    batches: set<RowId>,
    pending: multiset<RowId>,
    invalid: multiset<Invalid>,
    staging: Option<Staging>)

  /** The disk, and every launch of the guarded command so far. */
  datatype World = World(disk: Disk, launches: multiset<RowId>)

  const START := World(Disk(false, false, {}, multiset{}, multiset{}, None), multiset{})

  /** `_blocks_current_namespace`. */
  predicate Blocks(attempt: Invalid) {
    !attempt.recovered || !attempt.marker.Document? || attempt.marker.current
  }

  ghost predicate Blocked(disk: Disk, row: RowId) {
    exists attempt :: attempt in disk.invalid && attempt.row == row && Blocks(attempt)
  }

  /** The staged marker names this row in the current namespace. */
  predicate Staged(disk: Disk, row: RowId) {
    disk.staging.Some? && disk.staging.value.marker == Document(Some(row), true)
  }

  /** Something on disk says that the row was attempted. */
  ghost predicate Evidence(disk: Disk, row: RowId) {
    Staged(disk, row) || row in disk.pending || Blocked(disk, row) || row in disk.batches
  }

  /** Evidence of a row outside the staged results. */
  ghost predicate OtherEvidence(disk: Disk, row: RowId) {
    row in disk.pending || Blocked(disk, row) || row in disk.batches
  }

  /** The invariant: a launched row ran once and left evidence; a committed row did run. */
  ghost predicate Safe(matrix: seq<RowId>, w: World) {
    && (forall row :: w.launches[row] <= 1)
    && (forall row :: row in w.launches ==> row in matrix && Evidence(w.disk, row))
    && (forall row :: row in w.disk.batches ==> row in w.launches)
  }

  /** After recovery: no pending directory, and the staged marker is only that of a committed row. */
  ghost predicate Recovered(w: World) {
    && w.disk.pending == multiset{}
    && forall row :: row in w.launches && Staged(w.disk, row) ==> row in w.disk.batches
  }

  /** `_staging_attempt_row`. */
  function StagedRow(matrix: seq<RowId>, marker: Marker): Option<RowId> {
    match marker
    case NoMarker => None
    case Unreadable => Some(UNKNOWN_ROW)
    case Document(row, _) =>
      if row.Some? && row.value in matrix then row else Some(UNKNOWN_ROW)
  }

  // ---------------------------------------------------------------- atomic effects

  datatype Effect =
    | Lock(present: bool)
    | ExitMarker(present: bool)
    | Archive(row: RowId)
    | Open(row: RowId)
    | Seal(row: RowId)
    | Commit(row: RowId)
    | Stage(staging: Option<Staging>)
    | SealStaging(owner: RowId, recovered: bool)
    | Launch(row: RowId)

  function WithStaging(disk: Disk, staging: Option<Staging>): Disk {
    disk.(staging := staging)
  }

  function Sealed(disk: Disk, attempt: Invalid): Disk {
    disk.(invalid := disk.invalid + multiset{attempt})
  }

  /** Batches, pending directories and staged results are sealed by renaming them to an invalid directory. */
  function OnDisk(disk: Disk, e: Effect): Disk {
    match e
    case Lock(present) => disk.(lock := present)
    case ExitMarker(present) => disk.(exitMarker := present)
    case Archive(row) => Sealed(disk.(batches := disk.batches - {row}), Invalid(row, false, NoMarker))
    case Open(row) => disk.(pending := disk.pending + multiset{row})
    case Seal(row) => Sealed(disk.(pending := disk.pending - multiset{row}), Invalid(row, false, NoMarker))
    case Commit(row) => disk.(pending := disk.pending - multiset{row}, batches := disk.batches + {row})
    case Stage(staging) => WithStaging(disk, staging)
    case SealStaging(owner, recovered) =>
      if disk.staging.None? then disk
      else Sealed(WithStaging(disk, None), Invalid(owner, recovered, disk.staging.value.marker))
    case Launch(_) => disk
  }

  function Apply(w: World, e: Effect): World {
    World(OnDisk(w.disk, e), if e.Launch? then w.launches + multiset{e.row} else w.launches)
  }

  function ApplyAll(w: World, effects: seq<Effect>): World
    decreases |effects|
  {
    if effects == [] then w else ApplyAll(Apply(w, effects[0]), effects[1..])
  }

  lemma {:induction false} ApplyJoin(w: World, a: seq<Effect>, b: seq<Effect>)
    ensures ApplyAll(w, a + b) == ApplyAll(ApplyAll(w, a), b)
    decreases |a|
  {
    if a == [] {
      assert a + b == b;
    } else {
      assert (a + b)[1..] == a[1..] + b;
      ApplyJoin(Apply(w, a[0]), a[1..], b);
    }
  }

  lemma ApplyOne(w: World, e: Effect)
    ensures ApplyAll(w, [e]) == Apply(w, e)
  {
    var effects := [e];
    assert effects[0] == e && effects[1..] == [];
    assert ApplyAll(Apply(w, e), effects[1..]) == Apply(w, e);
  }

  function Launched(effects: seq<Effect>): multiset<RowId> {
    if effects == [] then multiset{}
    else (if effects[0].Launch? then multiset{effects[0].row} else multiset{}) + Launched(effects[1..])
  }

  lemma {:induction false} ApplyLaunches(w: World, effects: seq<Effect>)
    ensures ApplyAll(w, effects).launches == w.launches + Launched(effects)
    decreases |effects|
  {
    if effects != [] {
      ApplyLaunches(Apply(w, effects[0]), effects[1..]);
    }
  }

  lemma {:induction false} LaunchedJoin(a: seq<Effect>, b: seq<Effect>)
    ensures Launched(a + b) == Launched(a) + Launched(b)
    decreases |a|
  {
    if a == [] {
      assert a + b == b;
    } else {
      assert (a + b)[1..] == a[1..] + b;
      LaunchedJoin(a[1..], b);
    }
  }

  // ---------------------------------------------------------------- effects keep the invariant

  /** What the protocol must have established before an effect. */
  ghost predicate Allowed(matrix: seq<RowId>, w: World, e: Effect) {
    match e
    case Lock(_) => true
    case ExitMarker(_) => true
    case Archive(row) => row in w.disk.batches
    case Open(_) => true
    case Seal(row) => row in w.disk.pending
    case Commit(row) => row in w.disk.pending && row in w.launches
    case Stage(staging) =>
      forall row :: row in w.launches && Staged(w.disk, row) ==>
        OtherEvidence(w.disk, row) || Staged(WithStaging(w.disk, staging), row)
    case SealStaging(owner, _) =>
      w.disk.staging.Some? && forall row :: row in matrix && Staged(w.disk, row) ==> owner == row
    case Launch(row) => row in matrix && row !in w.launches && Staged(w.disk, row)
  }

  lemma BlockedStays(before: Disk, after: Disk)
    requires before.invalid <= after.invalid
    ensures forall row :: Blocked(before, row) ==> Blocked(after, row)
  {
    forall row | Blocked(before, row)
      ensures Blocked(after, row)
    {
      var attempt :| attempt in before.invalid && attempt.row == row && Blocks(attempt);
      assert attempt in after.invalid;
    }
  }

  lemma SameAttempts(before: Disk, after: Disk)
    requires before.invalid == after.invalid
    ensures forall row :: Blocked(before, row) == Blocked(after, row)
  {
  }

  lemma SealedIsBlocked(before: Disk, after: Disk, attempt: Invalid)
    requires after.invalid == before.invalid + multiset{attempt} && Blocks(attempt)
    ensures Blocked(after, attempt.row)
  {
    assert attempt in after.invalid;
  }

  lemma InvalidGrows(w: World, e: Effect)
    ensures w.disk.invalid <= Apply(w, e).disk.invalid
  {
  }

  /** The effect renames evidence of the row to an invalid directory. */
  predicate SealsEvidence(disk: Disk, e: Effect, row: RowId) {
    if e.SealStaging? then Staged(disk, row) else (e.Archive? || e.Seal?) && e.row == row
  }

  /** The sealed row of an archived batch, a pending directory or staged results stays refused. */
  lemma SealedRowIsBlocked(matrix: seq<RowId>, w: World, e: Effect, row: RowId)
    requires Allowed(matrix, w, e) && row in matrix
    requires SealsEvidence(w.disk, e, row)
    ensures Blocked(Apply(w, e).disk, row)
  {
    if e.SealStaging? {
      SealedIsBlocked(w.disk, Apply(w, e).disk, Invalid(e.owner, e.recovered, w.disk.staging.value.marker));
    } else {
      SealedIsBlocked(w.disk, Apply(w, e).disk, Invalid(e.row, false, NoMarker));
    }
  }

  /** An effect before which everything was safe leaves the evidence of every launched row. */
  lemma EvidenceStays(matrix: seq<RowId>, w: World, e: Effect, row: RowId)
    requires Evidence(w.disk, row) && Allowed(matrix, w, e) && row in matrix && row in w.launches
    ensures Evidence(Apply(w, e).disk, row)
  {
    InvalidGrows(w, e);
    BlockedStays(w.disk, Apply(w, e).disk);
    if SealsEvidence(w.disk, e, row) {
      SealedRowIsBlocked(matrix, w, e, row);
    }
    hide Blocked;
  }

  /** An allowed effect keeps the invariant and every preserved attempt. */
  lemma AllowedIsSafe(matrix: seq<RowId>, w: World, e: Effect)
    requires Safe(matrix, w) && Allowed(matrix, w, e)
    ensures Safe(matrix, Apply(w, e)) && w.disk.invalid <= Apply(w, e).disk.invalid
  {
    hide Blocked, Evidence, OtherEvidence;
    InvalidGrows(w, e);
    forall row | row in w.launches
      ensures Evidence(Apply(w, e).disk, row)
    {
      EvidenceStays(matrix, w, e, row);
    }
    if e.Launch? {
      LaunchedIsStaged(w.disk, e.row);
    }
  }

  lemma LaunchedIsStaged(disk: Disk, row: RowId)
    requires Staged(disk, row)
    ensures Evidence(disk, row)
  {
  }

  ghost predicate AllAllowed(matrix: seq<RowId>, w: World, effects: seq<Effect>)
    decreases |effects|
  {
    effects == [] || (Allowed(matrix, w, effects[0]) && AllAllowed(matrix, Apply(w, effects[0]), effects[1..]))
  }

  lemma {:induction false} AllowedJoin(matrix: seq<RowId>, w: World, a: seq<Effect>, b: seq<Effect>)
    ensures AllAllowed(matrix, w, a + b) <==> AllAllowed(matrix, w, a) && AllAllowed(matrix, ApplyAll(w, a), b)
    decreases |a|
  {
    if a == [] {
      assert a + b == b;
    } else {
      assert (a + b)[1..] == a[1..] + b;
      AllowedJoin(matrix, Apply(w, a[0]), a[1..], b);
    }
  }

  predicate LockUntouched(effects: seq<Effect>) {
    forall e :: e in effects ==> !e.Lock?
  }

  lemma FirstUntouched(w: World, effects: seq<Effect>)
    requires effects != [] && LockUntouched(effects)
    ensures LockUntouched(effects[1..]) && Apply(w, effects[0]).disk.lock == w.disk.lock
  {
    assert effects[0] in effects;
  }

  /** Stopped after any number of allowed effects, the invariant holds and nothing preserved is lost. */
  lemma {:induction false} PrefixIsSafe(matrix: seq<RowId>, w: World, effects: seq<Effect>, k: nat)
    requires Safe(matrix, w) && AllAllowed(matrix, w, effects) && k <= |effects|
    ensures var next := ApplyAll(w, effects[..k]);
      && Safe(matrix, next) && w.disk.invalid <= next.disk.invalid
      && (LockUntouched(effects) ==> next.disk.lock == w.disk.lock)
    decreases k
  {
    hide Safe, Allowed, OnDisk;
    if k > 0 {
      AllowedIsSafe(matrix, w, effects[0]);
      assert effects[..k][1..] == effects[1..][..k - 1];
      if LockUntouched(effects) {
        FirstUntouched(w, effects);
      }
      PrefixIsSafe(matrix, Apply(w, effects[0]), effects[1..], k - 1);
    }
  }

  // ---------------------------------------------------------------- the course of one row

  datatype Outcome = Crashed | Raised | Finished

  /** The effects of an undisturbed run, and whether it returns or raises. */
  datatype Course = Course(effects: seq<Effect>, returning: bool)

  function One(e: Effect): Course {
    Course([e], true)
  }

  function Check(passed: bool): Course {
    Course([], passed)
  }

  /** The second course follows unless the first one raises. */
  function Then(a: Course, b: Course): Course {
    if !a.returning then a else Course(a.effects + b.effects, b.returning)
  }

  /** Everything that the environment decides in a run of one row. */
  datatype Fate = Fate(
    batchValid: bool, markerLeft: bool, logLeft: bool, cleared: bool, staged: bool, stable: bool, contained: bool,
    started: bool, logFinished: bool, unconfirmed: bool, clean: bool, released: bool)

  /** What a deletion cut short leaves of the staged results. */
  function Remains(staging: Staging, f: Fate): Staging {
    Staging(if f.markerLeft then staging.marker else NoMarker, f.logLeft && staging.finished)
  }

  /** The staging tool: deletes the old results piece by piece and makes an empty directory. */
  function StageCourse(disk: Disk, f: Fate): Course {
    var anew := Then(One(Stage(None)), Then(Check(f.cleared),
      Then(One(Stage(Some(Staging(NoMarker, false)))), Check(f.staged))));
    if disk.staging.None? then anew else Then(One(Stage(Some(Remains(disk.staging.value, f)))), anew)
  }

  function Marked(row: RowId, finished: bool): Option<Staging> {
    Some(Staging(Document(Some(row), true), finished))
  }

  /** Writes the marker, and preserves the staged directory if the host is not stable. */
  function MarkCourse(row: RowId, f: Fate): Course {
    Then(One(Stage(Marked(row, false))),
      if f.stable then Check(true) else Then(One(SealStaging(row, false)), Check(false)))
  }

  /** The guarded command: launched unless containment is broken or it cannot start. */
  function LaunchCourse(row: RowId, f: Fate): Course {
    if !(f.contained && f.started) then Check(true)
    else Then(One(Launch(row)), Then(One(Stage(Marked(row, f.logFinished))), One(ExitMarker(f.unconfirmed))))
  }

  predicate Clean(f: Fate) {
    f.contained && f.started && !f.unconfirmed && f.clean
  }

  /** Copies the evidence to a pending directory, then commits it or preserves it as invalid. */
  function SettleCourse(row: RowId, passed: bool): Course {
    Then(One(Open(row)), if passed then One(Commit(row)) else Then(One(Seal(row)), Check(false)))
  }

  function AttemptCourse(row: RowId, f: Fate): Course {
    Then(MarkCourse(row, f), Then(LaunchCourse(row, f), SettleCourse(row, Clean(f))))
  }

  /** `_run_row_locked`. */
  function RowCourse(disk: Disk, row: RowId, f: Fate): Course {
    if row in disk.batches then
      if f.batchValid then Check(true) else Then(One(Archive(row)), Check(false))
    else if disk.exitMarker then SettleCourse(row, false)
    else Then(StageCourse(disk, f), AttemptCourse(row, f))
  }

  /** `run_row`: the lock, then the row. */
  function RunRowCourse(matrix: seq<RowId>, disk: Disk, row: RowId, f: Fate): Course {
    if row !in matrix || disk.lock then Check(false)
    else
      Then(One(Lock(true)), Then(RowCourse(disk.(lock := true), row, f),
        Then(Check(f.released), One(Lock(false)))))
  }

  // ---------------------------------------------------------------- the course keeps the invariant

  function After(w: World, c: Course): World {
    ApplyAll(w, c.effects)
  }

  ghost predicate May(matrix: seq<RowId>, w: World, c: Course) {
    AllAllowed(matrix, w, c.effects)
  }

  lemma MayThen(matrix: seq<RowId>, w: World, a: Course, b: Course)
    ensures May(matrix, w, Then(a, b)) <==> May(matrix, w, a) && (a.returning ==> May(matrix, After(w, a), b))
    ensures After(w, Then(a, b)) == if a.returning then After(After(w, a), b) else After(w, a)
  {
    if a.returning {
      AllowedJoin(matrix, w, a.effects, b.effects);
      ApplyJoin(w, a.effects, b.effects);
    }
  }

  lemma MayOne(matrix: seq<RowId>, w: World, e: Effect)
    ensures May(matrix, w, One(e)) <==> Allowed(matrix, w, e)
    ensures After(w, One(e)) == Apply(w, e)
  {
    var effects := One(e).effects;
    assert effects[0] == e && effects[1..] == [];
    assert AllAllowed(matrix, Apply(w, e), effects[1..]) && ApplyAll(Apply(w, e), effects[1..]) == Apply(w, e);
  }

  lemma MayCheck(matrix: seq<RowId>, w: World, passed: bool)
    ensures May(matrix, w, Check(passed)) && After(w, Check(passed)) == w
  {
  }

  lemma MayOneThen(matrix: seq<RowId>, w: World, e: Effect, b: Course)
    ensures May(matrix, w, Then(One(e), b)) <==> Allowed(matrix, w, e) && May(matrix, Apply(w, e), b)
    ensures After(w, Then(One(e), b)) == After(Apply(w, e), b)
  {
    MayOne(matrix, w, e);
    MayThen(matrix, w, One(e), b);
  }

  lemma MayCheckThen(matrix: seq<RowId>, w: World, passed: bool, b: Course)
    ensures May(matrix, w, Then(Check(passed), b)) <==> (passed ==> May(matrix, w, b))
    ensures After(w, Then(Check(passed), b)) == if passed then After(w, b) else w
  {
    MayCheck(matrix, w, passed);
    MayThen(matrix, w, Check(passed), b);
  }

  /** Once their marker is no evidence, the staged results may be replaced by anything. */
  lemma RestagingIsAllowed(matrix: seq<RowId>, w: World, staging: Option<Staging>)
    requires Recovered(w)
    ensures Allowed(matrix, w, Stage(staging))
  {
    hide Blocked;
  }

  lemma StillRecovered(w: World, staging: Option<Staging>, row: RowId)
    requires Recovered(w) && row !in w.launches
    requires staging == None || staging.value.marker in {NoMarker, Document(Some(row), true)}
          || (w.disk.staging.Some? && staging.value.marker == w.disk.staging.value.marker)
    ensures Recovered(Apply(w, Stage(staging)))
  {
  }

  lemma FreshIsAllowed(matrix: seq<RowId>, w: World, f: Fate, row: RowId)
    ensures var made := Stage(Some(Staging(NoMarker, false)));
      var anew := Then(One(Stage(None)), Then(Check(f.cleared), Then(One(made), Check(f.staged))));
      && (Recovered(w) && row !in w.launches ==> May(matrix, w, anew))
      && (anew.returning ==> After(w, anew) == Apply(w, made))
  {
    hide AllAllowed, Allowed, ApplyAll, After, May, Recovered;
    var made := Stage(Some(Staging(NoMarker, false)));
    var w1 := Apply(w, Stage(None));
    if Recovered(w) && row !in w.launches {
      RestagingIsAllowed(matrix, w, None);
      StillRecovered(w, None, row);
      RestagingIsAllowed(matrix, w1, made.staging);
    }
    MayCheck(matrix, Apply(w1, made), f.staged);
    MayOneThen(matrix, w1, made, Check(f.staged));
    MayCheckThen(matrix, w1, f.cleared, Then(One(made), Check(f.staged)));
    MayOneThen(matrix, w, Stage(None), Then(Check(f.cleared), Then(One(made), Check(f.staged))));
  }

  lemma StageIsAllowed(matrix: seq<RowId>, w: World, f: Fate, row: RowId)
    ensures var c := StageCourse(w.disk, f);
      && (Recovered(w) && row !in w.launches ==> May(matrix, w, c))
      && (c.returning ==> After(w, c) == Apply(w, Stage(Some(Staging(NoMarker, false)))))
  {
    FreshIsAllowed(matrix, w, f, row);
    if w.disk.staging.Some? {
      hide AllAllowed, Allowed, ApplyAll, After, May, Recovered;
      var cut := Some(Remains(w.disk.staging.value, f));
      if Recovered(w) && row !in w.launches {
        RestagingIsAllowed(matrix, w, cut);
        StillRecovered(w, cut, row);
      }
      FreshIsAllowed(matrix, Apply(w, Stage(cut)), f, row);
      MayOneThen(matrix, w, Stage(cut), StageCourse(WithStaging(w.disk, None), f));
    }
  }

  lemma SettleIsAllowed(matrix: seq<RowId>, w: World, row: RowId, passed: bool)
    ensures var c := SettleCourse(row, passed);
      && ((passed ==> row in w.launches) ==> May(matrix, w, c)) && c.returning == passed
      && After(w, c) == World(
           if passed then w.disk.(batches := w.disk.batches + {row})
           else Sealed(w.disk, Invalid(row, false, NoMarker)), w.launches)
  {
    hide AllAllowed, ApplyAll, After, May, Blocked;
    var w1 := Apply(w, Open(row));
    assert w.disk.pending + multiset{row} - multiset{row} == w.disk.pending;
    if passed {
      MayOne(matrix, w1, Commit(row));
      MayOneThen(matrix, w, Open(row), One(Commit(row)));
    } else {
      MayCheck(matrix, Apply(w1, Seal(row)), false);
      MayOneThen(matrix, w1, Seal(row), Check(false));
      MayOneThen(matrix, w, Open(row), Then(One(Seal(row)), Check(false)));
    }
  }

  lemma MarkIsAllowed(matrix: seq<RowId>, w: World, row: RowId, f: Fate)
    ensures var c := MarkCourse(row, f);
      && (Recovered(w) && row !in w.launches ==> May(matrix, w, c)) && c.returning == f.stable
      && (f.stable ==> After(w, c) == Apply(w, Stage(Marked(row, false))))
  {
    hide AllAllowed, ApplyAll, After, May, Blocked;
    var marked := Apply(w, Stage(Marked(row, false)));
    if Recovered(w) && row !in w.launches {
      RestagingIsAllowed(matrix, w, Marked(row, false));
    }
    if f.stable {
      MayCheck(matrix, marked, true);
      MayOneThen(matrix, w, Stage(Marked(row, false)), Check(true));
    } else {
      MayCheck(matrix, Apply(marked, SealStaging(row, false)), false);
      MayOneThen(matrix, marked, SealStaging(row, false), Check(false));
      MayOneThen(matrix, w, Stage(Marked(row, false)), Then(One(SealStaging(row, false)), Check(false)));
    }
  }

  lemma LaunchIsAllowed(matrix: seq<RowId>, w: World, row: RowId, f: Fate)
    requires w.disk.staging == Marked(row, false)
    ensures var c := LaunchCourse(row, f);
      && (row in matrix && row !in w.launches ==> May(matrix, w, c)) && c.returning
      && (f.contained && f.started ==>
            After(w, c) == World(w.disk.(staging := Marked(row, f.logFinished), exitMarker := f.unconfirmed),
                                 w.launches + multiset{row}))
      && (!(f.contained && f.started) ==> After(w, c) == w)
  {
    hide AllAllowed, ApplyAll, After, May, Blocked;
    MayCheck(matrix, w, true);
    if f.contained && f.started {
      var w1 := Apply(w, Launch(row));
      var w2 := Apply(w1, Stage(Marked(row, f.logFinished)));
      assert forall r :: Staged(w1.disk, r) ==> Staged(w2.disk, r);
      MayOne(matrix, w2, ExitMarker(f.unconfirmed));
      MayOneThen(matrix, w1, Stage(Marked(row, f.logFinished)), One(ExitMarker(f.unconfirmed)));
      MayOneThen(matrix, w, Launch(row), Then(One(Stage(Marked(row, f.logFinished))), One(ExitMarker(f.unconfirmed))));
    }
  }

  /** The disk after an attempt that reaches its end: a batch when clean, an invalid directory otherwise. */
  function Attempted(w: World, row: RowId, f: Fate): World {
    var launched := f.contained && f.started;
    var disk := WithStaging(w.disk, Marked(row, launched && f.logFinished))
      .(exitMarker := if launched then f.unconfirmed else w.disk.exitMarker);
    World(
      if Clean(f) then disk.(batches := disk.batches + {row}) else Sealed(disk, Invalid(row, false, NoMarker)),
      if launched then w.launches + multiset{row} else w.launches)
  }

  lemma AttemptIsAllowed(matrix: seq<RowId>, w: World, row: RowId, f: Fate)
    ensures var c := AttemptCourse(row, f);
      && (Recovered(w) && row in matrix && row !in w.launches ==> May(matrix, w, c))
      && c.returning == (f.stable && Clean(f)) && (f.stable ==> After(w, c) == Attempted(w, row, f))
  {
    hide AllAllowed, ApplyAll, After, May, Allowed, MarkCourse, LaunchCourse, SettleCourse, Recovered;
    var mark, launch, settle := MarkCourse(row, f), LaunchCourse(row, f), SettleCourse(row, Clean(f));
    MarkIsAllowed(matrix, w, row, f);
    if f.stable {
      var marked := After(w, mark);
      LaunchIsAllowed(matrix, marked, row, f);
      SettleIsAllowed(matrix, After(marked, launch), row, Clean(f));
      MayThen(matrix, marked, launch, settle);
    }
    MayThen(matrix, w, mark, Then(launch, settle));
  }

  /** A recovered row that ran at most once with a batch to show for it may run its course. */
  lemma RowIsAllowed(matrix: seq<RowId>, w: World, row: RowId, f: Fate)
    requires Recovered(w) && row in matrix && (row in w.launches ==> row in w.disk.batches)
    ensures var c := RowCourse(w.disk, row, f); var next := After(w, c);
      && May(matrix, w, c)
      && (c.returning ==>
            row in next.disk.batches && w.disk.batches <= next.disk.batches
            && Recovered(next) && next.disk.invalid == w.disk.invalid)
  {
    hide AllAllowed, ApplyAll, After, May, AttemptCourse, SettleCourse, StageCourse;
    if row in w.disk.batches {
      MayCheck(matrix, w, f.batchValid);
      MayCheck(matrix, Apply(w, Archive(row)), false);
      MayOneThen(matrix, w, Archive(row), Check(false));
    } else if w.disk.exitMarker {
      SettleIsAllowed(matrix, w, row, false);
    } else {
      var stage, attempt := StageCourse(w.disk, f), AttemptCourse(row, f);
      StageIsAllowed(matrix, w, f, row);
      if stage.returning {
        StillRecovered(w, Some(Staging(NoMarker, false)), row);
        AttemptIsAllowed(matrix, After(w, stage), row, f);
      }
      MayThen(matrix, w, stage, attempt);
    }
  }

  // ---------------------------------------------------------------- runs that get through

  /** The environment lets a row pass: no step fails, and the guarded command starts and ends cleanly. */
  predicate Good(f: Fate) {
    && f.batchValid && f.cleared && f.staged && f.stable && f.contained && f.started
    && !f.unconfirmed && f.clean
  }

  /** Nothing on the disk stops a run of the matrix: nothing to recover, and no attempt of the current namespace. */
  ghost predicate Clear(matrix: seq<RowId>, disk: Disk) {
    && disk.pending == multiset{} && !disk.exitMarker
    && (disk.staging.Some? ==>
          var Staging(marker, finished) := disk.staging.value;
          || marker.NoMarker?
          || (finished && marker.Document? && marker.row.Some? && marker.row.value in matrix
              && marker.row.value in disk.batches))
    && forall a :: a in disk.invalid && a.row in matrix ==> a.recovered && a.marker.Document? && !a.marker.current
  }

  /** What recovery must preserve of the staged results, as the attempt it becomes. */
  function LeftBehind(matrix: seq<RowId>, disk: Disk): Option<Invalid> {
    if disk.staging.None? || disk.staging.value.marker.NoMarker? then None
    else
      var marker := disk.staging.value.marker;
      var owner :=
        if marker.Document? && marker.row.Some? && marker.row.value in matrix then marker.row.value else UNKNOWN_ROW;
      if disk.staging.value.finished && owner in disk.batches then None else Some(Invalid(owner, true, marker))
  }

  lemma SealingIsAllowed(matrix: seq<RowId>, w: World, owner: RowId)
    requires w.disk.staging.Some?
    requires StagedRow(matrix, w.disk.staging.value.marker) in {None, Some(owner)}
    ensures Allowed(matrix, w, SealStaging(owner, true))
  {
  }

  lemma CommittedRanOnce(matrix: seq<RowId>, w: World)
    requires Safe(matrix, w)
    ensures forall row :: row in w.disk.batches ==> w.launches[row] == 1
  {
  }

  lemma ClearHasNoMarker(matrix: seq<RowId>, disk: Disk)
    requires Clear(matrix, disk)
    ensures !disk.exitMarker
  {
  }

  lemma ClearIsNotBlocked(matrix: seq<RowId>, disk: Disk, row: RowId)
    requires Clear(matrix, disk) && row in matrix
    ensures !Blocked(disk, row)
  {
  }

  lemma GoodRowReturns(w: World, row: RowId, f: Fate)
    requires Good(f) && !w.disk.exitMarker
    ensures var c := RowCourse(w.disk, row, f); c.returning && !After(w, c).disk.exitMarker
    ensures |RowCourse(w.disk, row, f).effects| <= ROW_EFFECTS
  {
    hide AllAllowed, ApplyAll, After, May, AttemptCourse, StageCourse, Recovered;
    RowIsShort(w.disk, row, f);
    if row in w.disk.batches {
      MayCheck([], w, true);
    } else {
      var stage, attempt := StageCourse(w.disk, f), AttemptCourse(row, f);
      StageLaunchesNothing(w.disk, f);
      StageIsAllowed([], w, f, row);
      AttemptIsAllowed([], After(w, stage), row, f);
      MayThen([], w, stage, attempt);
    }
  }

  /**
   * A run of a row returns exactly when its batch is there and valid, or nothing marks an unconfirmed
   * exit, every step succeeds, and the guarded command starts and ends cleanly and confirmed.
   */
  lemma RowReturnsExactly(disk: Disk, row: RowId, f: Fate)
    ensures RowCourse(disk, row, f).returning <==>
      if row in disk.batches then f.batchValid
      else
        && !disk.exitMarker && f.cleared && f.staged && f.stable && f.contained && f.started
        && f.clean && !f.unconfirmed
  {
    hide AllAllowed, ApplyAll, After, May, AttemptCourse, StageCourse, Recovered;
    StageLaunchesNothing(disk, f);
    AttemptIsAllowed([], World(disk, multiset{}), row, f);
  }

  /** A batch that is no longer valid is sealed, and a run that is refused for its exit marker is recorded. */
  lemma RefusedRowIsSealed(w: World, row: RowId, f: Fate)
    requires if row in w.disk.batches then !f.batchValid else w.disk.exitMarker
    ensures var next := After(w, RowCourse(w.disk, row, f));
      && next.launches == w.launches && row !in next.disk.batches
      && next.disk.invalid == w.disk.invalid + multiset{Invalid(row, false, NoMarker)}
  {
    hide AllAllowed, ApplyAll, After, May, AttemptCourse, StageCourse, Recovered;
    if row in w.disk.batches {
      MayCheck([], Apply(w, Archive(row)), false);
      MayOneThen([], w, Archive(row), Check(false));
    } else {
      SettleIsAllowed([], w, row, false);
    }
  }

  /** More effects than a run of one row has. */
  const ROW_EFFECTS := 10

  lemma LongThen(a: Course, b: Course)
    ensures |Then(a, b).effects| <= |a.effects| + |b.effects|
  {
  }

  lemma RowIsShort(disk: Disk, row: RowId, f: Fate)
    ensures |RowCourse(disk, row, f).effects| <= ROW_EFFECTS
  {
    hide StageCourse, AttemptCourse, Then;
    StageIsShort(disk, f);
    AttemptIsShort(row, f);
    SettleIsShort(row, false);
    LongThen(StageCourse(disk, f), AttemptCourse(row, f));
    LongThen(One(Archive(row)), Check(false));
  }

  lemma StageIsShort(disk: Disk, f: Fate)
    ensures |StageCourse(disk, f).effects| <= 3
  {
    hide Then;
    var made := Stage(Some(Staging(NoMarker, false)));
    LongThen(One(made), Check(f.staged));
    LongThen(Check(f.cleared), Then(One(made), Check(f.staged)));
    LongThen(One(Stage(None)), Then(Check(f.cleared), Then(One(made), Check(f.staged))));
    if disk.staging.Some? {
      LongThen(One(Stage(Some(Remains(disk.staging.value, f)))),
               Then(One(Stage(None)), Then(Check(f.cleared), Then(One(made), Check(f.staged)))));
    }
  }

  lemma SettleIsShort(row: RowId, passed: bool)
    ensures |SettleCourse(row, passed).effects| <= 2
  {
  }

  lemma AttemptIsShort(row: RowId, f: Fate)
    ensures |AttemptCourse(row, f).effects| <= 7
  {
    hide Then, SettleCourse;
    SettleIsShort(row, Clean(f));
    LongThen(One(SealStaging(row, false)), Check(false));
    LongThen(One(Stage(Marked(row, false))),
             if f.stable then Check(true) else Then(One(SealStaging(row, false)), Check(false)));
    LongThen(One(Stage(Marked(row, f.logFinished))), One(ExitMarker(f.unconfirmed)));
    LongThen(One(Launch(row)), Then(One(Stage(Marked(row, f.logFinished))), One(ExitMarker(f.unconfirmed))));
    LongThen(LaunchCourse(row, f), SettleCourse(row, Clean(f)));
    LongThen(MarkCourse(row, f), Then(LaunchCourse(row, f), SettleCourse(row, Clean(f))));
  }

  // ---------------------------------------------------------------- what a run launches

  /** Whether an undisturbed run of the row reaches the guarded command. */
  predicate Reaches(disk: Disk, row: RowId, f: Fate) {
    && row !in disk.batches && !disk.exitMarker
    && f.cleared && f.staged && f.stable && f.contained && f.started
  }

  lemma LaunchedThen(a: Course, b: Course)
    ensures Launched(Then(a, b).effects)
      == Launched(a.effects) + if a.returning then Launched(b.effects) else multiset{}
    ensures LockUntouched(a.effects) && LockUntouched(b.effects) ==> LockUntouched(Then(a, b).effects)
  {
    LaunchedJoin(a.effects, b.effects);
  }

  lemma LaunchedOne(e: Effect)
    ensures Launched(One(e).effects) == if e.Launch? then multiset{e.row} else multiset{}
    ensures LockUntouched(One(e).effects) <==> !e.Lock?
  {
    var effects := [e];
    assert effects[0] == e && effects[1..] == [];
  }

  lemma StageLaunchesNothing(disk: Disk, f: Fate)
    ensures var c := StageCourse(disk, f);
      Launched(c.effects) == multiset{} && LockUntouched(c.effects) && c.returning == (f.cleared && f.staged)
  {
    hide Launched, LockUntouched;
    var made := Stage(Some(Staging(NoMarker, false)));
    LaunchedOne(made);
    LaunchedOne(Stage(None));
    NothingLaunched();
    LaunchedThen(One(made), Check(f.staged));
    LaunchedThen(Check(f.cleared), Then(One(made), Check(f.staged)));
    LaunchedThen(One(Stage(None)), Then(Check(f.cleared), Then(One(made), Check(f.staged))));
    if disk.staging.Some? {
      var cut := Stage(Some(Remains(disk.staging.value, f)));
      LaunchedOne(cut);
      LaunchedThen(One(cut), StageCourse(WithStaging(disk, None), f));
    }
  }

  lemma NothingLaunched()
    ensures Launched([]) == multiset{} && LockUntouched([])
  {
  }

  lemma SettleLaunchesNothing(row: RowId, passed: bool)
    ensures var c := SettleCourse(row, passed); Launched(c.effects) == multiset{} && LockUntouched(c.effects)
  {
    hide Launched, LockUntouched;
    NothingLaunched();
    LaunchedOne(Open(row));
    LaunchedOne(Commit(row));
    LaunchedOne(Seal(row));
    LaunchedThen(One(Seal(row)), Check(false));
    LaunchedThen(One(Open(row)), if passed then One(Commit(row)) else Then(One(Seal(row)), Check(false)));
  }

  lemma AttemptLaunches(row: RowId, f: Fate)
    ensures var c := AttemptCourse(row, f);
      && Launched(c.effects) == (if f.stable && f.contained && f.started then multiset{row} else multiset{})
      && LockUntouched(c.effects)
  {
    hide Launched, LockUntouched, SettleCourse;
    var marked, restaged := Stage(Marked(row, false)), Stage(Marked(row, f.logFinished));
    NothingLaunched();
    LaunchedOne(marked);
    LaunchedOne(SealStaging(row, false));
    LaunchedThen(One(SealStaging(row, false)), Check(false));
    LaunchedThen(One(marked), if f.stable then Check(true) else Then(One(SealStaging(row, false)), Check(false)));
    LaunchedOne(Launch(row));
    LaunchedOne(restaged);
    LaunchedOne(ExitMarker(f.unconfirmed));
    LaunchedThen(One(restaged), One(ExitMarker(f.unconfirmed)));
    LaunchedThen(One(Launch(row)), Then(One(restaged), One(ExitMarker(f.unconfirmed))));
    SettleLaunchesNothing(row, Clean(f));
    LaunchedThen(LaunchCourse(row, f), SettleCourse(row, Clean(f)));
    LaunchedThen(MarkCourse(row, f), Then(LaunchCourse(row, f), SettleCourse(row, Clean(f))));
  }

  lemma RowLaunches(disk: Disk, row: RowId, f: Fate)
    ensures var c := RowCourse(disk, row, f);
      && Launched(c.effects) == (if Reaches(disk, row, f) then multiset{row} else multiset{})
      && LockUntouched(c.effects)
  {
    hide Launched, LockUntouched, StageCourse, AttemptCourse, SettleCourse;
    NothingLaunched();
    LaunchedOne(Archive(row));
    LaunchedThen(One(Archive(row)), Check(false));
    SettleLaunchesNothing(row, false);
    StageLaunchesNothing(disk, f);
    AttemptLaunches(row, f);
    LaunchedThen(StageCourse(disk, f), AttemptCourse(row, f));
  }

  lemma PrefixLaunches(effects: seq<Effect>, k: nat)
    requires k <= |effects|
    ensures Launched(effects[..k]) <= Launched(effects)
  {
    LaunchedJoin(effects[..k], effects[k..]);
    assert effects[..k] + effects[k..] == effects;
  }

  /** Wherever a run of the row stops, it has launched at most this row, once, and only if it may reach the command. */
  lemma RowLaunchesOnce(w: World, row: RowId, f: Fate, k: nat)
    requires var c := RowCourse(w.disk, row, f); k <= |c.effects|
    ensures var launches := ApplyAll(w, RowCourse(w.disk, row, f).effects[..k]).launches;
      || launches == w.launches
      || (Reaches(w.disk, row, f) && launches == w.launches + multiset{row})
  {
    hide Launched, RowCourse;
    var c := RowCourse(w.disk, row, f);
    RowLaunches(w.disk, row, f);
    PrefixLaunches(c.effects, k);
    ApplyLaunches(w, c.effects[..k]);
    var some := Launched(c.effects[..k]);
    assert some[row] == 0 || some[row] == 1;
    assert some == if some[row] == 1 then multiset{row} else multiset{};
  }

  lemma RunRowLaunches(matrix: seq<RowId>, disk: Disk, row: RowId, f: Fate)
    ensures Launched(RunRowCourse(matrix, disk, row, f).effects)
      == if row in matrix && !disk.lock && Reaches(disk, row, f) then multiset{row} else multiset{}
  {
    hide Launched, LockUntouched, RowCourse;
    NothingLaunched();
    var course := RowCourse(disk.(lock := true), row, f);
    RowLaunches(disk.(lock := true), row, f);
    LaunchedOne(Lock(true));
    LaunchedOne(Lock(false));
    LaunchedThen(Check(f.released), One(Lock(false)));
    LaunchedThen(course, Then(Check(f.released), One(Lock(false))));
    LaunchedThen(One(Lock(true)), Then(course, Then(Check(f.released), One(Lock(false)))));
  }

  /** This run of `run_row`, stopped after k effects, launches the row once more than before. */
  ghost predicate LaunchesOnceMore(matrix: seq<RowId>, w: World, row: RowId, f: Fate, k: nat) {
    var effects := RunRowCourse(matrix, w.disk, row, f).effects;
    k <= |effects| && ApplyAll(w, effects[..k]).launches[row] == w.launches[row] + 1
  }

  /**
   * `run_row` called on its own asks only for the lock, the batch and the exit marker. Whatever else
   * is on the disk, pending and invalid directories of the row included, and however often the row
   * was launched before, some run launches it again exactly when these three let it through.
   */
  lemma RunRowLaunchesExactly(matrix: seq<RowId>, w: World, row: RowId)
    ensures (exists f: Fate, k: nat :: LaunchesOnceMore(matrix, w, row, f, k)) <==>
      row in matrix && !w.disk.lock && row !in w.disk.batches && !w.disk.exitMarker
  {
    hide Launched, RunRowCourse;
    forall f: Fate, k: nat | LaunchesOnceMore(matrix, w, row, f, k)
      ensures row in matrix && !w.disk.lock && row !in w.disk.batches && !w.disk.exitMarker
    {
      var effects := RunRowCourse(matrix, w.disk, row, f).effects;
      RunRowLaunches(matrix, w.disk, row, f);
      PrefixLaunches(effects, k);
      ApplyLaunches(w, effects[..k]);
      assert row in Launched(effects);
    }
    var effects := RunRowCourse(matrix, w.disk, row, FAILS).effects;
    RunRowLaunches(matrix, w.disk, row, FAILS);
    ApplyLaunches(w, effects);
    assert effects[..|effects|] == effects;
    assert row in matrix && !w.disk.lock && row !in w.disk.batches && !w.disk.exitMarker ==>
      LaunchesOnceMore(matrix, w, row, FAILS, |effects|);
  }

  /** A run whose guarded command starts and fails: the evidence is sealed, the lock stays. */
  const FAILS := Fate(
    batchValid := true, markerLeft := false, logLeft := false, cleared := true, staged := true, stable := true,
    contained := true, started := true, logFinished := false, unconfirmed := false, clean := false, released := false)

  /** After such a run the matrix refuses the row, and `run_row` would launch it again. */
  lemma FailedRunCanBeRepeated(matrix: seq<RowId>, w: World, row: RowId)
    requires row in matrix && !w.disk.lock && row !in w.disk.batches && !w.disk.exitMarker
    ensures var c := RunRowCourse(matrix, w.disk, row, FAILS); var next := After(w, c);
      && !c.returning && next.launches == w.launches + multiset{row}
      && next.disk.lock && row !in next.disk.batches && !next.disk.exitMarker && Blocked(next.disk, row)
  {
    hide AllAllowed, ApplyAll, After, May, StageCourse, AttemptCourse, Recovered;
    var locked := Apply(w, Lock(true));
    var stage, attempt := StageCourse(locked.disk, FAILS), AttemptCourse(row, FAILS);
    StageLaunchesNothing(locked.disk, FAILS);
    StageIsAllowed(matrix, locked, FAILS, row);
    AttemptIsAllowed(matrix, After(locked, stage), row, FAILS);
    MayThen(matrix, locked, stage, attempt);
    var course := Then(stage, attempt);
    MayThen(matrix, locked, course, Then(Check(false), One(Lock(false))));
    MayOneThen(matrix, w, Lock(true), Then(course, Then(Check(false), One(Lock(false)))));
    SealedIsBlocked(Apply(locked, Stage(Marked(row, false))).disk.(staging := Marked(row, false)), After(locked, course).disk,
                    Invalid(row, false, NoMarker));
  }

  /** Deleting the staged results keeps the invariant exactly when the row that their marker names, if launched, left other evidence. */
  lemma StagingIsSafeExactlyWithOtherEvidence(matrix: seq<RowId>, w: World)
    requires Safe(matrix, w)
    ensures Safe(matrix, Apply(w, Stage(None)))
       <==> forall row :: row in w.launches && Staged(w.disk, row) ==> OtherEvidence(w.disk, row)
  {
    var next := Apply(w, Stage(None));
    assert next.disk.invalid == w.disk.invalid;
    forall row
      ensures Evidence(next.disk, row) <==> OtherEvidence(w.disk, row)
      ensures Evidence(w.disk, row) <==> Staged(w.disk, row) || OtherEvidence(w.disk, row)
    {
    }
  }

  // ---------------------------------------------------------------- the runner

  /** How many more effects happen before the process is killed, and every effect so far. */
  datatype Progress = Progress(left: nat, trace: seq<Effect>)

  /** A course that is stopped when no effect is left. */
  function Run(c: Course, p: Progress): (Progress, Outcome) {
    if p.left < |c.effects| then (Progress(0, p.trace + c.effects[..p.left]), Crashed)
    else (Progress(p.left - |c.effects|, p.trace + c.effects), if c.returning then Finished else Raised)
  }

  lemma RunThen(a: Course, b: Course)
    ensures forall p :: Run(Then(a, b), p) == var (q, o) := Run(a, p); if o == Finished then Run(b, q) else (q, o)
  {
    forall p: Progress
      ensures Run(Then(a, b), p) == var (q, o) := Run(a, p); if o == Finished then Run(b, q) else (q, o)
    {
      var c := Then(a, b);
      if a.returning {
        assert p.left <= |a.effects| ==> c.effects[..p.left] == a.effects[..p.left];
        if |a.effects| <= p.left < |c.effects| {
          assert c.effects[..p.left] == a.effects + b.effects[..p.left - |a.effects|];
          assert p.trace + (a.effects + b.effects[..p.left - |a.effects|])
              == p.trace + a.effects + b.effects[..p.left - |a.effects|];
        }
        assert p.trace + (a.effects + b.effects) == p.trace + a.effects + b.effects;
      }
    }
  }

  lemma RunCheck(passed: bool)
    ensures forall p :: Run(Check(passed), p) == (p, if passed then Finished else Raised)
  {
    assert forall p: Progress :: p.trace + [] == p.trace;
  }

  /** The number of effects that happen before the run ends or is killed. */
  lemma RunStops(c: Course, p: Progress) returns (k: nat)
    ensures k <= |c.effects| && Run(c, p).0.trace == p.trace + c.effects[..k]
    ensures Run(c, p).1.Finished? ==> k == |c.effects| && c.returning && c.effects[..k] == c.effects
  {
    k := if p.left < |c.effects| then p.left else |c.effects|;
    assert c.effects[..|c.effects|] == c.effects;
  }

  lemma RunToTheEnd(c: Course, p: Progress)
    requires |c.effects| <= p.left
    ensures Run(c, p) == (Progress(p.left - |c.effects|, p.trace + c.effects), if c.returning then Finished else Raised)
  {
  }

  lemma OneEffectIsEnough(e: Effect, p: Progress)
    requires p.left == 1
    ensures Run(One(e), p).1 == Finished
  {
  }

  class Probe {
    const matrix: seq<RowId>
    var disk: Disk
    var launches: multiset<RowId>
    /** How many more effects happen before the process is killed, and every effect so far. */
    var progress: Progress

    constructor (matrix: seq<RowId>)
      ensures this.matrix == matrix && Traced() && progress == Progress(0, []) && Now() == START
    {
      this.matrix := matrix;
      disk, launches := START.disk, START.launches;
      progress := Progress(0, []);
    }

    ghost function Now(): World
      reads this
    {
      World(disk, launches)
    }

    /** The trace is the whole history. */
    ghost predicate Traced()
      reads this
    {
      Now() == ApplyAll(START, progress.trace)
    }

    ghost predicate Valid()
      reads this
    {
      Traced() && Safe(matrix, Now())
    }

    twostate predicate Follows(c: Course, o: Outcome)
      reads this
    {
      Traced() && (progress, o) == Run(c, old(progress))
    }

    /** One atomic effect, unless the process was killed before it. */
    method Do(e: Effect) returns (o: Outcome)
      requires Traced()
      modifies this
      ensures Follows(One(e), o) && o != Raised
      ensures old(progress.left) > 0 ==> o == Finished && progress.left == old(progress.left) - 1
      ensures if o.Finished? then Now() == Apply(old(Now()), e) else Now() == old(Now())
    {
      hide OnDisk, ApplyAll;
      if progress.left == 0 {
        assert progress.trace + [] == progress.trace;
        return Crashed;
      }
      ApplyJoin(START, progress.trace, [e]);
      ApplyOne(Now(), e);
      progress := Progress(progress.left - 1, progress.trace + [e]);
      disk, launches := OnDisk(disk, e), if e.Launch? then launches + multiset{e.row} else launches;
      o := Finished;
    }

    method StageResults(f: Fate) returns (o: Outcome)
      requires Traced()
      modifies this
      ensures Follows(StageCourse(old(disk), f), o)
    {
      hide Run, ApplyAll, Then, One, Check;
      var made := Stage(Some(Staging(NoMarker, false)));
      RunCheck(f.cleared);
      RunCheck(f.staged);
      RunThen(One(made), Check(f.staged));
      RunThen(Check(f.cleared), Then(One(made), Check(f.staged)));
      RunThen(One(Stage(None)), Then(Check(f.cleared), Then(One(made), Check(f.staged))));
      if disk.staging.Some? {
        var cut := Stage(Some(Remains(disk.staging.value, f)));
        RunThen(One(cut), Then(One(Stage(None)), Then(Check(f.cleared), Then(One(made), Check(f.staged)))));
        o := Do(cut);
        if o.Crashed? {
          return;
        }
      }
      o := Do(Stage(None));
      if o.Crashed? {
        return;
      }
      if !f.cleared {
        return Raised;
      }
      o := Do(made);
      if o.Finished? && !f.staged {
        o := Raised;
      }
    }

    method Mark(row: RowId, f: Fate) returns (o: Outcome)
      requires Traced()
      modifies this
      ensures Follows(MarkCourse(row, f), o)
    {
      hide Run, ApplyAll, Then, One, Check;
      RunCheck(f.stable);
      RunThen(One(SealStaging(row, false)), Check(false));
      RunThen(One(Stage(Marked(row, false))),
              if f.stable then Check(true) else Then(One(SealStaging(row, false)), Check(false)));
      o := Do(Stage(Marked(row, false)));
      if o.Crashed? || f.stable {
        return;
      }
      RunCheck(false);
      o := Do(SealStaging(row, false));
      if o.Finished? {
        o := Raised;
      }
    }

    method LaunchGuarded(row: RowId, f: Fate) returns (o: Outcome)
      requires Traced()
      modifies this
      ensures Follows(LaunchCourse(row, f), o)
    {
      hide Run, ApplyAll, Then, One, Check;
      if !(f.contained && f.started) {
        RunCheck(true);
        return Finished;
      }
      RunThen(One(Stage(Marked(row, f.logFinished))), One(ExitMarker(f.unconfirmed)));
      RunThen(One(Launch(row)), Then(One(Stage(Marked(row, f.logFinished))), One(ExitMarker(f.unconfirmed))));
      o := Do(Launch(row));
      if o.Crashed? {
        return;
      }
      o := Do(Stage(Marked(row, f.logFinished)));
      if o.Crashed? {
        return;
      }
      o := Do(ExitMarker(f.unconfirmed));
    }

    method Settle(row: RowId, passed: bool) returns (o: Outcome)
      requires Traced()
      modifies this
      ensures Follows(SettleCourse(row, passed), o)
    {
      hide Run, ApplyAll, Then, One, Check;
      RunCheck(false);
      RunThen(One(Seal(row)), Check(false));
      RunThen(One(Open(row)), if passed then One(Commit(row)) else Then(One(Seal(row)), Check(false)));
      o := Do(Open(row));
      if o.Crashed? {
        return;
      }
      if passed {
        o := Do(Commit(row));
        return;
      }
      o := Do(Seal(row));
      if o.Finished? {
        o := Raised;
      }
    }

    /** From the marker on: launch unless containment is already broken, then settle. */
    method Attempt(row: RowId, f: Fate) returns (o: Outcome)
      requires Traced()
      modifies this
      ensures Follows(AttemptCourse(row, f), o)
    {
      hide Run, ApplyAll, Then, MarkCourse, LaunchCourse, SettleCourse;
      RunThen(LaunchCourse(row, f), SettleCourse(row, Clean(f)));
      RunThen(MarkCourse(row, f), Then(LaunchCourse(row, f), SettleCourse(row, Clean(f))));
      o := Mark(row, f);
      if o.Finished? {
        o := LaunchGuarded(row, f);
      }
      if o.Finished? {
        o := Settle(row, Clean(f));
      }
    }

    /** `_run_row_locked`: it asks neither for pending nor for invalid directories. */
    method RunRowLocked(row: RowId, f: Fate) returns (o: Outcome)
      requires Traced()
      modifies this
      ensures Follows(RowCourse(old(disk), row, f), o)
    {
      hide Run, ApplyAll, Then, One, Check, StageCourse, AttemptCourse, SettleCourse, OnDisk;
      if row in disk.batches {
        RunCheck(f.batchValid);
        if f.batchValid {
          return Finished;
        }
        RunThen(One(Archive(row)), Check(false));
        o := Do(Archive(row));
        if o.Finished? {
          o := Raised;
        }
        return;
      }
      if disk.exitMarker {
        o := Settle(row, false);
        return;
      }
      RunThen(StageCourse(disk, f), AttemptCourse(row, f));
      o := StageResults(f);
      if o.Finished? {
        o := Attempt(row, f);
      }
    }

    method Acquire() returns (o: Outcome)
      requires Traced()
      modifies this
      ensures Follows(if old(disk.lock) then Check(false) else One(Lock(true)), o)
      ensures if o.Finished? then Now() == Apply(old(Now()), Lock(true)) else Now() == old(Now())
      ensures o.Raised? <==> old(disk.lock)
      ensures !old(disk.lock) && old(progress.left) > 0 ==> o == Finished && progress.left == old(progress.left) - 1
    {
      hide Run, ApplyAll, One, Check;
      RunCheck(false);
      if disk.lock {
        return Raised;
      }
      o := Do(Lock(true));
    }

    method Release(released: bool) returns (o: Outcome)
      requires Traced()
      modifies this
      ensures Follows(Then(Check(released), One(Lock(false))), o)
      ensures if o.Finished? then Now() == Apply(old(Now()), Lock(false)) else Now() == old(Now())
      ensures released && old(progress.left) > 0 ==> o == Finished
    {
      hide Run, ApplyAll, Then, One, Check;
      RunCheck(released);
      RunThen(Check(released), One(Lock(false)));
      if !released {
        return Raised;
      }
      o := Do(Lock(false));
    }

    /** `run_row`: the row alone, under the lock. */
    method RunRow(row: RowId, f: Fate) returns (o: Outcome)
      requires Traced()
      modifies this
      ensures Follows(RunRowCourse(matrix, old(disk), row, f), o)
    {
      hide Run, ApplyAll, Then, One, Check, RowCourse;
      RunCheck(false);
      if row !in matrix {
        return Raised;
      }
      var course := RowCourse(disk.(lock := true), row, f);
      RunThen(course, Then(Check(f.released), One(Lock(false))));
      RunThen(One(Lock(true)), Then(course, Then(Check(f.released), One(Lock(false)))));
      o := Acquire();
      if o != Finished {
        return;
      }
      o := RunRowLocked(row, f);
      if o != Finished {
        return;
      }
      o := Release(f.released);
    }

    /** `run_row` over and over, with the lock deleted in between: the row is launched every time. */
    method RunRowRepeatedly(row: RowId, times: nat)
      requires Traced() && row in matrix && !disk.lock && row !in disk.batches && !disk.exitMarker
      modifies this
      ensures Traced() && launches == old(launches)[row := old(launches[row]) + times]
      ensures times > 0 ==> Blocked(disk, row)
    {
      hide ApplyAll, RunRowCourse, Run;
      assert launches == launches[row := launches[row]];
      for i := 0 to times
        invariant Traced() && !disk.lock && row !in disk.batches && !disk.exitMarker
        invariant launches == old(launches)[row := old(launches[row]) + i]
        invariant i > 0 ==> Blocked(disk, row)
      {
        ghost var before, w := progress.trace, Now();
        var course := RunRowCourse(matrix, disk, row, FAILS);
        progress := Progress(|course.effects|, progress.trace);
        var _ := RunRow(row, FAILS);
        FailedRunCanBeRepeated(matrix, w, row);
        RunToTheEnd(course, Progress(|course.effects|, before));
        ApplyJoin(START, before, course.effects);
        Delete(Lock(false));
      }
    }

    /** The operator deletes the lock or the exit marker while nothing runs. */
    method Delete(e: Effect)
      requires Traced() && e in {Lock(false), ExitMarker(false)}
      modifies this
      ensures Traced() && Now() == Apply(old(Now()), e)
      ensures Safe(matrix, old(Now())) ==> Safe(matrix, Now())
      ensures disk.invalid == old(disk.invalid)
    {
      hide Run, ApplyAll;
      if Safe(matrix, Now()) {
        AllowedIsSafe(matrix, Now(), e);
      }
      progress := progress.(left := 1);
      var o := Do(e);
      OneEffectIsEnough(e, old(progress).(left := 1));
    }

    // -------------------------------------------------------------- the whole matrix

    /** A clear disk, an environment that lets every row pass, and more effects than the rows take. */
    ghost predicate GetsThrough(fates: seq<Fate>, start: Disk, left: int) {
      Clear(matrix, start) && (forall f :: f in fates ==> Good(f)) && left > ROW_EFFECTS * |matrix|
    }

    /** What every step of a matrix run keeps: the invariant, the lock, and all preserved evidence. */
    twostate predicate Keeps()
      reads this
    {
      && Valid() && disk.lock == old(disk.lock)
      && old(disk.invalid) <= disk.invalid
    }

    method DoAllowed(e: Effect) returns (o: Outcome)
      requires Valid() && Allowed(matrix, Now(), e) && !e.Lock?
      modifies this
      ensures Keeps() && o != Raised
      ensures if o.Finished? then Now() == Apply(old(Now()), e) else Now() == old(Now())
    {
      hide Safe, Allowed, Run, ApplyAll;
      AllowedIsSafe(matrix, Now(), e);
      o := Do(e);
    }

    /** `recover_pending_batches`: every pending directory becomes an invalid one. */
    method RecoverPending() returns (o: Outcome, recovered: nat)
      requires Valid()
      modifies this
      ensures Keeps() && launches == old(launches)
      ensures o != Raised
      ensures o.Finished? ==> disk.pending == multiset{} && recovered == |old(disk.pending)|
      ensures o.Finished? && recovered == 0 ==> disk == old(disk)
      ensures old(disk.pending) == multiset{} ==> o == Finished && unchanged(this)
    {
      hide Safe, ApplyAll;
      recovered := 0;
      while disk.pending != multiset{}
        invariant Keeps() && launches == old(launches)
        invariant recovered + |disk.pending| == |old(disk.pending)|
        invariant recovered == 0 ==> unchanged(this)
        decreases |disk.pending|
      {
        var owner :| owner in disk.pending;
        o := DoAllowed(Seal(owner));
        if o.Crashed? {
          return;
        }
        recovered := recovered + 1;
      }
      o := Finished;
    }

    /** `recover_staging_partial`, and whether what it preserved blocks its row. */
    method RecoverStaging() returns (o: Outcome, blocking: bool)
      requires Valid()
      modifies this
      ensures Keeps() && launches == old(launches)
      ensures o != Raised
      ensures disk.pending == old(disk.pending) && disk.batches == old(disk.batches)
      ensures o.Finished? && !blocking ==>
        forall row :: row in launches && Staged(disk, row) ==> row in disk.batches
      ensures o.Finished? ==>
        var left := LeftBehind(matrix, old(disk));
        && blocking == (left.Some? && (left.value.marker.Unreadable? || left.value.marker.current))
        && (left.None? ==> unchanged(this))
        && (left.Some? ==> disk == old(disk).(staging := None, invalid := old(disk.invalid) + multiset{left.value}))
      ensures LeftBehind(matrix, old(disk)).None? ==> o == Finished
    {
      hide ApplyAll, Evidence, Allowed;
      if disk.staging.None? || disk.staging.value.marker.NoMarker? {
        return Finished, false;
      }
      var staging := disk.staging.value;
      var row := StagedRow(matrix, staging.marker);
      if row.Some? && row.value in disk.batches && staging.finished {
        return Finished, false;
      }
      var owner := if row.Some? then row.value else UNKNOWN_ROW;
      SealingIsAllowed(matrix, Now(), owner);
      o := DoAllowed(SealStaging(owner, true));
      blocking := Blocks(Invalid(owner, true, staging.marker));
    }

    /** `prior_invalid_attempts`, as the refusal it leads to. */
    method HasPriorInvalid(row: RowId) returns (blocked: bool)
      ensures blocked <==> Blocked(disk, row)
    {
      var rest := disk.invalid;
      blocked := false;
      while rest != multiset{}
        invariant rest <= disk.invalid
        invariant blocked ==> Blocked(disk, row)
        invariant forall a :: a in disk.invalid && a.row == row && Blocks(a) ==> blocked || a in rest
        decreases |rest|
      {
        var attempt :| attempt in rest;
        if attempt.row == row && Blocks(attempt) {
          blocked := true;
        }
        rest := rest - multiset{attempt};
      }
    }

    /** One row of the matrix: refuse it after a prior invalid attempt, or run it. */
    method RunNextRow(row: RowId, f: Fate) returns (o: Outcome)
      requires Valid() && Recovered(Now()) && row in matrix
      modifies this
      ensures Keeps() && old(launches) <= launches
      ensures forall r :: Blocked(old(disk), r) ==> launches[r] == old(launches)[r]
      ensures o.Finished? ==>
        && Recovered(Now())
        && row in disk.batches && old(disk.batches) <= disk.batches
      ensures Blocked(old(disk), row) ==> o == Raised && Now() == old(Now())
      ensures !Blocked(old(disk), row) && Good(f) && !old(disk.exitMarker) && old(progress.left) >= ROW_EFFECTS ==>
        && o == Finished && !disk.exitMarker && disk.invalid == old(disk.invalid)
        && progress.left >= old(progress.left) - ROW_EFFECTS
    {
      hide AllAllowed, ApplyAll, RowCourse, Run, Blocked, Good;
      var blocked := HasPriorInvalid(row);
      if blocked {
        return Raised;
      }
      assert row in launches ==> Evidence(disk, row);
      hide Safe, Recovered, Evidence;
      ghost var p, w, c := progress, Now(), RowCourse(disk, row, f);
      RowIsAllowed(matrix, w, row, f);
      o := RunRowLocked(row, f);
      var k := RunStops(c, p);
      ApplyJoin(START, p.trace, c.effects[..k]);
      PrefixIsSafe(matrix, w, c.effects, k);
      RowLaunchesOnce(w, row, f, k);
      RowLaunches(w.disk, row, f);
      if Good(f) && !w.disk.exitMarker && p.left >= ROW_EFFECTS {
        GoodRowReturns(w, row, f);
        RunToTheEnd(c, p);
      }
    }

    /** Both recoveries: clean when nothing was pending and nothing recovered blocks the namespace. */
    method RecoverAll() returns (o: Outcome, clean: bool)
      requires Valid()
      modifies this
      ensures Keeps() && launches == old(launches) && o != Raised
      ensures o.Finished? && clean ==> Recovered(Now())
      ensures Clear(matrix, old(disk)) ==> o == Finished && clean && unchanged(this)
    {
      hide Safe, ApplyAll;
      clean := false;
      var recoveredPending, blocking;
      o, recoveredPending := RecoverPending();
      if o.Crashed? {
        return;
      }
      o, blocking := RecoverStaging();
      clean := recoveredPending == 0 && !blocking;
    }

    /** `_run_matrix_locked`. */
    method RunMatrixLocked(fates: seq<Fate>) returns (o: Outcome)
      requires Valid() && |fates| == |matrix|
      modifies this
      ensures Keeps() && old(launches) <= launches
      ensures forall row :: Blocked(old(disk), row) ==> launches[row] == old(launches)[row]
      ensures o.Finished? ==> forall row :: row in matrix ==> row in disk.batches && launches[row] == 1
      ensures GetsThrough(fates, old(disk), old(progress.left)) ==> o == Finished && progress.left > 0
    {
      hide Recovered, Blocked, ApplyAll, Clear, Good, Safe;
      if Clear(matrix, disk) {
        ClearHasNoMarker(matrix, disk);
      }
      var clean;
      o, clean := RecoverAll();
      if o.Crashed? {
        return;
      }
      if !clean {
        return Raised;
      }
      var i := 0;
      while i < |matrix|
        invariant 0 <= i <= |matrix|
        invariant Keeps() && Recovered(Now()) && old(launches) <= launches
        invariant forall row :: Blocked(old(disk), row) ==> launches[row] == old(launches)[row]
        invariant forall j :: 0 <= j < i ==> matrix[j] in disk.batches
        invariant GetsThrough(fates, old(disk), old(progress.left)) ==>
          !disk.exitMarker && disk.invalid == old(disk.invalid) && progress.left > ROW_EFFECTS * (|matrix| - i)
      {
        BlockedStays(old(disk), disk);
        if GetsThrough(fates, old(disk), old(progress.left)) {
          ClearIsNotBlocked(matrix, old(disk), matrix[i]);
          SameAttempts(old(disk), disk);
        }
        o := RunNextRow(matrix[i], fates[i]);
        if o != Finished {
          return;
        }
        i := i + 1;
      }
      CommittedRanOnce(matrix, Now());
      o := Finished;
    }

    /** `run_matrix`: refuse an existing lock; keep the lock on every exit but a clean one. */
    method RunMatrix(fates: seq<Fate>, released: bool) returns (o: Outcome)
      requires Valid() && |fates| == |matrix|
      modifies this
      ensures Valid() && old(launches) <= launches && old(disk.invalid) <= disk.invalid
      ensures old(disk.lock) ==> o == Raised && disk == old(disk) && launches == old(launches)
      ensures o.Finished? ==> !disk.lock && forall row :: row in matrix ==> row in disk.batches && launches[row] == 1
      ensures o.Raised? ==> disk.lock
      ensures o.Crashed? ==> disk.lock || (disk == old(disk) && launches == old(launches))
      ensures forall row :: Blocked(old(disk), row) ==> launches[row] == old(launches)[row]
      ensures (!old(disk.lock) && released && GetsThrough(fates, old(disk), old(progress.left) - 1)) ==> o == Finished
    {
      hide ApplyAll, Run, Blocked, Good;
      AllowedIsSafe(matrix, Now(), Lock(true));
      BlockedStays(disk, OnDisk(disk, Lock(true)));
      hide Safe;
      o := Acquire();
      if o != Finished {
        return;
      }
      o := RunMatrixLocked(fates);
      if o != Finished {
        return;
      }
      AllowedIsSafe(matrix, Now(), Lock(false));
      o := Release(released);
    }

    /** Whatever the environment may decide in one run of the matrix. */
    method AnyFates() returns (fates: seq<Fate>, released: bool)
      ensures |fates| == |matrix|
    {
      fates, released := [], *;
      while |fates| < |matrix|
        invariant |fates| <= |matrix|
      {
        var f: Fate := *;
        fates := fates + [f];
      }
    }

    /**
     * Any number of invocations, each of which may be killed before any effect, with the operator free
     * to delete the lock and the exit marker in between: no row is ever launched twice.
     */
    method Campaign(invocations: nat)
      requires Valid()
      modifies this
      ensures Valid() && forall row :: launches[row] <= 1
      ensures forall row :: Blocked(old(disk), row) ==> launches[row] == old(launches)[row]
    {
      hide ApplyAll, Blocked;
      for i := 0 to invocations
        invariant Valid() && old(disk.invalid) <= disk.invalid
        invariant forall row :: Blocked(old(disk), row) ==> launches[row] == old(launches)[row]
      {
        if * {
          Delete(Lock(false));
        }
        if * {
          Delete(ExitMarker(false));
        }
        BlockedStays(old(disk), disk);
        var left: nat := *;
        progress := Progress(left, progress.trace);
        var fates, released := AnyFates();
        var o := RunMatrix(fates, released);
      }
    }
  }
}
