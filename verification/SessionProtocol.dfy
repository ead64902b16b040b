/**
 * Session and parent side by side: every interleaving of their steps over two pipes of bytes, with
 * failures and read sizes left to the environment.
 */
module SessionProtocol {
  import opened Results
  import opened CanonicalJson
  import opened Frames
  import opened FixtureHarness
  import opened ChildRunner

  /** How far the session has come. */
  datatype Phase =
    | Starting
    | PreSent
    | AckByteRead
    | AckAccepted
    | ChildRunning
    | ChildDone
    | PostSent
    | Finished
    | Dead

  /** The child's outcome is kept once it has been reaped. */
  datatype Session = Session(
    phase: Phase, pre: Json, post: Json, launches: nat, reaped: nat, outcome: Option<ChildOutcome>)

  datatype World = World(
    session: Session,
    sent: Bytes,          // everything the session has written to its standard output
    stdout: Bytes,        // the part of it that the parent has not read
    stdin: Bytes,         // what the parent has written and the session has not read
    stdinClosed: bool,
    parent: Parent,
    acked: bool,
    parentFailed: bool,
    result: Option<(Json, Json)>)

  const INITIAL := World(
    Session(Starting, Null, Null, 0, 0, None), [], [], [], false, START, false, false, None)

  /** The outcome the session accepts: bounded pid, no timeout, no signal. */
  predicate OutcomeIsValid(o: ChildOutcome) {
    1 <= o.pid <= 2147483647 && 0 <= o.returncode <= 255 && !o.timedOut
  }

  /** The POST payload reports this outcome. */
  predicate Reports(post: Json, o: ChildOutcome) {
    && Field(post, "child_pid") == Some(Int(o.pid))
    && Field(post, "child_returncode") == Some(Int(o.returncode))
  }

  datatype Step =
    | WritePre(pre: Json)
    | ReadAckByte
    | ReadAckEnd
    | LaunchChild
    | ReapChild(outcome: ChildOutcome)
    | WritePost(post: Json)
    | CloseOutput
    | SessionDies
    | ParentReads(count: nat)
    | ParentTurns(ackWritten: bool)
    | ParentAccepts
    | ParentGivesUp

  predicate Writes(rules: Rules, w: World, w': World, kind: FrameType, sequence: nat, payload: Json) {
    var e := Encode(kind, sequence, payload);
    e.Ok? && w'.sent == w.sent + e.value && w'.stdout == w.stdout + e.value
  }

  /** One step of the session, as its code orders them. */
  predicate SessionStep(rules: Rules, w: World, step: Step, w': World) {
    var s := w.session;
    match step
    case WritePre(pre) =>
      && s.phase.Starting? && rules.pre(pre) && Writes(rules, w, w', PRE, 0, pre)
      && w' == w.(session := s.(phase := PreSent, pre := pre), sent := w'.sent, stdout := w'.stdout)
    case ReadAckByte =>
      && s.phase.PreSent? && w.stdin != []
      && w' == w.(session := s.(phase := if w.stdin[..1] == ACK then AckByteRead else Dead),
                  stdin := w.stdin[1..])
    case ReadAckEnd =>
      && s.phase.AckByteRead? && (w.stdin != [] || w.stdinClosed)
      && w' == w.(session := s.(phase := if w.stdin == [] then AckAccepted else Dead))
    case LaunchChild =>
      && s.phase.AckAccepted?
      && w' == w.(session := s.(phase := ChildRunning, launches := s.launches + 1))
    case ReapChild(outcome) =>
      && s.phase.ChildRunning?
      && w' == w.(session := s.(phase := if OutcomeIsValid(outcome) then ChildDone else Dead,
                                reaped := s.reaped + 1, outcome := Some(outcome)))
    case WritePost(post) =>
      && s.phase.ChildDone? && s.outcome.Some? && Reports(post, s.outcome.value)
      && ExchangeIsValid(rules, s.pre, ACK, post) && Writes(rules, w, w', POST, 1, post)
      && w' == w.(session := s.(phase := PostSent, post := post),
                  sent := w'.sent, stdout := w'.stdout)
    case CloseOutput =>
      s.phase.PostSent? && w' == w.(session := s.(phase := Finished))
    case SessionDies =>
      !s.phase.Finished? && w' == w.(session := s.(phase := Dead))
    case _ => false
  }

  /** One step of the parent: read some bytes, act on the buffer, accept at the end, or give up. */
  predicate ParentStep(rules: Rules, w: World, step: Step, w': World) {
    && !w.parentFailed && w.result.None?
    && match step
       case ParentReads(count) =>
         && 0 < count <= |w.stdout|
         && w' == w.(stdout := w.stdout[count..],
                     parent := w.parent.(output := w.parent.output + w.stdout[..count]))
       case ParentTurns(ackWritten) =>
         var turn := Turn(rules, w.parent, ackWritten);
         (turn.Failed? && w' == w.(parentFailed := true))
         || (turn.Moved? && w' ==
               if w.parent.stage.AwaitPre?
               then w.(parent := turn.parent, acked := true, stdin := w.stdin + ACK, stdinClosed := true)
               else w.(parent := turn.parent))
       case ParentAccepts =>
         // End of output after a whole exchange; nothing is taken from the exit status of the session.
         && w.parent.stage.Terminal? && w.stdout == [] && (w.session.phase.Finished? || w.session.phase.Dead?)
         && NextFrame(w.parent.output).Wait?
         && w' == w.(result := Some((w.parent.pre, w.parent.post)))
       case ParentGivesUp => w' == w.(parentFailed := true)
       case _ => false
  }

  predicate Next(rules: Rules, w: World, step: Step, w': World) {
    SessionStep(rules, w, step, w') || ParentStep(rules, w, step, w')
  }

  /** A run: any number of steps of either side, in any order. */
  predicate IsRun(rules: Rules, steps: seq<Step>, worlds: seq<World>) {
    && |worlds| == |steps| + 1 && worlds[0] == INITIAL
    && forall i :: 0 <= i < |steps| ==> Next(rules, worlds[i], steps[i], worlds[i + 1])
  }

  // ---------------------------------------------------------------- the invariant

  predicate Launched(phase: Phase) {
    phase.ChildRunning? || phase.ChildDone? || phase.PostSent? || phase.Finished?
  }

  predicate Acknowledged(phase: Phase) {
    phase.AckByteRead? || phase.AckAccepted? || Launched(phase)
  }

  ghost predicate SessionInvariant(w: World) {
    var s := w.session;
    && s.launches <= 1 && s.reaped <= s.launches
    && (s.launches == 1 || Acknowledged(s.phase) ==> w.acked)
    && (!Launched(s.phase) && !s.phase.Dead? ==> s.launches == 0)
    && (Launched(s.phase) ==> s.launches == 1)
    && (Launched(s.phase) && !s.phase.ChildRunning? ==> s.reaped == 1 && s.outcome.Some? && OutcomeIsValid(s.outcome.value))
    && (s.phase.ChildRunning? ==> s.reaped == 0)
  }

  ghost predicate PreOnly(w: World) {
    Encode(PRE, 0, w.session.pre).Ok? && w.sent == Encode(PRE, 0, w.session.pre).value
  }

  ghost predicate PreAndPost(w: World) {
    && Encode(PRE, 0, w.session.pre).Ok? && Encode(POST, 1, w.session.post).Ok?
    && w.sent == Encode(PRE, 0, w.session.pre).value + Encode(POST, 1, w.session.post).value
    && w.session.reaped == 1 && PostIsTrue(w.session)
  }

  /** The POST payload reports the outcome of the child, which was neither timed out nor killed. */
  predicate PostIsTrue(s: Session) {
    s.outcome.Some? && OutcomeIsValid(s.outcome.value) && Reports(s.post, s.outcome.value)
  }

  /** The bytes the session has sent: nothing, PRE, or PRE and POST. */
  ghost predicate SentInvariant(w: World) {
    match w.session.phase
    case Starting => w.sent == []
    case Dead => w.sent == [] || PreOnly(w) || PreAndPost(w)
    case PostSent => PreAndPost(w)
    case Finished => PreAndPost(w)
    case _ => PreOnly(w)
  }

  /** `read` is what the parent has consumed. */
  ghost predicate PipeInvariant(rules: Rules, w: World, read: Bytes) {
    && w.sent == read + w.stdout
    && Consumed(rules, w.parent, read)
    && (w.acked <==> w.parent.stage != AwaitPre)
    && (!w.acked ==> w.stdin == [] && !w.stdinClosed)
  }

  ghost predicate ResultInvariant(w: World) {
    w.result.Some? ==>
      && w.parent.stage.Terminal?
      && w.result.value == (w.parent.pre, w.parent.post)
  }

  ghost predicate Invariant(rules: Rules, w: World) {
    && SessionInvariant(w) && SentInvariant(w) && ResultInvariant(w)
    && exists read :: PipeInvariant(rules, w, read)
  }

  // ---------------------------------------------------------------- every step keeps it

  lemma WriteKeepsPipe(rules: Rules, w: World, w': World, read: Bytes, e: Bytes)
    requires PipeInvariant(rules, w, read)
    requires w'.sent == w.sent + e && w'.stdout == w.stdout + e
    requires w'.parent == w.parent && w'.acked == w.acked
    requires w'.stdin == w.stdin && w'.stdinClosed == w.stdinClosed
    ensures PipeInvariant(rules, w', read)
  {
    Regroup(read, w.stdout, e);
  }

  lemma SessionStepKeepsPipe(rules: Rules, w: World, step: Step, w': World, read: Bytes)
    requires PipeInvariant(rules, w, read) && SessionStep(rules, w, step, w')
    requires w.acked || !Acknowledged(w.session.phase)
    ensures PipeInvariant(rules, w', read)
  {
    if step.WritePre? {
      WriteKeepsPipe(rules, w, w', read, Encode(PRE, 0, step.pre).value);
    } else if step.WritePost? {
      WriteKeepsPipe(rules, w, w', read, Encode(POST, 1, step.post).value);
    }
  }

  lemma SessionStepKeepsSession(rules: Rules, w: World, step: Step, w': World)
    requires SessionInvariant(w) && SessionStep(rules, w, step, w')
    requires w.acked || (w.stdin == [] && !w.stdinClosed)
    ensures SessionInvariant(w')
  {
    hide Encode, ExchangeIsValid, OutcomeIsValid, Reports;
  }

  lemma SessionStepKeepsSent(rules: Rules, w: World, step: Step, w': World)
    requires SessionInvariant(w) && SentInvariant(w) && SessionStep(rules, w, step, w')
    ensures SentInvariant(w')
  {
    hide Encode, ExchangeIsValid, OutcomeIsValid, Reports;
    if step.WritePre? {
      var e := Encode(PRE, 0, step.pre).value;
      assert [] + e == e;
    }
  }

  lemma SessionStepKeepsInvariant(rules: Rules, w: World, step: Step, w': World)
    requires Invariant(rules, w) && SessionStep(rules, w, step, w')
    ensures Invariant(rules, w')
  {
    hide SessionInvariant, SentInvariant, Consumed, Encode, ExchangeIsValid;
    var read :| PipeInvariant(rules, w, read);
    SessionStepKeepsSession(rules, w, step, w');
    SessionStepKeepsSent(rules, w, step, w');
    AcknowledgedIsAcked(w);
    SessionStepKeepsPipe(rules, w, step, w', read);
  }

  lemma AcknowledgedIsAcked(w: World)
    requires SessionInvariant(w)
    ensures w.acked || !Acknowledged(w.session.phase)
  {
  }

  lemma ParentStepKeepsPipe(rules: Rules, w: World, step: Step, w': World, read: Bytes)
    returns (read': Bytes)
    requires PipeInvariant(rules, w, read) && ParentStep(rules, w, step, w')
    ensures PipeInvariant(rules, w', read')
  {
    read' := read;
    if step.ParentReads? {
      var chunk, rest := w.stdout[..step.count], w.stdout[step.count..];
      assert w.stdout == chunk + rest;
      Regroup(read, chunk, rest);
      ReadConsumes(rules, w.parent, chunk, read);
      read' := read + chunk;
    } else if step.ParentTurns? && Turn(rules, w.parent, step.ackWritten).Moved? {
      TurnConsumes(rules, w.parent, step.ackWritten, read);
    }
  }

  lemma ParentStepKeepsInvariant(rules: Rules, w: World, step: Step, w': World)
    requires Invariant(rules, w) && ParentStep(rules, w, step, w')
    ensures Invariant(rules, w')
  {
    var read :| PipeInvariant(rules, w, read);
    var read' := ParentStepKeepsPipe(rules, w, step, w', read);
    assert w'.session == w.session && w'.sent == w.sent && (w.acked ==> w'.acked);
  }

  lemma {:induction false} RunKeepsInvariant(rules: Rules, steps: seq<Step>, worlds: seq<World>, i: nat)
    requires IsRun(rules, steps, worlds) && i < |worlds|
    ensures Invariant(rules, worlds[i])
  {
    if i == 0 {
      assert PipeInvariant(rules, INITIAL, []);
    } else {
      RunKeepsInvariant(rules, steps, worlds, i - 1);
      if SessionStep(rules, worlds[i - 1], steps[i - 1], worlds[i]) {
        SessionStepKeepsInvariant(rules, worlds[i - 1], steps[i - 1], worlds[i]);
      } else {
        ParentStepKeepsInvariant(rules, worlds[i - 1], steps[i - 1], worlds[i]);
      }
    }
  }

  // ---------------------------------------------------------------- what it means

  /** The header of an encoding tells its length, so two encodings at one front are the same bytes. */
  lemma FrontEncodingsAgree(
    kind: FrameType, sequence: nat, p: Json, kind': FrameType, sequence': nat, p': Json, stream: Bytes)
    requires Encode(kind, sequence, p).Ok? && Encode(kind, sequence, p).value <= stream
    requires Encode(kind', sequence', p').Ok? && Encode(kind', sequence', p').value <= stream
    ensures Encode(kind, sequence, p) == Encode(kind', sequence', p')
  {
    var e, e' := Encode(kind, sequence, p).value, Encode(kind', sequence', p').value;
    HeaderFields(kind, sequence, |Print(p)|, Print(p));
    HeaderFields(kind', sequence', |Print(p')|, Print(p'));
    BigRoundTrips(sequence, |Print(p)|);
    BigRoundTrips(sequence', |Print(p')|);
    assert e[12..16] == stream[12..16] == e'[12..16];
    assert e == stream[..|e|] && e' == stream[..|e'|];
  }

  /**
   * In every interleaving the child is launched at most once, and then only after the parent has
   * validated the session's own PRE frame and written the ACK byte.
   */
  lemma ChildNeedsAck(rules: Rules, steps: seq<Step>, worlds: seq<World>, i: nat)
    requires IsRun(rules, steps, worlds) && i < |worlds|
    ensures var w := worlds[i];
      && w.session.launches <= 1
      && (w.session.launches == 1 ==>
            && w.acked && w.parent.stage != AwaitPre && rules.pre(w.parent.pre)
            && Encode(PRE, 0, w.parent.pre).Ok?
            && Encode(PRE, 0, w.parent.pre) == Encode(PRE, 0, w.session.pre))
  {
    RunKeepsInvariant(rules, steps, worlds, i);
    var w := worlds[i];
    if w.session.launches == 1 {
      var read :| PipeInvariant(rules, w, read);
      AcknowledgedPre(rules, w, read);
    }
  }

  lemma AcknowledgedPre(rules: Rules, w: World, read: Bytes)
    requires SentInvariant(w) && PipeInvariant(rules, w, read) && w.acked
    ensures Encode(PRE, 0, w.parent.pre).Ok? && rules.pre(w.parent.pre)
    ensures Encode(PRE, 0, w.parent.pre) == Encode(PRE, 0, w.session.pre)
  {
    var e := Encode(PRE, 0, w.parent.pre).value;
    assert e <= read <= w.sent;
    FrontEncodingsAgree(PRE, 0, w.parent.pre, PRE, 0, w.session.pre, w.sent);
  }

  /** A parent that has read both frames has read more than PRE, so the session has sent POST. */
  lemma BothFramesAreSent(w: World, read: Bytes)
    requires SentInvariant(w) && w.parent.stage.Terminal? && read <= w.sent
    requires Encode(PRE, 0, w.parent.pre).Ok? && Encode(POST, 1, w.parent.post).Ok?
    requires Encode(PRE, 0, w.parent.pre).value + Encode(POST, 1, w.parent.post).value <= read
    requires Encode(PRE, 0, w.parent.pre) == Encode(PRE, 0, w.session.pre)
    ensures PreAndPost(w)
  {
  }

  /**
   * If the parent returns a result, the child ran exactly once and was reaped without timeout or
   * signal, both frames are the session's own, and POST agrees with PRE.
   */
  lemma ResultMeansOneCleanRun(rules: Rules, steps: seq<Step>, worlds: seq<World>, i: nat)
    requires IsRun(rules, steps, worlds) && i < |worlds| && worlds[i].result.Some?
    ensures var w := worlds[i]; var (pre, post) := w.result.value;
      && w.session.launches == 1 && w.session.reaped == 1 && PostIsTrue(w.session)
      && ExchangeIsValid(rules, pre, ACK, post)
      && Encode(PRE, 0, pre).Ok? && Encode(PRE, 0, pre) == Encode(PRE, 0, w.session.pre)
      && Encode(POST, 1, post).Ok? && Encode(POST, 1, post) == Encode(POST, 1, w.session.post)
      && (Canonical(w.session.post) && Clean(w.session.post) ==> post == w.session.post)
  {
    RunKeepsInvariant(rules, steps, worlds, i);
    var w := worlds[i];
    var (pre, post) := w.result.value;
    var read :| PipeInvariant(rules, w, read);
    AcknowledgedPre(rules, w, read);
    var a, b := Encode(PRE, 0, pre).value, Encode(POST, 1, post).value;
    BothFramesAreSent(w, read);
    var c := Encode(POST, 1, w.session.post).value;
    assert w.sent == a + c;
    assert w.sent == (a + b + w.parent.output) + w.stdout;
    assert c == w.sent[|a|..] && b <= w.sent[|a|..];
    FrontEncodingsAgree(POST, 1, post, POST, 1, w.session.post, c);
    if Canonical(w.session.post) && Clean(w.session.post) {
      FirstPayloadIsUnique(POST, 1, post, [], w.session.post, []);
    }
  }

  // ---------------------------------------------------------------- the clean run is there

  /** What both sides need for a result: an admissible exchange that survives the wire, and a clean child. */
  ghost predicate GoodExchange(rules: Rules, pre: Json, post: Json, o: ChildOutcome) {
    && Encode(PRE, 0, pre).Ok? && Canonical(pre) && Clean(pre)
    && Encode(POST, 1, post).Ok? && Canonical(post) && Clean(post)
    && ExchangeIsValid(rules, pre, ACK, post) && OutcomeIsValid(o) && Reports(post, o)
  }

  /** The parent takes a whole frame in one turn. */
  lemma FrameMovesParent(rules: Rules, p: Parent, kind: FrameType, sequence: nat, payload: Json)
    requires Encode(kind, sequence, payload).Ok? && Canonical(payload) && Clean(payload)
    requires p.output == Encode(kind, sequence, payload).value
    ensures kind == PRE && sequence == 0 && p.stage == AwaitPre && rules.pre(payload) ==>
      Turn(rules, p, true) == Moved(Parent(AwaitPost, [], payload, Null))
    ensures kind == POST && sequence == 1 && p.stage == AwaitPost && ExchangeIsValid(rules, p.pre, ACK, payload) ==>
      Turn(rules, p, true) == Moved(Parent(Terminal, [], p.pre, payload))
  {
    hide Encode, Canonical, Clean, ExchangeIsValid, NextFrame;
    EncodingIsNextFrame(kind, sequence, payload, []);
    assert p.output + [] == p.output;
    assert p.output[|p.output|..] == [];
  }

  /** The run up to the ACK. */
  lemma AckIsReached(rules: Rules, pre: Json) returns (steps: seq<Step>, worlds: seq<World>)
    requires Encode(PRE, 0, pre).Ok? && Canonical(pre) && Clean(pre) && rules.pre(pre)
    ensures IsRun(rules, steps, worlds)
    ensures worlds[|steps|] == World(
      Session(PreSent, pre, Null, 0, 0, None), Encode(PRE, 0, pre).value, [], ACK, true,
      Parent(AwaitPost, [], pre, Null), true, false, None)
  {
    hide Encode, Canonical, Clean, Turn;
    var e := Encode(PRE, 0, pre).value;
    var sent := World(Session(PreSent, pre, Null, 0, 0, None), e, e, [], false, START, false, false, None);
    var read := sent.(stdout := [], parent := Parent(AwaitPre, e, Null, Null));
    var acked := read.(parent := Parent(AwaitPost, [], pre, Null), acked := true, stdin := ACK, stdinClosed := true);
    assert [] + e == e && [] + ACK == ACK;
    assert Next(rules, INITIAL, WritePre(pre), sent);
    FrameIsNotEmpty(PRE, 0, pre);
    assert e[..|e|] == e && e[|e|..] == [];
    assert Next(rules, sent, ParentReads(|e|), read);
    FrameMovesParent(rules, read.parent, PRE, 0, pre);
    assert Next(rules, read, ParentTurns(true), acked);
    steps, worlds := [WritePre(pre), ParentReads(|e|), ParentTurns(true)], [INITIAL, sent, read, acked];
  }

  lemma FrameIsNotEmpty(kind: FrameType, sequence: nat, payload: Json)
    requires Encode(kind, sequence, payload).Ok?
    ensures |Encode(kind, sequence, payload).value| > 0
  {
  }

  /** The run goes on by one step. */
  lemma OneMoreStep(rules: Rules, steps: seq<Step>, worlds: seq<World>, step: Step, w: World)
    returns (more: seq<Step>, all: seq<World>)
    requires IsRun(rules, steps, worlds) && Next(rules, worlds[|steps|], step, w)
    ensures IsRun(rules, more, all) && all[|more|] == w
  {
    hide Next;
    more, all := steps + [step], worlds + [w];
  }

  /** Behind the ACK the session reads it, runs the child and reaps it. */
  lemma ChildIsReaped(rules: Rules, pre: Json, o: ChildOutcome) returns (steps: seq<Step>, worlds: seq<World>)
    requires Encode(PRE, 0, pre).Ok? && Canonical(pre) && Clean(pre) && rules.pre(pre) && OutcomeIsValid(o)
    ensures IsRun(rules, steps, worlds)
    ensures worlds[|steps|] == World(
      Session(ChildDone, pre, Null, 1, 1, Some(o)), Encode(PRE, 0, pre).value, [], [], true,
      Parent(AwaitPost, [], pre, Null), true, false, None)
  {
    steps, worlds := AckIsReached(rules, pre);
    hide Encode, Canonical, Clean, Turn, IsRun, OutcomeIsValid;
    var w0 := worlds[|steps|];
    var w1 := w0.(session := w0.session.(phase := AckByteRead), stdin := []);
    assert ACK[..1] == ACK && ACK[1..] == [];
    steps, worlds := OneMoreStep(rules, steps, worlds, ReadAckByte, w1);
    var w2 := w1.(session := w1.session.(phase := AckAccepted));
    steps, worlds := OneMoreStep(rules, steps, worlds, ReadAckEnd, w2);
    var w3 := w2.(session := w2.session.(phase := ChildRunning, launches := 1));
    steps, worlds := OneMoreStep(rules, steps, worlds, LaunchChild, w3);
    var w4 := w3.(session := w3.session.(phase := ChildDone, reaped := 1, outcome := Some(o)));
    steps, worlds := OneMoreStep(rules, steps, worlds, ReapChild(o), w4);
  }

  /** The session reports the child, and the parent has all of the report in its buffer. */
  lemma ReportIsRead(rules: Rules, pre: Json, post: Json, o: ChildOutcome)
    returns (steps: seq<Step>, worlds: seq<World>)
    requires GoodExchange(rules, pre, post, o)
    ensures IsRun(rules, steps, worlds)
    ensures var w, e := worlds[|steps|], Encode(POST, 1, post).value;
      && w.session == Session(PostSent, pre, post, 1, 1, Some(o)) && w.stdout == [] && w.acked
      && w.parent == Parent(AwaitPost, e, pre, Null) && !w.parentFailed && w.result.None?
  {
    steps, worlds := ChildIsReaped(rules, pre, o);
    hide Encode, Canonical, Clean, Turn, IsRun, OutcomeIsValid, ExchangeIsValid, Reports;
    var w0 := worlds[|steps|];
    var e := Encode(POST, 1, post).value;
    assert [] + e == e;
    var w1 := w0.(session := w0.session.(phase := PostSent, post := post), sent := w0.sent + e, stdout := e);
    assert SessionStep(rules, w0, WritePost(post), w1);
    steps, worlds := OneMoreStep(rules, steps, worlds, WritePost(post), w1);
    FrameIsNotEmpty(POST, 1, post);
    assert e[..|e|] == e && e[|e|..] == [];
    var w2 := w1.(stdout := [], parent := w1.parent.(output := e));
    assert ParentStep(rules, w1, ParentReads(|e|), w2);
    steps, worlds := OneMoreStep(rules, steps, worlds, ParentReads(|e|), w2);
  }

  lemma ReportIsTaken(rules: Rules, pre: Json, post: Json, w: World, w': World)
    requires Encode(POST, 1, post).Ok? && Canonical(post) && Clean(post) && ExchangeIsValid(rules, pre, ACK, post)
    requires w.parent == Parent(AwaitPost, Encode(POST, 1, post).value, pre, Null)
    requires !w.parentFailed && w.result.None? && w' == w.(parent := Parent(Terminal, [], pre, post))
    ensures ParentStep(rules, w, ParentTurns(true), w')
  {
    hide Encode, Canonical, Clean, Turn, ExchangeIsValid;
    FrameMovesParent(rules, w.parent, POST, 1, post);
  }

  lemma EndIsAccepted(rules: Rules, w: World, w': World)
    requires w.parent.stage.Terminal? && w.parent.output == [] && w.stdout == [] && w.session.phase.Finished?
    requires !w.parentFailed && w.result.None? && w' == w.(result := Some((w.parent.pre, w.parent.post)))
    ensures ParentStep(rules, w, ParentAccepts, w')
  {
    hide FromBig4, Decode;
  }

  /** Some interleaving takes every good exchange to its result: nothing in the protocol stops it. */
  lemma GoodExchangeHasARun(rules: Rules, pre: Json, post: Json, o: ChildOutcome)
    returns (steps: seq<Step>, worlds: seq<World>)
    requires GoodExchange(rules, pre, post, o)
    ensures IsRun(rules, steps, worlds)
    ensures var w := worlds[|steps|];
      w.result == Some((pre, post)) && w.session == Session(Finished, pre, post, 1, 1, Some(o))
  {
    steps, worlds := ReportIsRead(rules, pre, post, o);
    var w0 := worlds[|steps|];
    var w1 := w0.(parent := Parent(Terminal, [], pre, post));
    ReportIsTaken(rules, pre, post, w0, w1);
    hide Encode, Canonical, Clean, IsRun, OutcomeIsValid, ExchangeIsValid, Reports, ParentStep;
    steps, worlds := OneMoreStep(rules, steps, worlds, ParentTurns(true), w1);
    var w2 := w1.(session := w1.session.(phase := Finished));
    assert SessionStep(rules, w1, CloseOutput, w2);
    steps, worlds := OneMoreStep(rules, steps, worlds, CloseOutput, w2);
    var w3 := w2.(result := Some((pre, post)));
    EndIsAccepted(rules, w2, w3);
    steps, worlds := OneMoreStep(rules, steps, worlds, ParentAccepts, w3);
  }
}
