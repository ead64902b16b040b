/** The parent side of the PRE/ACK/POST exchange: frames cut out of a growing output buffer. */
module FixtureHarness {
  import opened Results
  import opened CanonicalJson
  import opened Frames

  const MAX_OUTPUT_BYTES: nat := 4128
  const MAX_DIAGNOSTIC_BYTES: nat := 1024
  const ACK: Bytes := [6]

  // ---------------------------------------------------------------- receipts

  function Key(name: string): Text {
    seq(|name|, (i: nat) requires i < |name| => (name[i] as int) % 0x11_0000)
  }

  const IDENTITY_KEYS: seq<string> := ["schema", "namespace", "nonce", "config_sha256", "inputs", "row"]

  /** The value of the first member with this key. */
  function Lookup(members: seq<Member>, key: Text): Option<Json> {
    if members == [] then None
    else if members[0].key == key then Some(members[0].value)
    else Lookup(members[1..], key)
  }

  function Field(v: Json, name: string): Option<Json> {
    if v.Obj? then Lookup(v.members, Key(name)) else None
  }

  /** Both payloads carry the same value under each of the names. */
  predicate AgreeOn(a: Json, b: Json, names: seq<string>) {
    forall i :: 0 <= i < |names| ==> Field(a, names[i]) == Field(b, names[i])
  }

  /** The field-by-field receipt checks, as predicates, and the names of the shared attestation. */
  datatype Rules = Rules(pre: Json -> bool, post: Json -> bool, attestation: seq<string>)

  predicate ClockAdvances(post: Json) {
    var a, b := Field(post, "pre_monotonic_ns"), Field(post, "post_monotonic_ns");
    a.Some? && b.Some? && a.value.Int? && b.value.Int? && a.value.number <= b.value.number
  }

  /** `validate_exchange`: both receipts, the ACK byte, equal identities and attestations, clocks. */
  predicate ExchangeIsValid(rules: Rules, pre: Json, ack: Bytes, post: Json) {
    && rules.pre(pre) && ack == ACK && rules.post(post)
    && AgreeOn(pre, post, IDENTITY_KEYS)
    && Field(pre, "attestation").Some? && Field(post, "attestation").Some?
    && AgreeOn(Field(pre, "attestation").value, Field(post, "attestation").value, rules.attestation)
    && ClockAdvances(post)
  }

  // ---------------------------------------------------------------- frames out of a buffer

  datatype Next = Wait | Bad | Got(frame: Frame, used: nat)

  /** `_next_frame`: wait for a whole frame, and refuse a broken one as soon as it is whole. */
  function NextFrame(buffer: Bytes): (n: Next)
    ensures n.Got? ==> 0 < n.used <= |buffer|
  {
    if |buffer| < HEADER_BYTES then Wait
    else
      var size := FromBig4(buffer[12..16]);
      if size > MAX_PAYLOAD_BYTES then Bad
      else if |buffer| < HEADER_BYTES + size then Wait
      else
        var decoded := Decode(buffer[..HEADER_BYTES + size]);
        if decoded.Err? then Bad else Got(decoded.value.0, HEADER_BYTES + size)
  }

  /** A frame cut out of the buffer is the encoding at its front. */
  lemma NextFrameIsEncoding(buffer: Bytes)
    requires NextFrame(buffer).Got?
    ensures var Got(frame, used) := NextFrame(buffer);
      Encode(frame.kind, frame.sequence, frame.payload) == Ok(buffer[..used])
      && Canonical(frame.payload) && Clean(frame.payload)
  {
    var Got(frame, used) := NextFrame(buffer);
    var raw := buffer[..used];
    EncodeDecode(raw);
    assert raw[12..16] == buffer[12..16] && raw[..used] == raw;
  }

  /** An encoded clean frame at the front of a buffer is cut out of it, whatever follows. */
  lemma EncodingIsNextFrame(kind: FrameType, sequence: nat, payload: Json, rest: Bytes)
    requires Encode(kind, sequence, payload).Ok? && Canonical(payload) && Clean(payload)
    ensures var e := Encode(kind, sequence, payload).value;
      NextFrame(e + rest) == Got(Frame(kind, sequence, payload), |e|)
  {
    var e := Encode(kind, sequence, payload).value;
    var body := Print(payload);
    DecodeEncode(kind, sequence, payload, []);
    assert e + [] == e;
    assert e + rest == Header(kind, sequence, |body|) + (body + rest);
    HeaderFields(kind, sequence, |body|, body + rest);
    BigRoundTrips(sequence, |body|);
    assert (e + rest)[..|e|] == e;
  }

  // ---------------------------------------------------------------- the parent state machine

  datatype Stage = AwaitPre | AwaitPost | Terminal

  datatype Parent = Parent(stage: Stage, output: Bytes, pre: Json, post: Json)

  const START := Parent(AwaitPre, [], Null, Null)

  datatype Advance = Idle | Failed | Moved(parent: Parent)

  /** One turn of the loop on the current buffer; `acked` is the outcome of writing the ACK byte. */
  function Turn(rules: Rules, p: Parent, acked: bool): Advance {
    match NextFrame(p.output)
    case Wait => Idle
    case Bad => Failed
    case Got(frame, used) =>
      var rest := p.output[used..];
      match p.stage
      case AwaitPre =>
        if frame.kind.PRE? && frame.sequence == 0 && rest == [] && rules.pre(frame.payload) && acked
        then Moved(Parent(AwaitPost, [], frame.payload, Null)) else Failed
      case AwaitPost =>
        if frame.kind.POST? && frame.sequence == 1 && rest == []
           && ExchangeIsValid(rules, p.pre, ACK, frame.payload)
        then Moved(Parent(Terminal, [], p.pre, frame.payload)) else Failed
      case Terminal => Failed
  }

  /** What the parent has consumed so far, in terms of the frames it has accepted. */
  ghost predicate Consumed(rules: Rules, p: Parent, stream: Bytes) {
    match p.stage
    case AwaitPre => stream == p.output
    case AwaitPost =>
      && Encode(PRE, 0, p.pre).Ok? && rules.pre(p.pre) && Canonical(p.pre) && Clean(p.pre)
      && stream == Encode(PRE, 0, p.pre).value + p.output
    case Terminal =>
      && Encode(PRE, 0, p.pre).Ok? && Encode(POST, 1, p.post).Ok?
      && Canonical(p.pre) && Clean(p.pre) && Canonical(p.post) && Clean(p.post)
      && ExchangeIsValid(rules, p.pre, ACK, p.post)
      && stream == Encode(PRE, 0, p.pre).value + Encode(POST, 1, p.post).value + p.output
  }

  lemma TurnConsumes(rules: Rules, p: Parent, acked: bool, stream: Bytes)
    requires Consumed(rules, p, stream) && Turn(rules, p, acked).Moved?
    ensures Consumed(rules, Turn(rules, p, acked).parent, stream)
    ensures NextFrame(Turn(rules, p, acked).parent.output).Wait?
    ensures acked || p.stage != AwaitPre
  {
    var Got(frame, used) := NextFrame(p.output);
    NextFrameIsEncoding(p.output);
    assert p.output == p.output[..used] + p.output[used..];
    var next := Turn(rules, p, acked).parent;
    match p.stage
    case AwaitPre => assert stream == Encode(PRE, 0, next.pre).value + [];
    case AwaitPost =>
      assert stream == Encode(PRE, 0, p.pre).value + Encode(POST, 1, next.post).value + [];
  }

  lemma ReadConsumes(rules: Rules, p: Parent, chunk: Bytes, stream: Bytes)
    requires Consumed(rules, p, stream)
    ensures Consumed(rules, p.(output := p.output + chunk), stream + chunk)
  {
    match p.stage
    case AwaitPre =>
    case AwaitPost =>
      var e := Encode(PRE, 0, p.pre).value;
      assert (e + p.output) + chunk == e + (p.output + chunk);
    case Terminal =>
      var e := Encode(PRE, 0, p.pre).value + Encode(POST, 1, p.post).value;
      assert (e + p.output) + chunk == e + (p.output + chunk);
  }

  // ---------------------------------------------------------------- the parent loop

  datatype Pipe = Stdout | Stderr

  /** What one wait for the pipes yields; an empty chunk is the end of that stream. */
  datatype Read = Chunk(pipe: Pipe, bytes: Bytes) | Fault

  datatype Outcome = Rejected | Accepted(pre: Json, post: Json, diagnostic: Bytes)

  ghost predicate Ended(script: seq<Read>, pipe: Pipe, i: nat)
    requires i <= |script|
  {
    exists k :: 0 <= k < i && script[k] == Chunk(pipe, [])
  }

  ghost predicate NoFault(script: seq<Read>, i: nat)
    requires i <= |script|
  {
    forall k :: 0 <= k < i ==> script[k].Chunk?
  }

  /** What the first i reads yield of one stream, up to its end. */
  ghost function Written(script: seq<Read>, pipe: Pipe, i: nat): Bytes
    requires i <= |script|
  {
    if i == 0 then []
    else
      var before, r := Written(script, pipe, i - 1), script[i - 1];
      if r.Chunk? && r.pipe == pipe && !Ended(script, pipe, i - 1) then before + r.bytes else before
  }

  lemma {:induction false} WrittenGrows(script: seq<Read>, pipe: Pipe, i: nat, j: nat)
    requires i <= j <= |script|
    ensures Written(script, pipe, i) <= Written(script, pipe, j)
    ensures Ended(script, pipe, i) ==> Ended(script, pipe, j) && Written(script, pipe, i) == Written(script, pipe, j)
    decreases j
  {
    if i < j {
      WrittenGrows(script, pipe, i, j - 1);
    }
  }

  /** An accepted stream: the two frames, a valid exchange, and a tail without a whole frame. */
  ghost predicate AcceptedStream(rules: Rules, stream: Bytes, pre: Json, post: Json) {
    && Encode(PRE, 0, pre).Ok? && Encode(POST, 1, post).Ok?
    && Canonical(pre) && Clean(pre) && Canonical(post) && Clean(post)
    && ExchangeIsValid(rules, pre, ACK, post)
    && exists tail :: stream == Encode(PRE, 0, pre).value + Encode(POST, 1, post).value + tail
         && NextFrame(tail).Wait?
  }

  /**
   * A child that plays by the rules: some read ends with the last byte of PRE, a later one with the
   * last byte of POST, and both streams end without a fault, a third frame or too much diagnostic.
   */
  ghost predicate PlaysAlong(rules: Rules, script: seq<Read>, pre: Json, post: Json, a: nat, b: nat, n: nat) {
    && a <= b <= n <= |script| && NoFault(script, n) && Ended(script, Stdout, n) && Ended(script, Stderr, n)
    && AcceptedStream(rules, Written(script, Stdout, n), pre, post)
    && Written(script, Stdout, a) == Encode(PRE, 0, pre).value
    && Written(script, Stdout, b) == Encode(PRE, 0, pre).value + Encode(POST, 1, post).value
    && |Written(script, Stderr, n)| <= MAX_DIAGNOSTIC_BYTES
  }

  ghost predicate CanBeAccepted(rules: Rules, script: seq<Read>) {
    exists pre, post, a, b, n :: PlaysAlong(rules, script, pre, post, a, b, n)
  }

  // ------------------------------------------------ what the parent has seen after i reads

  /** Before each read the stage has been reached at the first read that allows it. */
  ghost predicate Prompt(p: Parent, script: seq<Read>, i: nat)
    requires i <= |script|
  {
    match p.stage
    case AwaitPre => forall k :: 0 <= k < i ==> NextFrame(Written(script, Stdout, k)).Wait?
    case AwaitPost =>
      Encode(PRE, 0, p.pre).Ok? &&
      var e := Encode(PRE, 0, p.pre).value;
      && (exists a :: 0 <= a <= i && Written(script, Stdout, a) == e)
      && forall k :: 0 <= k < i && e <= Written(script, Stdout, k) ==>
           NextFrame(Written(script, Stdout, k)[|e|..]).Wait?
    case Terminal =>
      Encode(PRE, 0, p.pre).Ok? && Encode(POST, 1, p.post).Ok? &&
      var e := Encode(PRE, 0, p.pre).value;
      exists a, b :: 0 <= a <= b <= i && Written(script, Stdout, a) == e
        && Written(script, Stdout, b) == e + Encode(POST, 1, p.post).value
  }

  /** The parent after i reads and some turns. */
  ghost predicate Seen(rules: Rules, p: Parent, script: seq<Read>, i: nat) {
    && i <= |script| && NoFault(script, i) && Consumed(rules, p, Written(script, Stdout, i)) && Prompt(p, script, i)
  }

  /** A proper prefix of an encoding is no frame yet, and no broken one. */
  lemma PrefixWaits(kind: FrameType, sequence: nat, payload: Json, buffer: Bytes)
    requires Encode(kind, sequence, payload).Ok?
    requires buffer < Encode(kind, sequence, payload).value
    ensures NextFrame(buffer).Wait?
  {
    var body := Print(payload);
    var e := Encode(kind, sequence, payload).value;
    HeaderFields(kind, sequence, |body|, body);
    BigRoundTrips(sequence, |body|);
    if HEADER_BYTES <= |buffer| {
      assert buffer[12..16] == e[12..16];
    }
  }

  /** What is short of a frame is small, and was short of a frame before. */
  lemma WaitingIsSmall(buffer: Bytes, shorter: Bytes)
    requires NextFrame(buffer).Wait? && shorter <= buffer
    ensures |buffer| <= MAX_OUTPUT_BYTES && NextFrame(shorter).Wait?
  {
    if HEADER_BYTES <= |shorter| {
      assert shorter[12..16] == buffer[12..16];
    }
  }

  lemma WaitingHoldsNoFrame(kind: FrameType, sequence: nat, payload: Json, buffer: Bytes)
    requires Encode(kind, sequence, payload).Ok? && Canonical(payload) && Clean(payload)
    requires NextFrame(buffer).Wait?
    ensures !(Encode(kind, sequence, payload).value <= buffer)
  {
    var e := Encode(kind, sequence, payload).value;
    if e <= buffer {
      assert buffer == e + buffer[|e|..];
      EncodingIsNextFrame(kind, sequence, payload, buffer[|e|..]);
    }
  }

  lemma SeenMoves(rules: Rules, p: Parent, acked: bool, script: seq<Read>, i: nat)
    requires Seen(rules, p, script, i) && Turn(rules, p, acked).Moved?
    ensures Seen(rules, Turn(rules, p, acked).parent, script, i)
  {
    var next := Turn(rules, p, acked).parent;
    TurnConsumes(rules, p, acked, Written(script, Stdout, i));
    var e := Encode(PRE, 0, next.pre).value;
    if p.stage == AwaitPre {
      assert Written(script, Stdout, i) == e + [] == e;
      forall k | 0 <= k < i
        ensures !(e <= Written(script, Stdout, k))
      {
        WaitingHoldsNoFrame(PRE, 0, next.pre, Written(script, Stdout, k));
      }
    } else {
      var f := Encode(POST, 1, next.post).value;
      assert Written(script, Stdout, i) == e + f + [] == e + f;
    }
  }

  lemma SeenReads(rules: Rules, p: Parent, script: seq<Read>, i: nat, q: Parent)
    requires Seen(rules, p, script, i) && NextFrame(p.output).Wait? && i < |script| && script[i].Chunk?
    requires q == if script[i].pipe == Stdout && !Ended(script, Stdout, i)
                  then p.(output := p.output + script[i].bytes) else p
    ensures Seen(rules, q, script, i + 1)
  {
    hide Encode, Canonical, Clean, NextFrame, ExchangeIsValid;
    ReadConsumes(rules, p, script[i].bytes, Written(script, Stdout, i));
    assert Written(script, Stdout, i) ==
      match p.stage
      case AwaitPre => p.output
      case AwaitPost => Encode(PRE, 0, p.pre).value + p.output
      case Terminal => Encode(PRE, 0, p.pre).value + Encode(POST, 1, p.post).value + p.output;
  }

  /** With a child that plays along no turn fails, and a turn without a frame has frames to come. */
  lemma TurnSucceeds(
    rules: Rules, p: Parent, script: seq<Read>, i: nat, pre: Json, post: Json, a: nat, b: nat, n: nat)
    requires Seen(rules, p, script, i) && PlaysAlong(rules, script, pre, post, a, b, n) && i <= n
    ensures !Turn(rules, p, true).Failed?
    ensures Turn(rules, p, true).Idle? ==> |p.output| <= MAX_OUTPUT_BYTES
    ensures Turn(rules, p, true).Idle? && p.stage != Terminal ==>
      exists later :: i < later <= n && Written(script, Stdout, later) != Written(script, Stdout, i)
  {
    hide Encode, Canonical, Clean, Turn, NextFrame, Prompt, Written, Ended, NoFault, AgreeOn, ClockAdvances;
    var e, f := Encode(PRE, 0, pre).value, Encode(POST, 1, post).value;
    var w, all := Written(script, Stdout, i), Written(script, Stdout, n);
    var tail :| all == e + f + tail && NextFrame(tail).Wait?;
    WrittenGrows(script, Stdout, i, n);
    match p.stage
    case AwaitPre => AwaitsPre(rules, p, script, i, pre, a);
    case AwaitPost =>
      FirstIsPre(p.pre, pre, w, all, f + tail);
      AwaitsPost(rules, p, script, i, post, b);
    case Terminal =>
      TailWaits(p.pre, p.post, p.output, pre, post, tail, all[|w|..]);
      WaitingIsIdle(rules, p);
  }

  lemma WaitingIsIdle(rules: Rules, p: Parent)
    requires NextFrame(p.output).Wait?
    ensures Turn(rules, p, true).Idle?
  {
  }

  /** What follows the two frames is short of a third one. */
  lemma TailWaits(pre: Json, post: Json, buffer: Bytes, pre': Json, post': Json, tail: Bytes, more: Bytes)
    requires Encode(PRE, 0, pre).Ok? && Canonical(pre) && Clean(pre)
    requires Encode(PRE, 0, pre').Ok? && Canonical(pre') && Clean(pre')
    requires Encode(POST, 1, post).Ok? && Canonical(post) && Clean(post)
    requires Encode(POST, 1, post').Ok? && Canonical(post') && Clean(post')
    requires Encode(PRE, 0, pre).value + Encode(POST, 1, post).value + buffer + more
          == Encode(PRE, 0, pre').value + Encode(POST, 1, post').value + tail
    requires NextFrame(tail).Wait?
    ensures NextFrame(buffer).Wait? && |buffer| <= MAX_OUTPUT_BYTES
  {
    hide Encode, Canonical, Clean;
    var e, f := Encode(PRE, 0, pre).value, Encode(POST, 1, post).value;
    var g, h := Encode(PRE, 0, pre').value, Encode(POST, 1, post').value;
    assert e + f + buffer + more == e + (f + (buffer + more)) && g + h + tail == g + (h + tail);
    FirstPayloadIsUnique(PRE, 0, pre, f + (buffer + more), pre', h + tail);
    FirstPayloadIsUnique(POST, 1, post, buffer + more, post', tail);
    WaitingIsSmall(tail, buffer);
  }

  lemma FirstIsPre(pre: Json, pre': Json, w: Bytes, all: Bytes, rest: Bytes)
    requires Encode(PRE, 0, pre).Ok? && Canonical(pre) && Clean(pre)
    requires Encode(PRE, 0, pre').Ok? && Canonical(pre') && Clean(pre')
    requires Encode(PRE, 0, pre).value <= w <= all && all == Encode(PRE, 0, pre').value + rest
    ensures pre == pre'
  {
    var e := Encode(PRE, 0, pre).value;
    assert all == e + all[|e|..];
    FirstPayloadIsUnique(PRE, 0, pre, all[|e|..], pre', rest);
  }

  lemma AwaitsPre(rules: Rules, p: Parent, script: seq<Read>, i: nat, pre: Json, a: nat)
    requires Seen(rules, p, script, i) && p.stage == AwaitPre && a <= |script|
    requires Encode(PRE, 0, pre).Ok? && Canonical(pre) && Clean(pre) && rules.pre(pre)
    requires Written(script, Stdout, a) == Encode(PRE, 0, pre).value
    ensures i <= a && p.output <= Encode(PRE, 0, pre).value
    ensures !Turn(rules, p, true).Failed?
    ensures Turn(rules, p, true).Idle? ==>
      i < a && p.output != Encode(PRE, 0, pre).value && |p.output| <= MAX_OUTPUT_BYTES
  {
    hide Encode, Canonical, Clean, NextFrame, Written;
    var e := Encode(PRE, 0, pre).value;
    EncodingIsNextFrame(PRE, 0, pre, []);
    assert e + [] == e;
    if i <= a {
      WrittenGrows(script, Stdout, i, a);
      if p.output != e {
        PrefixWaits(PRE, 0, pre, p.output);
      }
    }
  }

  lemma AwaitsPost(rules: Rules, p: Parent, script: seq<Read>, i: nat, post: Json, b: nat)
    requires Seen(rules, p, script, i) && p.stage == AwaitPost && b <= |script|
    requires Encode(POST, 1, post).Ok? && Canonical(post) && Clean(post) && ExchangeIsValid(rules, p.pre, ACK, post)
    requires Written(script, Stdout, b) == Encode(PRE, 0, p.pre).value + Encode(POST, 1, post).value
    ensures i <= b && p.output <= Encode(POST, 1, post).value
    ensures !Turn(rules, p, true).Failed?
    ensures Turn(rules, p, true).Idle? ==>
      i < b && p.output != Encode(POST, 1, post).value && |p.output| <= MAX_OUTPUT_BYTES
  {
    hide Encode, Canonical, Clean, NextFrame, Written, ExchangeIsValid;
    var e, f := Encode(PRE, 0, p.pre).value, Encode(POST, 1, post).value;
    EncodingIsNextFrame(POST, 1, post, []);
    assert f + [] == f && (e + f)[|e|..] == f;
    if i <= b {
      WrittenGrows(script, Stdout, i, b);
      assert (e + p.output)[|e|..] == p.output;
      if p.output != f {
        PrefixWaits(POST, 1, post, p.output);
      }
    }
  }

  /** Before i reads the two streams have not both ended. */
  ghost predicate StillOpen(script: seq<Read>, i: nat)
    requires i <= |script|
  {
    forall k :: 0 <= k < i ==> !(Ended(script, Stdout, k) && Ended(script, Stderr, k))
  }

  /** A turn that fails after the ACK could be written rules out every acceptance. */
  lemma FailureIsFinal(rules: Rules, p: Parent, script: seq<Read>, i: nat)
    requires Seen(rules, p, script, i) && StillOpen(script, i) && Turn(rules, p, true).Failed?
    ensures !CanBeAccepted(rules, script)
  {
    forall pre, post, a, b, n | PlaysAlong(rules, script, pre, post, a, b, n)
      ensures false
    {
      TurnSucceeds(rules, p, script, i, pre, post, a, b, n);
    }
  }

  /** What the next read must be when the child plays along. */
  lemma NextReadIsFit(rules: Rules, p: Parent, script: seq<Read>, i: nat)
    requires Seen(rules, p, script, i) && StillOpen(script, i) && Turn(rules, p, true).Idle?
    requires !(Ended(script, Stdout, i) && Ended(script, Stderr, i)) && CanBeAccepted(rules, script)
    ensures |p.output| <= MAX_OUTPUT_BYTES && i < |script| && script[i].Chunk?
    ensures script[i] == Chunk(Stdout, []) ==> p.stage == Terminal
    ensures |Written(script, Stderr, i + 1)| <= MAX_DIAGNOSTIC_BYTES
  {
    hide Seen, Turn, AcceptedStream;
    var pre, post, a, b, n :| PlaysAlong(rules, script, pre, post, a, b, n);
    TurnSucceeds(rules, p, script, i, pre, post, a, b, n);
    WrittenGrows(script, Stderr, i + 1, n);
    if script[i] == Chunk(Stdout, []) && p.stage != Terminal {
      var later :| i < later <= n && Written(script, Stdout, later) != Written(script, Stdout, i);
      WrittenGrows(script, Stdout, i + 1, later);
    }
  }

  lemma EndIsPlayingAlong(rules: Rules, p: Parent, script: seq<Read>, i: nat)
    requires Seen(rules, p, script, i) && p.stage == Terminal && NextFrame(p.output).Wait?
    requires Ended(script, Stdout, i) && Ended(script, Stderr, i)
    requires |Written(script, Stderr, i)| <= MAX_DIAGNOSTIC_BYTES
    ensures AcceptedStream(rules, Written(script, Stdout, |script|), p.pre, p.post)
    ensures CanBeAccepted(rules, script) && Written(script, Stderr, |script|) == Written(script, Stderr, i)
  {
    WrittenGrows(script, Stdout, i, |script|);
    WrittenGrows(script, Stderr, i, |script|);
    var e := Encode(PRE, 0, p.pre).value;
    var a, b :| 0 <= a <= b <= i && Written(script, Stdout, a) == e
      && Written(script, Stdout, b) == e + Encode(POST, 1, p.post).value;
    assert PlaysAlong(rules, script, p.pre, p.post, a, b, i);
  }

  /**
   * `run_controlled_fixture` on a started child: `script` is what the pipes yield, in whatever
   * chunks, `acked` the outcome of the one ACK write and `exitedCleanly` that of the final wait.
   */
  method RunFixture(rules: Rules, script: seq<Read>, acked: bool, exitedCleanly: bool) returns (o: Outcome)
    ensures o.Accepted? <==> acked && exitedCleanly && CanBeAccepted(rules, script)
    ensures o.Accepted? ==>
      && AcceptedStream(rules, Written(script, Stdout, |script|), o.pre, o.post)
      && o.diagnostic == Written(script, Stderr, |script|) && |o.diagnostic| <= MAX_DIAGNOSTIC_BYTES
  {
    hide Consumed, Prompt, ExchangeIsValid, NextFrame, PlaysAlong, AcceptedStream;
    var parent := START;
    var diagnostic: Bytes := [];
    var stdoutClosed, stderrClosed := false, false;
    var i := 0;
    NothingSeen(rules, script);
    while !(stdoutClosed && stderrClosed && parent.stage == Terminal)
      invariant 0 <= i <= |script| && Seen(rules, parent, script, i) && StillOpen(script, i)
      invariant parent.stage != AwaitPre ==> acked
      invariant stdoutClosed ==> parent.stage == Terminal && NextFrame(parent.output).Wait?
      invariant stdoutClosed == Ended(script, Stdout, i) && stderrClosed == Ended(script, Stderr, i)
      invariant diagnostic == Written(script, Stderr, i) && |diagnostic| <= MAX_DIAGNOSTIC_BYTES
      decreases |script| - i, if parent.stage == AwaitPre then 2 else if parent.stage == AwaitPost then 1 else 0
    {
      var turn := Turn(rules, parent, acked);
      if turn.Failed? {
        if acked {
          FailureIsFinal(rules, parent, script, i);
        }
        return Rejected;
      }
      if turn.Moved? {
        SeenMoves(rules, parent, acked, script, i);
        parent := turn.parent;
        continue;
      }
      if CanBeAccepted(rules, script) {
        NextReadIsFit(rules, parent, script, i);
      }
      if |parent.output| > MAX_OUTPUT_BYTES || i == |script| || script[i].Fault? {
        return Rejected;
      }
      ghost var waiting := parent;
      var Chunk(pipe, bytes) := script[i];
      if pipe == Stdout && !stdoutClosed {
        if bytes == [] {
          if parent.stage != Terminal {
            return Rejected;
          }
          stdoutClosed := true;
          assert parent.output + bytes == parent.output;
        }
        parent := parent.(output := parent.output + bytes);
      } else if pipe == Stderr && !stderrClosed {
        stderrClosed := bytes == [];
        diagnostic := diagnostic + bytes;
        if |diagnostic| > MAX_DIAGNOSTIC_BYTES {
          return Rejected;
        }
      }
      SeenReads(rules, waiting, script, i, parent);
      i := i + 1;
    }
    if !exitedCleanly {
      return Rejected;
    }
    EndIsPlayingAlong(rules, parent, script, i);
    o := Accepted(parent.pre, parent.post, diagnostic);
  }

  lemma NothingSeen(rules: Rules, script: seq<Read>)
    ensures Seen(rules, START, script, 0) && StillOpen(script, 0)
  {
  }

  /** However the same bytes were chunked, two acceptances read the same payloads. */
  lemma AcceptedPayloadsAreUnique(
    rules: Rules, stream: Bytes, pre: Json, post: Json, pre': Json, post': Json)
    requires AcceptedStream(rules, stream, pre, post) && AcceptedStream(rules, stream, pre', post')
    ensures pre == pre' && post == post'
  {
    var a, b := Encode(PRE, 0, pre).value, Encode(POST, 1, post).value;
    var a', b' := Encode(PRE, 0, pre').value, Encode(POST, 1, post').value;
    var tail :| stream == a + b + tail && NextFrame(tail).Wait?;
    var tail' :| stream == a' + b' + tail' && NextFrame(tail').Wait?;
    Regroup(a, b, tail);
    Regroup(a', b', tail');
    FirstPayloadIsUnique(PRE, 0, pre, b + tail, pre', b' + tail');
    FirstPayloadIsUnique(POST, 1, post, tail, post', tail');
  }

  lemma FirstPayloadIsUnique(
    kind: FrameType, sequence: nat, p: Json, rest: Bytes, p': Json, rest': Bytes)
    requires Encode(kind, sequence, p).Ok? && Canonical(p) && Clean(p)
    requires Encode(kind, sequence, p').Ok? && Canonical(p') && Clean(p')
    requires Encode(kind, sequence, p).value + rest == Encode(kind, sequence, p').value + rest'
    ensures p == p' && rest == rest'
  {
    var e, e' := Encode(kind, sequence, p).value, Encode(kind, sequence, p').value;
    EncodingIsNextFrame(kind, sequence, p, rest);
    EncodingIsNextFrame(kind, sequence, p', rest');
    assert rest == (e + rest)[|e|..] && rest' == (e' + rest')[|e'|..];
  }

  /**
   * Whether stray bytes after POST are refused depends on the chunking: in the chunk that completes
   * POST they are, one read later they wait in the buffer unnoticed.
   */
  lemma TrailingBytesDependOnChunking(rules: Rules, p: Parent, post: Json, stray: Bytes)
    requires p.stage == AwaitPost && Encode(POST, 1, post).Ok? && Canonical(post) && Clean(post)
    requires ExchangeIsValid(rules, p.pre, ACK, post)
    requires 0 < |stray| < HEADER_BYTES
    ensures var e := Encode(POST, 1, post).value;
      && Turn(rules, p.(output := e + stray), true) == Failed
      && Turn(rules, p.(output := e), true) == Moved(Parent(Terminal, [], p.pre, post))
      && Turn(rules, Parent(Terminal, stray, p.pre, post), true) == Idle
  {
    var e := Encode(POST, 1, post).value;
    EncodingIsNextFrame(POST, 1, post, stray);
    EncodingIsNextFrame(POST, 1, post, []);
    assert e + [] == e && e[|e|..] == [];
    assert (e + stray)[|e|..] == stray;
  }
}
