/**
 * The pipeline together with its ledger: what the ledger pushes goes through the pipeline, whose
 * answers decide how far the ledger gets.
 */
module PluginMidi {
  import opened MidiMerge
  import opened MidiPanic
  import P = MidiPipeline
  import L = NoteLedger

  class Plugin {
    const pipeline: P.MidiPipeline
    const ledger: L.NoteLedger

    /** A channel owes its panic only while the output is blocked. */
    ghost predicate Valid()
      reads this, pipeline, ledger
    {
      && pipeline.Valid() && ledger.Valid()
      && pipeline.outputBlocked == ledger.outputBlocked && pipeline.panicHold == ledger.panicHold
      && (pipeline.channelPanicMask != 0 ==> ledger.outputBlocked)
      && Carry(Sent(pipeline.log), L.Taken(ledger.log))
    }

    /** Folding the accepted note messages gives the notes of the sounding voices, channel by channel. */
    lemma HostHoldsWhatSounds()
      requires Valid()
      ensures HostHolds(Sent(pipeline.log)) == L.Sounding(ledger.voices)
    {
      CarriedIsHeld(Sent(pipeline.log), ledger.log);
    }

    constructor ()
      ensures Valid() && fresh(pipeline) && fresh(ledger)
      ensures pipeline.channelPanicMask == 0 && pipeline.log == [] && ledger.log == []
    {
      pipeline := new P.MidiPipeline();
      ledger := new L.NoteLedger();
    }

    method Deactivate()
      modifies pipeline, ledger
      ensures Valid() && pipeline.channelPanicMask == 0 && pipeline.log == [] && ledger.log == []
    {
      pipeline.Deactivate();
      ledger.Deactivate();
    }

    method Activate(frames: nat, granted: bool) returns (ok: bool)
      modifies pipeline, ledger
      ensures Valid() && pipeline.channelPanicMask == 0 && pipeline.log == [] && ledger.log == []
      ensures ok == ledger.hasStorage
    {
      pipeline.Deactivate();
      ok := ledger.Activate(frames, granted);
    }

    method BeginBlock()
      requires Valid()
      modifies pipeline`invalidEvent, ledger`queue, ledger`invalidTransition
      ensures Valid() && ledger.queue == [] && !pipeline.invalidEvent
    {
      hide Reflects, OnlyMarks, NoneRejected;
      ledger.BeginBlock();
      pipeline.BeginBlock();
    }

    method QueueTransition(t: L.VoiceTransition, frames: nat) returns (ok: bool)
      requires Valid()
      modifies pipeline`invalidEvent, ledger`queue, ledger`invalidTransition
      ensures Valid()
      ensures ledger.queue == if ok then L.Inserted(old(ledger.queue), t) else old(ledger.queue)
      ensures pipeline.invalidEvent == (old(pipeline.invalidEvent) || !ok)
    {
      hide Reflects, OnlyMarks, NoneRejected, L.Consistent, L.ProperVoices, L.Queued, L.NonePending, L.AnsweredBy;
      ok := ledger.QueueTransition(t, frames);
      if !ok {
        pipeline.invalidEvent := true;
      }
    }

    /** `request_panic`: the releases of all sounding voices are queued, or the route is marked and the output blocked. */
    method RequestPanic(offset: nat, frames: nat) returns (complete: bool)
      requires Valid()
      modifies pipeline, ledger
      ensures Valid() && ledger.panicHold && ledger.recoveryRequested
      ensures var room := if ledger.hasStorage && 0 < frames <= ledger.maxFrames && offset < frames
                          then ledger.capacity - |old(ledger.queue)| else 0;
        && complete == (L.Active(old(ledger.voices), MAX_VOICES) <= room)
        && ledger.queue == L.WithReleases(old(ledger.queue), old(ledger.voices), MAX_VOICES, offset, room)
      ensures ledger.outputBlocked == (old(ledger.outputBlocked) || !complete)
      ensures pipeline.log == old(pipeline.log)
        + if complete then [] else [Marked(Route(pipeline.routing, pipeline.startChannel))]
    {
      hide Sent, L.Taken, Carry, L.WithReleases, L.Active, Route;
      hide Reflects, OnlyMarks, NoneRejected, L.Consistent, L.ProperVoices, L.Queued, L.NonePending, L.AnsweredBy;
      ledger.RequestRecovery();
      complete := ledger.QueueActiveReleases(offset, frames);
      pipeline.RequestPanic(complete);
      if !complete {
        ledger.EnterBlocked();
      }
    }

    method RequestReset()
      requires Valid()
      modifies pipeline`panicHold, ledger
      ensures Valid() && ledger.panicHold && L.AllFirm(ledger.voices)
    {
      hide Reflects, OnlyMarks, NoneRejected, L.Consistent, L.ProperVoices, L.Queued, L.NonePending, L.AnsweredBy;
      ledger.RequestReset();
      pipeline.panicHold := true;
    }

    /**
     * `process`: the stream of a call, panic controllers included, is in order whenever the input is
     * calm, and holds every passing input once; detection is allowed only with no panic owed.
     */
    method Process(
      frames: nat, channel: nat, inputs: seq<Input>, connected: bool, answers: nat -> bool, requested: Routing,
      quiet: bool, finiteInput: bool, supportedLayout: bool)
      returns (r: P.ProcessResult, ghost stream: seq<Message>)
      requires Valid()
      modifies pipeline, ledger
      ensures Valid()
      ensures P.Refused(frames, channel, requested) ==> stream == [] && ledger.log == old(ledger.log)
      ensures Offers(pipeline.log) == Offers(old(pipeline.log)) + stream
      ensures forall fine :: Calm(inputs, frames, fine) ==> Sorted(stream, fine)
      ensures connected && !P.Refused(frames, channel, requested) ==>
        OnlyHosts(stream) == Hosts(inputs, frames, 0, |inputs|)
      ensures connected && (forall n :: answers(n)) && !P.Refused(frames, channel, requested) ==>
        && P.Channelled(old(IntendedNow(frames, requested, channel)))
        && OnlyNotes(stream) == NotesOf(old(IntendedNow(frames, requested, channel)))
        && Carry(OnlyNotes(stream), old(IntendedNow(frames, requested, channel)))
        && (old(pipeline.channelPanicMask) != 0 ==> pipeline.channelPanicMask == 0)
      ensures HostHolds(Sent(pipeline.log)) == L.Sounding(ledger.voices)
      ensures r.detectionAllowed ==> pipeline.channelPanicMask == 0 && !ledger.outputBlocked && !ledger.panicHold
      ensures r.outputBlocked == ledger.outputBlocked && r.panicHold == ledger.panicHold
    {
      hide Reflects, OnlyMarks, NoneRejected, L.Consistent, L.ProperVoices, L.Queued, L.NonePending, L.AnsweredBy;
      hide Route, Offers, Plain, Hosts, Weave, Sorted, Calm, OnlyHosts, OnlyNotes, NotesOf, L.Intended;
      hide Sent, L.Taken, Carry, HostHolds, L.Sounding;
      stream := [];
      if P.Refused(frames, channel, requested) {
        pipeline.invalidEvent := true;
        NothingIsSorted();
        assert Offers(pipeline.log) == Offers(pipeline.log) + stream;
        HostHoldsWhatSounds();
        return P.ProcessResult(true, ledger.outputBlocked, ledger.panicHold, false), stream;
      }
      ghost var intended := IntendedNow(frames, requested, channel);
      r, stream := Handle(frames, channel, inputs, connected, answers, requested, quiet, finiteInput, supportedLayout);
      HostHoldsWhatSounds();
      if connected && forall n :: answers(n) {
        NotesCarry(intended);
      }
    }

    /** A call that is not refused: delivery, retried panics, and the rest of the input. */
    method Handle(
      frames: nat, channel: nat, inputs: seq<Input>, connected: bool, answers: nat -> bool, requested: Routing,
      quiet: bool, finiteInput: bool, supportedLayout: bool)
      returns (r: P.ProcessResult, ghost stream: seq<Message>)
      requires Valid() && !P.Refused(frames, channel, requested)
      modifies pipeline, ledger
      ensures Valid() && Offers(pipeline.log) == Offers(old(pipeline.log)) + stream
      ensures forall fine :: Calm(inputs, frames, fine) ==> Sorted(stream, fine)
      ensures connected ==> OnlyHosts(stream) == Hosts(inputs, frames, 0, |inputs|)
      ensures connected && (forall n :: answers(n)) ==>
        && P.Channelled(old(IntendedNow(frames, requested, channel)))
        && OnlyNotes(stream) == NotesOf(old(IntendedNow(frames, requested, channel)))
        && (old(pipeline.channelPanicMask) != 0 ==> pipeline.channelPanicMask == 0)
      ensures r.detectionAllowed ==> pipeline.channelPanicMask == 0 && !ledger.outputBlocked && !ledger.panicHold
      ensures r.outputBlocked == ledger.outputBlocked && r.panicHold == ledger.panicHold
    {
      hide Reflects, OnlyMarks, NoneRejected, L.Consistent, L.ProperVoices, L.Queued, L.NonePending, L.AnsweredBy;
      hide Route, Offers, Plain, Hosts, Weave, Sorted, Calm, OnlyHosts, OnlyNotes, NotesOf, L.Intended;
      hide Sent, L.Taken, Carry;
      ghost var before := pipeline.log;
      var retry := pipeline.channelPanicMask != 0;
      pipeline.StartCall(requested, channel);
      var context := new P.DeliveryContext(inputs, frames, connected, answers);
      ghost var script, first := Generate(context, frames, channel, requested, quiet, finiteInput, supportedLayout, retry);
      ghost var middle := pipeline.log;
      var pending := !L.NonePending(ledger.voices);
      var delivered := P.Delivered(ledger.invalidTransition, ledger.outputBlocked, ledger.panicHold, pending);
      ghost var rest := if connected then Hosts(inputs, frames, context.inputIndex, |inputs|) else [];
      HostsSplit(inputs, frames, 0, context.inputIndex, |inputs|);
      pipeline.Conclude(context, delivered, retry);
      if pipeline.outputBlocked && !ledger.outputBlocked {
        ledger.EnterBlocked();
      }
      r := P.ProcessResult(pipeline.invalidEvent, ledger.outputBlocked, ledger.panicHold,
                           !pipeline.invalidEvent && !ledger.outputBlocked && !ledger.panicHold);
      stream := StreamOfCall(before, middle, pipeline.log, first, retry, rest, connected, inputs, frames, script, answers);
    }

    /** What the ledger would push in this call if every push were accepted. */
    function IntendedNow(frames: nat, routing: Routing, channel: nat): seq<Transition>
      reads this, ledger
    {
      var usable := ledger.hasStorage && 0 < frames <= ledger.maxFrames && !ledger.outputBlocked;
      L.Intended(ledger.voices, ledger.queue, usable, frames, ledger.panicHold, routing, channel)
    }

    /** The ledger's delivery through the pipeline: the ledger pushes what it intends until a push is not accepted. */
    method Generate(
      context: P.DeliveryContext, frames: nat, channel: nat, requested: Routing,
      quiet: bool, finiteInput: bool, supportedLayout: bool, retry: bool)
      returns (ghost script: seq<Transition>, ghost first: seq<Message>)
      requires pipeline.Valid() && ledger.Valid() && context.Valid() && frames > 0 && frames == context.frames
      requires 1 <= channel <= 16 && requested != Unknown && !pipeline.outputBlocked
      requires context.inputIndex == 0 && context.offers == 0
      requires (pipeline.channelPanicMask != 0) == retry && (retry ==> ledger.outputBlocked)
      requires Carry(Sent(pipeline.log), L.Taken(ledger.log))
      modifies pipeline`invalidEvent, pipeline`outputBlocked, pipeline`channelPanicMask, pipeline`log, context, ledger
      ensures pipeline.Valid() && ledger.Valid() && context.Valid() && old(pipeline.log) <= pipeline.log
      ensures old(ledger.log) <= ledger.log && Carry(Sent(pipeline.log), L.Taken(ledger.log))
      ensures script == L.Script(ledger.log, |old(ledger.log)|) && Ordered(script, frames, true)
      ensures NoControls(pipeline.log, |old(pipeline.log)|) && Plain(pipeline.log) == Plain(old(pipeline.log)) + first
      ensures context.connected ==>
        first + Hosts(context.inputs, frames, context.inputIndex, |context.inputs|)
          == Weave(context.inputs, frames, script, context.answers, 0, 0)
      ensures !context.connected ==> first == []
      ensures context.connected && (forall n :: context.answers(n)) ==>
        script == old(IntendedNow(frames, requested, channel)) && (retry ==> L.NonePending(ledger.voices))
      ensures pipeline.outputBlocked ==> ledger.outputBlocked
      ensures pipeline.channelPanicMask != 0 ==> retry || pipeline.outputBlocked
      ensures retry ==>
        && P.AllAtZero(script) && Hosts(context.inputs, frames, 0, context.inputIndex) == []
        && (!L.NonePending(ledger.voices) ==> ledger.outputBlocked)
    {
      hide Reflects, OnlyMarks, NoneRejected, L.Consistent, L.ProperVoices, L.Queued, L.NonePending, L.AnsweredBy;
      hide Route, Offers, Plain, Hosts, Weave, L.Due, L.Course, L.Settled, L.Script, L.Follows, L.BadBlock;
      hide Sent, L.Taken, Carry, NotesOf;
      var usable := ledger.hasStorage && 0 < frames <= ledger.maxFrames && !ledger.outputBlocked;
      var intended := IntendedNow(frames, requested, channel);
      L.IntendedIsRouted(ledger.voices, ledger.queue, usable, frames, ledger.panicHold, requested, channel);
      RoutedIsChannelled(intended);
      if ledger.outputBlocked {
        BlockedIntendsReleases(ledger.voices, ledger.queue, frames, ledger.panicHold, requested, channel);
      }
      hide L.Intended;
      var count, ok;
      count, ok, first := PipelinePasses(context, intended);
      script := intended[..count];
      ghost var passed := intended[..if ok then count else count - 1];
      NotesCarry(passed);
      CarryJoin(Sent(old(pipeline.log)), L.Taken(ledger.log), NotesOf(passed), passed);
      LedgerDelivers(intended, count, ok, frames, channel, requested, quiet, finiteInput, supportedLayout);
    }

    /** The pipeline's side of the delivery, and the messages it offered. */
    method PipelinePasses(context: P.DeliveryContext, intended: seq<Transition>)
      returns (count: nat, ok: bool, ghost first: seq<Message>)
      requires pipeline.Valid() && context.Valid() && P.Channelled(intended) && !pipeline.outputBlocked
      requires context.inputIndex == 0 && context.offers == 0
      modifies pipeline`invalidEvent, pipeline`outputBlocked, pipeline`channelPanicMask, pipeline`log, context
      ensures pipeline.Valid() && context.Valid() && old(pipeline.log) <= pipeline.log
      ensures count <= |intended| && (ok ==> count == |intended|) && (!ok ==> 0 < count)
      ensures pipeline.outputBlocked == !ok && (ok ==> pipeline.channelPanicMask == old(pipeline.channelPanicMask))
      ensures NoControls(pipeline.log, |old(pipeline.log)|) && Plain(pipeline.log) == Plain(old(pipeline.log)) + first
      ensures context.connected ==>
        first + Hosts(context.inputs, context.frames, context.inputIndex, |context.inputs|)
          == Weave(context.inputs, context.frames, intended[..count], context.answers, 0, 0)
      ensures !context.connected ==> first == []
      ensures context.connected && (forall n :: context.answers(n)) ==> ok
      ensures P.AllAtZero(intended) ==> Hosts(context.inputs, context.frames, 0, context.inputIndex) == []
      ensures Sent(pipeline.log) == Sent(old(pipeline.log)) + NotesOf(intended[..if ok then count else count - 1])
    {
      hide Reflects, OnlyMarks, NoneRejected, Route, Plain, Hosts, Weave, NoControls, Sent, NotesOf;
      ghost var start := pipeline.log;
      count, ok := pipeline.DeliverUntilRejected(context, intended);
      PlainGrows(start, pipeline.log);
      first := Plain(pipeline.log)[|Plain(start)|..];
      if context.connected {
        SameBack(Plain(start), first, Hosts(context.inputs, context.frames, context.inputIndex, |context.inputs|),
                 Weave(context.inputs, context.frames, intended[..count], context.answers, 0, 0));
      }
    }

    /** The ledger's side of the delivery, with the answers that the pipeline gave. */
    method LedgerDelivers(
      intended: seq<Transition>, count: nat, ok: bool, frames: nat, channel: nat, requested: Routing,
      quiet: bool, finiteInput: bool, supportedLayout: bool)
      requires ledger.Valid() && frames > 0
      requires intended == IntendedNow(frames, requested, channel)
      requires count <= |intended| && (ok ==> count == |intended|) && (!ok ==> 0 < count)
      modifies ledger
      ensures ledger.Valid() && old(ledger.log) <= ledger.log
      ensures intended[..count] == L.Script(ledger.log, |old(ledger.log)|) && Ordered(intended[..count], frames, true)
      ensures L.Taken(ledger.log) == L.Taken(old(ledger.log)) + intended[..if ok then count else count - 1]
      ensures !ok ==> ledger.outputBlocked
      ensures ok && old(ledger.outputBlocked) ==> L.NonePending(ledger.voices)
      ensures old(ledger.outputBlocked) && !L.NonePending(ledger.voices) ==> ledger.outputBlocked
    {
      hide L.Consistent, L.ProperVoices, L.Queued, L.NonePending, L.AnsweredBy;
      hide L.Due, L.Planned, L.Settled, L.Script, L.Follows, L.BadBlock, L.AllAccepted, L.OnlyOffs, L.NoneActive, L.AllFirm;
      hide L.Taken;
      var taken := |ledger.log| + if ok then count else count - 1;
      ledger.Connect(n => n < taken);
      ghost var was, earlier := ledger.voices, ledger.log;
      SettledHasNonePending(was);
      var _ := ledger.Deliver(frames, quiet, finiteInput, supportedLayout, requested, channel);
      FromTheSink(ledger.log, ledger.since, ledger.sink);
      PushedExactly(intended, ledger.log, |earlier|, count, ok, taken);
      TakenExactly(earlier, ledger.log, intended[..if ok then count else count - 1], ok);
    }
  }

  // ---------------------------------------------------------------- what the host holds

  /** The notes, by channel and number, that note-on messages (status 9x) started and none of status 8x ended. */
  function HostHolds(sent: seq<Message>): multiset<(nat, nat)> {
    if sent == [] then multiset{}
    else
      var before, last := HostHolds(sent[..|sent| - 1]), sent[|sent| - 1];
      if !last.Note? then before
      else
        var key := multiset{(last.status % 16 + 1, last.note)};
        if last.status / 16 == 9 then before + key else if last.status / 16 == 8 then before - key else before
  }

  lemma HoldsNext(sent: seq<Message>, m: Message)
    requires m.Note?
    ensures HostHolds(sent + [m]) ==
      var key := multiset{(m.status % 16 + 1, m.note)};
      if m.status / 16 == 9 then HostHolds(sent) + key
      else if m.status / 16 == 8 then HostHolds(sent) - key else HostHolds(sent)
  {
    assert (sent + [m])[..|sent|] == sent;
  }

  lemma TakenNext(log: seq<L.Push>, p: L.Push)
    ensures L.Taken(log + [p]) == L.Taken(log) + if p.accepted then [p.t] else []
  {
    assert (log + [p])[..|log|] == log;
  }

  lemma {:induction false} CarriedIsHeld(sent: seq<Message>, log: seq<L.Push>)
    requires Carry(sent, L.Taken(log))
    ensures HostHolds(sent) == L.Held(log)
    decreases |log|
  {
    hide Carry, Carries, L.OffsAreHeld;
    if log == [] {
      NothingCarried(sent);
    } else {
      hide HostHolds, L.Held, L.Taken;
      var init, last := log[..|log| - 1], log[|log| - 1];
      assert log == init + [last];
      TakenNext(init, last);
      L.HeldAfter(init, last);
      if last.accepted {
        var rest, m := CarryFront(sent, L.Taken(init), last.t);
        CarriedIsHeld(rest, init);
        KeyOfCarried(m, last.t);
        HoldsNext(rest, m);
      } else {
        assert L.Taken(init) + [] == L.Taken(init);
        CarriedIsHeld(sent, init);
      }
    }
  }

  lemma NothingCarried(sent: seq<Message>)
    requires Carry(sent, [])
    ensures sent == []
  {
  }

  lemma KeyOfCarried(m: Message, t: Transition)
    requires Carries(m, t)
    ensures m.Note? && m.status % 16 + 1 == t.channel && m.note == t.note && m.status / 16 == if t.on then 9 else 8
  {
  }

  lemma CarryFront(sent: seq<Message>, ts: seq<Transition>, t: Transition) returns (rest: seq<Message>, m: Message)
    requires Carry(sent, ts + [t])
    ensures sent == rest + [m] && Carry(rest, ts) && Carries(m, t)
  {
    hide Carries;
    rest, m := sent[..|ts|], sent[|ts|];
    assert (ts + [t])[|ts|] == t;
    forall k | 0 <= k < |ts|
      ensures Carries(rest[k], ts[k])
    {
      assert (ts + [t])[k] == ts[k];
    }
  }

  lemma CarryJoin(sent: seq<Message>, ts: seq<Transition>, more: seq<Message>, us: seq<Transition>)
    requires Carry(sent, ts) && Carry(more, us)
    ensures Carry(sent + more, ts + us)
  {
    hide Carries;
  }

  /** With all pushes accepted but a rejected last one, the accepted ones are those before it. */
  lemma {:induction false} TakenExactly(before: seq<L.Push>, log: seq<L.Push>, passed: seq<Transition>, ok: bool)
    requires before <= log
    requires |log| == |before| + |passed| + if ok then 0 else 1
    requires forall k :: 0 <= k < |passed| ==> log[|before| + k] == L.Push(passed[k], true)
    requires !ok ==> !log[|log| - 1].accepted
    ensures L.Taken(log) == L.Taken(before) + passed
    decreases |log|
  {
    if !ok {
      TakenExactly(before, log[..|log| - 1], passed, true);
    } else if passed == [] {
      assert log == before;
    } else {
      var n := |passed| - 1;
      assert log[|log| - 1] == L.Push(passed[n], true);
      TakenExactly(before, log[..|log| - 1], passed[..n], true);
      assert passed == passed[..n] + [passed[n]];
      assert L.Taken(log) == L.Taken(log[..|log| - 1]) + [passed[n]];
    }
  }

  // ---------------------------------------------------------------- the order of a call

  /** Messages at the very start of the block, before any input. */
  predicate AtStart(s: seq<Message>) {
    forall k :: 0 <= k < |s| ==> Rank(s[k], true) == Rank(s[k], false) == 0 && !s[k].Host?
  }

  lemma {:induction false} NoHostsAtStart(s: seq<Message>)
    requires AtStart(s)
    ensures OnlyHosts(s) == []
    decreases |s|
  {
    if s != [] {
      NoHostsAtStart(s[..|s| - 1]);
    }
  }

  /** Note-offs at the start of the block go before all input. */
  lemma {:induction false} WeaveAtZero(
    inputs: seq<Input>, frames: nat, script: seq<Transition>, answers: nat -> bool, i: nat, n: nat)
    returns (notes: seq<Message>)
    requires i <= |inputs| && P.AllAtZero(script) && P.Channelled(script)
    ensures Weave(inputs, frames, script, answers, i, n) == notes + Hosts(inputs, frames, i, |inputs|)
    ensures AtStart(notes)
    decreases |script|
  {
    hide Hosts, Accepted, Stop;
    if script == [] {
      notes := [];
    } else {
      var s, note, m := WeaveStep(inputs, frames, script, answers, i, n);
      P.NothingIsDueAtZero(inputs, frames, i);
      HostsSplit(inputs, frames, i, s, |inputs|);
      var more := WeaveAtZero(inputs, frames, script[1..], answers, s, m);
      notes := note + more;
    }
  }

  lemma StartThenHosts(
    start: seq<Message>, inputs: seq<Input>, frames: nat, fine: bool)
    requires AtStart(start)
    ensures Sorted(start + Hosts(inputs, frames, 0, |inputs|), fine)
    ensures Sorted(start, fine)
  {
    hide Hosts;
    HostsAreSorted(inputs, frames, 0, |inputs|, fine);
    var hosts := Hosts(inputs, frames, 0, |inputs|);
    forall a | 0 <= a < |hosts|
      ensures Rank(hosts[a], fine) >= 0
    {
      assert hosts[a] in hosts;
    }
    JoinSorted(start, [], hosts, 0, 0, fine);
    assert start + [] + hosts == start + hosts;
  }

  lemma OrderedEitherWay(script: seq<Transition>, frames: nat, fine: bool)
    requires Ordered(script, frames, true)
    ensures Ordered(script, frames, fine)
  {
    if !fine {
      forall a, b | 0 <= a < b < |script|
        ensures Rank(NoteOf(script[a]), false) <= Rank(NoteOf(script[b]), false)
      {
        assert Rank(NoteOf(script[a]), true) <= Rank(NoteOf(script[b]), true);
      }
    }
  }

  lemma WeaveInOrder(
    inputs: seq<Input>, frames: nat, script: seq<Transition>, answers: nat -> bool, fine: bool)
    requires frames > 0 && Ordered(script, frames, true) && Calm(inputs, frames, fine)
    ensures Sorted(Weave(inputs, frames, script, answers, 0, 0), fine)
  {
    OrderedEitherWay(script, frames, fine);
    StreamIsInOrderExactlyWhenCalm(inputs, frames, fine);
  }

  /** A call that retries panics: releases at offset 0, controllers, then all input. */
  lemma RetryInOrder(
    first: seq<Message>, controls: seq<Message>, rest: seq<Message>, connected: bool,
    inputs: seq<Input>, frames: nat, script: seq<Transition>, answers: nat -> bool, fine: bool)
    requires P.AllAtZero(script) && P.Channelled(script) && forall m :: m in controls ==> m.Control?
    requires if connected
      then rest == Hosts(inputs, frames, 0, |inputs|)
           && first + rest == Weave(inputs, frames, script, answers, 0, 0)
      else first == rest == []
    ensures Sorted(first + controls + rest, fine)
    ensures connected ==> OnlyHosts(first + controls + rest) == Hosts(inputs, frames, 0, |inputs|)
  {
    hide Hosts, Weave, OnlyHosts, Sorted;
    forall k | 0 <= k < |controls|
      ensures controls[k].Control?
    {
      assert controls[k] in controls;
    }
    assert AtStart(controls);
    if connected {
      var notes := WeaveAtZero(inputs, frames, script, answers, 0, 0);
      SameFront(first, notes, rest);
      var start := first + controls;
      assert AtStart(start);
      StartThenHosts(start, inputs, frames, fine);
      NoHostsAtStart(start);
      OnlyHostsOfSum(start, rest);
      HostsAreHosts(inputs, frames, 0, |inputs|);
      assert [] + rest == rest;
    } else {
      StartThenHosts(controls, inputs, frames, fine);
      assert first + controls + rest == controls;
    }
  }

  lemma SameFront(a: seq<Message>, b: seq<Message>, rest: seq<Message>)
    requires a + rest == b + rest
    ensures a == b
  {
    assert |a| == |b|;
    assert a == (a + rest)[..|a|] && b == (b + rest)[..|b|];
  }

  /** What a call offered, in order: its generated part, the retried controllers, and the rest of the input. */
  lemma StreamOfCall(
    before: seq<Act>, middle: seq<Act>, after: seq<Act>, first: seq<Message>, retry: bool, rest: seq<Message>,
    connected: bool, inputs: seq<Input>, frames: nat, script: seq<Transition>, answers: nat -> bool)
    returns (stream: seq<Message>)
    requires before <= middle && NoControls(middle, |before|) && Plain(middle) == Plain(before) + first
    requires P.Concluded(Offers(middle), Offers(after), retry, rest)
    requires frames > 0 && Ordered(script, frames, true)
    requires connected ==> first + rest == Weave(inputs, frames, script, answers, 0, 0)
    requires !connected ==> first == rest == []
    requires retry ==> P.AllAtZero(script) && (connected ==> rest == Hosts(inputs, frames, 0, |inputs|))
    ensures Offers(after) == Offers(before) + stream
    ensures forall fine :: Calm(inputs, frames, fine) ==> Sorted(stream, fine)
    ensures connected ==> OnlyHosts(stream) == Hosts(inputs, frames, 0, |inputs|)
    ensures connected && (forall n :: answers(n)) ==> OnlyNotes(stream) == NotesOf(script)
  {
    hide Hosts, Weave, OnlyHosts, OnlyNotes, Sorted, Offers, Plain, Calm, NoControls;
    OffersWithoutControls(before, middle, first);
    var controls :| Offers(after) == Offers(middle) + controls + rest
      && (forall m :: m in controls ==> m.Control?) && (!retry ==> controls == []);
    stream := first + controls + rest;
    assert Offers(after) == Offers(before) + stream;
    OrderedIsChannelled(script, frames);
    forall fine | Calm(inputs, frames, fine)
      ensures Sorted(stream, fine)
    {
      if retry {
        RetryInOrder(first, controls, rest, connected, inputs, frames, script, answers, fine);
      } else if connected {
        WeaveInOrder(inputs, frames, script, answers, fine);
        assert stream == first + rest;
      } else {
        assert stream == [];
        NothingIsSorted();
      }
    }
    if retry {
      RetryInOrder(first, controls, rest, connected, inputs, frames, script, answers, true);
    } else if connected {
      assert stream == first + rest;
      EveryInputIsOfferedOnce(inputs, frames, script, answers, 0, 0);
    }
    if connected && forall n :: answers(n) {
      NotesOfCall(first, controls, rest);
      EveryNoteIsOfferedWhenAllAccepted(inputs, frames, script, answers, 0, 0);
    }
  }

  /** Controllers are no notes. */
  lemma NotesOfCall(first: seq<Message>, controls: seq<Message>, rest: seq<Message>)
    requires forall m :: m in controls ==> m.Control?
    ensures OnlyNotes(first + controls + rest) == OnlyNotes(first + rest)
  {
    hide OnlyNotes;
    NoNotesInControls(controls);
    OnlyNotesOfSum(first, rest);
    OnlyNotesOfSum(first, controls);
    OnlyNotesOfSum(first + controls, rest);
    assert OnlyNotes(first) + [] == OnlyNotes(first);
  }

  lemma {:induction false} NoNotesInControls(controls: seq<Message>)
    requires forall m :: m in controls ==> m.Control?
    ensures OnlyNotes(controls) == []
    decreases |controls|
  {
    if controls != [] {
      assert controls[0] in controls;
      NoNotesInControls(controls[1..]);
    }
  }

  lemma OrderedIsChannelled(script: seq<Transition>, frames: nat)
    requires Ordered(script, frames, true)
    ensures P.Channelled(script)
  {
  }

  lemma NothingIsSorted()
    ensures forall fine :: Sorted([], fine)
  {
  }

  // ---------------------------------------------------------------- pushes and answers agree

  lemma FromTheSink(log: seq<L.Push>, n: nat, sink: nat -> bool)
    requires L.AnsweredBy(log, n, sink)
    ensures forall k :: n <= k < |log| ==> log[k].accepted == sink(k)
  {
  }

  lemma SameBack(front: seq<Message>, first: seq<Message>, rest: seq<Message>, all: seq<Message>)
    requires front + first + rest == front + all
    ensures first + rest == all
  {
    assert front + first + rest == front + (first + rest);
    assert first + rest == (front + (first + rest))[|front|..] && all == (front + all)[|front|..];
  }

  /** With these answers the ledger pushes exactly what the pipeline has passed on. */
  lemma PushedExactly(
    intended: seq<Transition>, log: seq<L.Push>, n: nat, count: nat, ok: bool, taken: nat)
    requires n <= |log| && L.Follows(intended, log, n)
    requires count <= |intended| && (ok ==> count == |intended|) && (!ok ==> 0 < count)
    requires taken == n + if ok then count else count - 1
    requires forall k :: n <= k < |log| ==> log[k].accepted == (k < taken)
    requires forall k :: n <= k < |log| - 1 ==> log[k].accepted
    ensures L.Script(log, n) == intended[..count]
    ensures L.AllAccepted(log, n) == ok
    ensures |log| == n + count && (!ok ==> !log[|log| - 1].accepted)
    ensures forall k :: 0 <= k < (if ok then count else count - 1) ==> log[n + k] == L.Push(intended[k], true)
  {
    var script := L.Script(log, n);
    var last := n + count - 1;
    assert !ok && last < |log| ==> log[last].accepted == (last < taken);
    if ok || |script| < count {
      assert L.AllAccepted(log, n);
    }
    assert script == intended[..|script|];
    forall k | 0 <= k < (if ok then count else count - 1)
      ensures log[n + k] == L.Push(intended[k], true)
    {
      assert script[k] == intended[k] && log[n + k].accepted == (n + k < taken);
    }
  }

  /** With the output blocked nothing but due releases is intended. */
  lemma BlockedIntendsReleases(
    voices: seq<L.Voice>, queue: seq<L.VoiceTransition>, frames: nat, hold: bool, routing: Routing, start: nat)
    ensures P.AllAtZero(L.Intended(voices, queue, false, frames, hold, routing, start))
  {
    L.DueAtZero(voices, 128);
  }

  lemma SettledHasNonePending(voices: seq<L.Voice>)
    ensures L.NonePending(L.Settled(voices))
  {
  }

  lemma RoutedIsChannelled(sends: seq<Transition>)
    requires L.AllOnChannel(sends)
    ensures P.Channelled(sends)
  {
  }
}
