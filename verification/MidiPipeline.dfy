/** The MIDI pipeline of the plugin: delivery of generated notes and host input, and channel panics. */
module MidiPipeline {
  import opened LaneMasks
  import opened MidiMerge
  import opened MidiPanic

  const MAX_HOST_FRAMES := 16384

  /** What the note ledger reports after it has delivered its transitions. */
  datatype Delivered = Delivered(invalidTransition: bool, outputBlocked: bool, panicHold: bool, releasePending: bool)

  datatype ProcessResult = ProcessResult(
    invalidEvent: bool, outputBlocked: bool, panicHold: bool, detectionAllowed: bool)

  /** The state of one process call: the host's events and answers, and how far the input has been read. */
  class DeliveryContext {
    const inputs: seq<Input>
    const frames: nat
    const connected: bool
    const answers: nat -> bool
    var inputIndex: nat
    var lastInputOffset: nat
    var haveLastInput: bool
    var offers: nat

    ghost predicate Valid()
      reads this
    {
      && inputIndex <= |inputs|
      && Last(inputs, frames, inputIndex) == if haveLastInput then lastInputOffset else -1
    }

    constructor (inputs: seq<Input>, frames: nat, connected: bool, answers: nat -> bool)
      ensures Valid() && inputIndex == 0 && offers == 0
      ensures this.inputs == inputs && this.frames == frames
      ensures this.connected == connected && this.answers == answers
    {
      this.inputs, this.frames, this.connected, this.answers := inputs, frames, connected, answers;
      inputIndex, lastInputOffset, haveLastInput, offers := 0, 0, false, 0;
    }
  }

  class MidiPipeline {
    var invalidEvent: bool
    var channelPanicMask: nat
    var routing: Routing
    var startChannel: nat
    /** The ledger's flags. */
    var outputBlocked: bool
    var panicHold: bool
    /** Everything done since activation. */
    ghost var log: seq<Act>
    /** Where the current process call starts in the log. */
    ghost var callStart: nat

    /** The mask is what the log says, markings name the current route, and a rejected offer blocks the output. */
    ghost predicate Valid()
      reads this
    {
      && 1 <= startChannel <= 16 && Reflects(channelPanicMask, log)
      && callStart <= |log| && OnlyMarks(log, callStart, Route(routing, startChannel))
      && (!outputBlocked ==> NoneRejected(log, callStart))
    }

    constructor ()
      ensures Valid() && log == [] && channelPanicMask == 0 && !invalidEvent && !outputBlocked && !panicHold
    {
      invalidEvent, channelPanicMask, routing, startChannel := false, 0, Single, 1;
      outputBlocked, panicHold, log, callStart := false, false, [], 0;
      new;
      NothingPending();
    }

    method Deactivate()
      modifies this
      ensures Valid() && log == [] && channelPanicMask == 0 && !invalidEvent
      ensures routing == Single && startChannel == 1 && !outputBlocked && !panicHold
    {
      invalidEvent, channelPanicMask, routing, startChannel := false, 0, Single, 1;
      outputBlocked, panicHold, log, callStart := false, false, [], 0;
      NothingPending();
    }

    method Push(context: DeliveryContext, message: Message) returns (ok: bool)
      modifies this`log, context`offers
      ensures !context.connected ==> !ok && log == old(log) && context.offers == old(context.offers)
      ensures context.connected ==>
        && ok == context.answers(old(context.offers)) && context.offers == old(context.offers) + 1
        && log == old(log) + [Offered(message, ok)]
    {
      if !context.connected {
        return false;
      }
      ok := context.answers(context.offers);
      context.offers := context.offers + 1;
      log := log + [Offered(message, ok)];
    }

    /** Pushes a host or note message, which never settles a panic. */
    method PushPlain(context: DeliveryContext, message: Message) returns (ok: bool)
      requires Valid() && !message.Control?
      modifies this`log, context`offers, this`outputBlocked, this`channelPanicMask
      ensures Valid() && old(log) <= log && outputBlocked == (old(outputBlocked) || !ok)
      ensures ok == (context.connected && context.answers(old(context.offers)))
      ensures context.offers == old(context.offers) + if context.connected then 1 else 0
      ensures Plain(log) == Plain(old(log)) + if context.connected then [message] else []
      ensures ok ==> channelPanicMask == old(channelPanicMask)
      ensures !ok ==> channelPanicMask != 0
      ensures NoControls(log, |old(log)|)
      ensures Sent(log) == Sent(old(log)) + if ok && message.Note? then [message] else []
    {
      ok := Push(context, message);
      PlainAfter(old(log), Offered(message, ok));
      SentAfter(old(log), Offered(message, ok));
      if context.connected {
        ReflectsAfterOffer(channelPanicMask, old(log), message, ok);
      }
      if !ok {
        EnterOutputBlocked();
      }
    }

    method MarkRouteForPanic()
      requires Valid()
      modifies this`channelPanicMask, this`log
      ensures Valid() && log == old(log) + [Marked(Route(routing, startChannel))] && Plain(log) == Plain(old(log))
      ensures channelPanicMask != 0 && Sent(log) == Sent(old(log))
    {
      hide Bit, SetBit, Reflects, Plain, Sent;
      ghost var before := channelPanicMask;
      var count := if routing == PerVoice then MAX_VOICES else 1;
      var slot := 0;
      while slot < count
        invariant 0 <= slot <= count && log == old(log)
        invariant forall lane: nat ::
          Bit(channelPanicMask, lane) <==> Bit(before, lane) || lane + 1 in Channels(startChannel, slot)
      {
        var channel := Channel(startChannel, slot);
        ghost var mask := channelPanicMask;
        channelPanicMask := SetBit(channelPanicMask, channel - 1);
        forall lane: nat
          ensures Bit(channelPanicMask, lane) <==> Bit(mask, lane) || lane == channel - 1
        {
          SetBitBits(mask, channel - 1, lane);
        }
        slot := slot + 1;
      }
      var channels := Route(routing, startChannel);
      RouteHasDistinctChannels(routing, startChannel);
      log := log + [Marked(channels)];
      ReflectsAfterMarking(before, channelPanicMask, old(log), channels);
      PlainAfter(old(log), Marked(channels));
      SentAfter(old(log), Marked(channels));
      NothingPending();
      assert startChannel - 1 + 1 in channels;
      assert Bit(channelPanicMask, startChannel - 1) && !Bit(0, startChannel - 1);
    }

    /** `GeneratedNoteLedger::report_output_failure`, as far as the pipeline sees it. */
    method ReportOutputFailure()
      modifies this`outputBlocked
      ensures outputBlocked
    {
      outputBlocked := true;
    }

    /** Called after a rejected offer, when the output does not count as blocked yet. */
    method EnterOutputBlocked()
      requires 1 <= startChannel <= 16 && Reflects(channelPanicMask, log)
      requires callStart <= |log| && OnlyMarks(log, callStart, Route(routing, startChannel))
      modifies this`outputBlocked, this`channelPanicMask, this`log
      ensures Valid() && outputBlocked && log == old(log) + [Marked(Route(routing, startChannel))]
      ensures Plain(log) == Plain(old(log)) && channelPanicMask != 0 && Sent(log) == Sent(old(log))
    {
      ReportOutputFailure();
      MarkRouteForPanic();
    }

    /** The next input, which is missing or due: checked, and offered if it passes. */
    method TakeInput(context: DeliveryContext) returns (accepted: bool)
      requires Valid() && context.Valid() && context.inputIndex < |context.inputs|
      modifies this`invalidEvent, this`outputBlocked, this`channelPanicMask, this`log, context
      ensures Valid() && context.Valid() && context.inputIndex == old(context.inputIndex) + 1 && old(log) <= log
      ensures var i := old(context.inputIndex); var passing := Passing(context.inputs, context.frames, i);
        && Plain(log) == Plain(old(log)) + (if context.connected then passing else [])
        && context.offers == old(context.offers) + (if context.connected then |passing| else 0)
        && accepted == (passing == [] || (context.connected && context.answers(old(context.offers))))
        && invalidEvent == (old(invalidEvent) || Bad(context.inputs, context.frames, i))
      ensures outputBlocked == (old(outputBlocked) || !accepted)
      ensures accepted ==> channelPanicMask == old(channelPanicMask)
      ensures !accepted ==> channelPanicMask != 0
      ensures NoControls(log, |old(log)|) && Sent(log) == Sent(old(log))
    {
      var header := context.inputs[context.inputIndex];
      var i := context.inputIndex;
      accepted := true;
      context.inputIndex := context.inputIndex + 1;
      if header.Missing? {
        invalidEvent := true;
        return;
      }
      if header.time >= context.frames || (context.haveLastInput && header.time < context.lastInputOffset) {
        invalidEvent := true;
        return;
      }
      context.lastInputOffset := header.time;
      context.haveLastInput := true;
      if !header.core {
        return;
      }
      if !header.full {
        invalidEvent := true;
        return;
      }
      accepted := PushPlain(context, Host(i, header.time));
    }

    method FlushInputs(context: DeliveryContext, boundary: nat, inclusive: bool, final: bool)
      returns (accepted: bool)
      requires Valid() && context.Valid()
      modifies this`invalidEvent, this`outputBlocked, this`channelPanicMask, this`log, context
      ensures Valid() && context.Valid() && old(log) <= log
      ensures var i := old(context.inputIndex);
        context.inputIndex == if final then |context.inputs| else Stop(context.inputs, boundary, inclusive, i)
      ensures Flushed(context, old(context.inputIndex), old(context.offers), old(Plain(log)), Plain(log), accepted)
      ensures outputBlocked == (old(outputBlocked) || !accepted)
      ensures accepted ==> channelPanicMask == old(channelPanicMask)
      ensures !accepted ==> channelPanicMask != 0
      ensures invalidEvent == (old(invalidEvent)
                               || SomeBad(context.inputs, context.frames, old(context.inputIndex), context.inputIndex))
      ensures NoControls(log, |old(log)|) && Sent(log) == Sent(old(log))
    {
      assert Hosts(context.inputs, context.frames, context.inputIndex, context.inputIndex) == [];
      accepted := true;
      ghost var i := context.inputIndex;
      assert Flushed(context, i, context.offers, Plain(log), Plain(log), accepted);
      hide Reflects, OnlyMarks, NoneRejected, Route, Hosts, Bad, Passing, Plain, Offering, SomeBad, NoControls, Sent;
      NothingBad(context.inputs, context.frames, i);
      NothingOffered(log);
      while context.inputIndex < |context.inputs|
        invariant Valid() && context.Valid() && i <= context.inputIndex && old(log) <= log
        invariant !final ==>
          Stop(context.inputs, boundary, inclusive, context.inputIndex) == Stop(context.inputs, boundary, inclusive, i)
        invariant Flushed(context, i, old(context.offers), old(Plain(log)), Plain(log), accepted)
        invariant outputBlocked == (old(outputBlocked) || !accepted)
        invariant accepted ==> channelPanicMask == old(channelPanicMask)
        invariant !accepted ==> channelPanicMask != 0
        invariant invalidEvent == (old(invalidEvent) || SomeBad(context.inputs, context.frames, i, context.inputIndex))
        invariant NoControls(log, |old(log)|) && Sent(log) == Sent(old(log))
        decreases |context.inputs| - context.inputIndex
      {
        var header := context.inputs[context.inputIndex];
        if header.Event? && !final && !Due(header.time, boundary, inclusive) {
          break;
        }
        ghost var k, offers, stream := context.inputIndex, context.offers, Plain(log);
        ghost var before, earlier := accepted, log;
        var ok := TakeInput(context);
        ControlsJoin(earlier, log, |old(log)|);
        accepted := accepted && ok;
        SomeBadNext(context.inputs, context.frames, i, k);
        FlushedNext(context, i, old(context.offers), old(Plain(log)), k, offers, stream, Plain(log), before, ok);
      }
    }

    method PushGenerated(context: DeliveryContext, t: Transition) returns (ok: bool)
      requires Valid() && context.Valid() && 1 <= t.channel <= 16
      modifies this`invalidEvent, this`outputBlocked, this`channelPanicMask, this`log, context
      ensures Valid() && context.Valid() && old(log) <= log
      ensures context.inputIndex == Stop(context.inputs, t.offset, t.on, old(context.inputIndex))
      ensures context.connected ==>
        var hosts := Hosts(context.inputs, context.frames, old(context.inputIndex), context.inputIndex);
        var all := Accepted(context.answers, old(context.offers), old(context.offers) + |hosts|);
        && Plain(log) == Plain(old(log)) + hosts + (if all then [NoteOf(t)] else [])
        && context.offers == old(context.offers) + |hosts| + (if all then 1 else 0)
      ensures !context.connected ==> Plain(log) == Plain(old(log))
      ensures outputBlocked == (old(outputBlocked) || !ok)
      ensures ok ==> channelPanicMask == old(channelPanicMask)
      ensures !ok ==> channelPanicMask != 0
      ensures context.connected && (forall n :: context.answers(n)) ==> ok
      ensures invalidEvent == (old(invalidEvent)
                               || SomeBad(context.inputs, context.frames, old(context.inputIndex), context.inputIndex))
      ensures NoControls(log, |old(log)|)
      ensures Sent(log) == Sent(old(log)) + if ok then [NoteOf(t)] else []
      ensures Carries(NoteOf(t), t)
    {
      hide Reflects, OnlyMarks, NoneRejected, Route, Hosts, Bad, Plain, NoControls, Sent;
      var flushed := FlushInputs(context, t.offset, t.on, false);
      if !flushed {
        return false;
      }
      ghost var earlier := log;
      ok := PushPlain(context, NoteOf(t));
      ControlsJoin(earlier, log, |old(log)|);
    }

    /** A ledger that pushes these transitions until one is not accepted; `count` of them were pushed. */
    method DeliverUntilRejected(context: DeliveryContext, script: seq<Transition>) returns (count: nat, ok: bool)
      requires Valid() && context.Valid() && Channelled(script)
      modifies this`invalidEvent, this`outputBlocked, this`channelPanicMask, this`log, context
      ensures Valid() && context.Valid() && old(log) <= log && context.inputIndex >= old(context.inputIndex)
      ensures count <= |script| && (ok ==> count == |script|) && (!ok ==> 0 < count && channelPanicMask != 0)
      ensures ok ==> channelPanicMask == old(channelPanicMask)
      ensures outputBlocked == (old(outputBlocked) || !ok)
      ensures context.connected ==>
        Plain(log) + Hosts(context.inputs, context.frames, context.inputIndex, |context.inputs|)
          == Plain(old(log)) + Weave(context.inputs, context.frames, script[..count], context.answers,
                                     old(context.inputIndex), old(context.offers))
      ensures !context.connected ==> Plain(log) == Plain(old(log))
      ensures context.connected && (forall n :: context.answers(n)) ==> ok
      ensures NoControls(log, |old(log)|)
      ensures Sent(log) == Sent(old(log)) + NotesOf(script[..if ok then count else count - 1])
      ensures AllAtZero(script) ==>
        Hosts(context.inputs, context.frames, old(context.inputIndex), context.inputIndex) == []
      decreases |script|
    {
      hide Reflects, OnlyMarks, NoneRejected, Route, Hosts, Bad, Plain, NoControls, SomeBad, Accepted, Stop, Last, Sent, NotesOf, Weave;
      if script == [] {
        FirstPart([], 0, Sent(log));
        WeaveOfNothing(context.inputs, context.frames, script, context.answers, context.inputIndex, context.offers);
        NothingOffered(log);
        NoHosts(context.inputs, context.frames, context.inputIndex);
        return 0, true;
      }
      ghost var from, offers := context.inputIndex, context.offers;
      ok := PushGenerated(context, script[0]);
      count := 1;
      ghost var earlier, between := log, context.inputIndex;
      if AllAtZero(script) {
        NothingIsDueAtZero(context.inputs, context.frames, from);
      }
      if ok {
        var more;
        more, ok := DeliverUntilRejected(context, script[1..]);
        count := 1 + more;
        ControlsJoin(earlier, log, |old(log)|);
        HostsSplit(context.inputs, context.frames, from, between, context.inputIndex);
      }
      FirstPart(script, if ok then count else count - 1, Sent(old(log)));
      if context.connected {
        WeaveFront(context.inputs, context.frames, script, count, context.answers, from, offers, Plain(old(log)));
        if !ok && count == 1 {
          WeaveOfNothing(context.inputs, context.frames, script[1..], context.answers, context.inputIndex, context.offers);
        }
      }
    }

    /** The ledger's delivery: some transitions, pushed one after the other, whatever becomes of each. */
    method Deliver(context: DeliveryContext, script: seq<Transition>)
      requires Valid() && context.Valid() && Channelled(script)
      modifies this`invalidEvent, this`outputBlocked, this`channelPanicMask, this`log, context
      ensures Valid() && context.Valid() && old(log) <= log && context.inputIndex >= old(context.inputIndex)
      ensures context.connected ==>
        Plain(log) + Hosts(context.inputs, context.frames, context.inputIndex, |context.inputs|)
          == Plain(old(log)) + Weave(context.inputs, context.frames, script, context.answers,
                                     old(context.inputIndex), old(context.offers))
      ensures !context.connected ==> Plain(log) == Plain(old(log))
      ensures invalidEvent == (old(invalidEvent)
                               || SomeBad(context.inputs, context.frames, old(context.inputIndex), context.inputIndex))
      ensures old(outputBlocked) ==> outputBlocked
      ensures old(channelPanicMask) != 0 ==> channelPanicMask != 0
      ensures context.connected && (forall n :: context.answers(n)) ==> channelPanicMask == old(channelPanicMask)
    {
      hide Reflects, OnlyMarks, NoneRejected, Route, Hosts, Bad, Plain;
      ghost var i := context.inputIndex;
      ghost var all := Plain(log) + Weave(context.inputs, context.frames, script, context.answers, i, context.offers);
      var k := 0;
      assert script[0..] == script;
      while k < |script|
        invariant 0 <= k <= |script| && i <= context.inputIndex
        invariant Valid() && context.Valid() && old(log) <= log && Channelled(script[k..])
        invariant context.connected ==>
          Plain(log) + Weave(context.inputs, context.frames, script[k..], context.answers,
                             context.inputIndex, context.offers) == all
        invariant !context.connected ==> Plain(log) == Plain(old(log))
        invariant invalidEvent == (old(invalidEvent) || SomeBad(context.inputs, context.frames, i, context.inputIndex))
        invariant old(outputBlocked) ==> outputBlocked
        invariant old(channelPanicMask) != 0 ==> channelPanicMask != 0
        invariant context.connected && (forall n :: context.answers(n)) ==> channelPanicMask == old(channelPanicMask)
      {
        ghost var from, offers, plain := context.inputIndex, context.offers, Plain(log);
        assert script[k..][0] == script[k] && script[k..][1..] == script[k + 1..];
        var _ := PushGenerated(context, script[k]);
        if context.connected {
          WeaveOnce(context.inputs, context.frames, script[k..], context.answers, from, offers, plain);
        }
        k := k + 1;
      }
    }

    /** Sends the two panic controllers to every pending channel, until one is rejected. */
    method RetryChannelPanics(context: DeliveryContext, releasePending: bool) returns (ok: bool)
      requires Valid()
      modifies this`outputBlocked, this`channelPanicMask, this`log, context`offers
      ensures Valid() && old(log) <= log && Plain(log) == Plain(old(log))
      ensures old(outputBlocked) ==> outputBlocked
      ensures ok <==> channelPanicMask == 0
      ensures releasePending ==> channelPanicMask == old(channelPanicMask) && log == old(log)
      ensures forall lane: nat :: Bit(channelPanicMask, lane) ==> Bit(old(channelPanicMask), lane)
      ensures context.connected && !releasePending && (forall n :: context.answers(n)) ==> ok
      ensures !ok && !releasePending ==> outputBlocked
      ensures OnlyControls(log, |old(log)|) && Sent(log) == Sent(old(log))
    {
      hide Sent;
      NothingPending();
      NothingOffered(log);
      if channelPanicMask == 0 || releasePending {
        return channelPanicMask == 0;
      }
      var channel := 1;
      while channel <= 16
        invariant 1 <= channel <= 17
        invariant Valid() && old(log) <= log && Plain(log) == Plain(old(log)) && outputBlocked == old(outputBlocked)
        invariant forall lane: nat :: Bit(channelPanicMask, lane) ==> Bit(old(channelPanicMask), lane)
        invariant forall lane: nat :: Bit(channelPanicMask, lane) ==> channel - 1 <= lane
        invariant OnlyControls(log, |old(log)|) && Sent(log) == Sent(old(log))
      {
        if Bit(channelPanicMask, channel - 1) {
          ghost var earlier := log;
          var settled := SettleChannel(context, channel);
          ControlsJoin(earlier, log, |old(log)|);
          if !settled {
            return false;
          }
        }
        channel := channel + 1;
      }
      NoBitsNoMask(channelPanicMask);
      ok := true;
    }

    /** Both controllers of one channel: accepted, they clear its bit; otherwise the output is blocked. */
    method SettleChannel(context: DeliveryContext, channel: nat) returns (ok: bool)
      requires Valid() && 1 <= channel <= 16 && Bit(channelPanicMask, channel - 1)
      modifies this`outputBlocked, this`channelPanicMask, this`log, context`offers
      ensures Valid() && old(log) <= log && Plain(log) == Plain(old(log))
      ensures ok ==>
        && log == old(log) + [Offered(Panic(channel, ALL_NOTES_OFF), true), Offered(Panic(channel, ALL_SOUND_OFF), true)]
        && (forall lane: nat :: Bit(channelPanicMask, lane) <==> Bit(old(channelPanicMask), lane) && lane != channel - 1)
        && outputBlocked == old(outputBlocked)
      ensures !ok ==> channelPanicMask == old(channelPanicMask) && outputBlocked
      ensures OnlyControls(log, |old(log)|) && Sent(log) == Sent(old(log))
      ensures context.connected && (forall n :: context.answers(n)) ==> ok
    {
      hide OnlyControls, Reflects, Plain, Bit, ClearBit, Sent;
      ghost var before, mask := log, channelPanicMask;
      NothingOffered(before);
      ok := Push(context, Panic(channel, ALL_NOTES_OFF));
      PlainAfter(before, Offered(Panic(channel, ALL_NOTES_OFF), ok));
      ControlOffered(before, |before|, Panic(channel, ALL_NOTES_OFF), ok);
      SentAfter(before, Offered(Panic(channel, ALL_NOTES_OFF), ok));
      if context.connected {
        ReflectsAfterOffer(mask, before, Panic(channel, ALL_NOTES_OFF), ok);
      }
      if ok {
        ghost var first := log;
        ok := Push(context, Panic(channel, ALL_SOUND_OFF));
        PlainAfter(first, Offered(Panic(channel, ALL_SOUND_OFF), ok));
        ControlOffered(first, |before|, Panic(channel, ALL_SOUND_OFF), ok);
        SentAfter(first, Offered(Panic(channel, ALL_SOUND_OFF), ok));
        if ok {
          channelPanicMask := ClearBit(channelPanicMask, channel - 1);
          ReflectsAfterPair(mask, first, channel);
          forall lane: nat
            ensures Bit(channelPanicMask, lane) <==> Bit(mask, lane) && lane != channel - 1
          {
            ClearBitBits(mask, channel - 1, lane);
          }
          return;
        }
        ReflectsAfterOffer(mask, first, Panic(channel, ALL_SOUND_OFF), ok);
      }
      ReportOutputFailure();
    }

    method BeginBlock()
      requires Valid()
      modifies this`invalidEvent
      ensures Valid() && !invalidEvent
    {
      invalidEvent := false;
    }

    /** `complete` is whether the ledger could queue the releases of all active notes. */
    method RequestPanic(complete: bool)
      requires Valid()
      modifies this`outputBlocked, this`channelPanicMask, this`log, this`panicHold
      ensures Valid() && panicHold
      ensures log == old(log) + if complete then [] else [Marked(Route(routing, startChannel))]
      ensures outputBlocked == (old(outputBlocked) || !complete)
      ensures complete ==> channelPanicMask == old(channelPanicMask)
      ensures Sent(log) == Sent(old(log))
    {
      panicHold := true;
      if !complete {
        EnterOutputBlocked();
      }
    }

    /** One host block. The ledger delivers `script` and then reports `delivered`. */
    method Process(
      frames: nat, channel: nat, inputs: seq<Input>, connected: bool, answers: nat -> bool, requested: Routing,
      script: seq<Transition>, delivered: Delivered)
      returns (r: ProcessResult)
      requires Valid() && Channelled(script)
      modifies this
      ensures Valid() && old(log) <= log
      ensures Refused(frames, channel, requested) ==>
        && log == old(log) && channelPanicMask == old(channelPanicMask)
        && r == ProcessResult(true, old(outputBlocked), old(panicHold), false)
      ensures !Refused(frames, channel, requested) ==>
        && callStart == |old(log)| && routing == requested && startChannel == channel
        && Plain(log) == Plain(old(log))
             + (if connected then Weave(inputs, frames, script, answers, 0, 0) else [])
        && r == ProcessResult(invalidEvent, outputBlocked, delivered.panicHold,
                              !invalidEvent && !outputBlocked && !delivered.panicHold)
        && (old(invalidEvent) || SomeBad(inputs, frames, 0, |inputs|) ==> invalidEvent)
        && (invalidEvent ==> old(invalidEvent) || SomeBad(inputs, frames, 0, |inputs|) || delivered.invalidTransition)
        && (delivered.invalidTransition ==> !r.detectionAllowed)
        && (delivered.outputBlocked ==> outputBlocked)
        && (delivered.outputBlocked && old(channelPanicMask) == 0 ==> channelPanicMask != 0)
        && (delivered.releasePending && old(channelPanicMask) != 0 ==> channelPanicMask != 0)
        && (connected && (forall n :: answers(n)) && !delivered.releasePending && old(channelPanicMask) != 0 ==>
              channelPanicMask == 0)
    {
      if Refused(frames, channel, requested) {
        invalidEvent := true;
        return ProcessResult(true, outputBlocked, panicHold, false);
      }
      StartCall(requested, channel);
      var context := new DeliveryContext(inputs, frames, connected, answers);
      Serve(context, script, delivered);
      r := ProcessResult(invalidEvent, outputBlocked, panicHold, !invalidEvent && !outputBlocked && !panicHold);
    }

    /** Delivers, settles panics that were pending before, and passes the remaining input. */
    method Serve(context: DeliveryContext, script: seq<Transition>, delivered: Delivered)
      requires Valid() && context.Valid() && context.inputIndex == 0 && context.offers == 0 && Channelled(script)
      modifies this`invalidEvent, this`outputBlocked, this`panicHold, this`channelPanicMask, this`log, context
      ensures Valid() && old(log) <= log && panicHold == delivered.panicHold
      ensures context.inputIndex == |context.inputs|
      ensures Plain(log) == Plain(old(log))
        + (if context.connected then Weave(context.inputs, context.frames, script, context.answers, 0, 0) else [])
      ensures old(invalidEvent) || SomeBad(context.inputs, context.frames, 0, |context.inputs|) ==> invalidEvent
      ensures invalidEvent ==>
        old(invalidEvent) || SomeBad(context.inputs, context.frames, 0, |context.inputs|) || delivered.invalidTransition
      ensures delivered.invalidTransition ==> invalidEvent || outputBlocked || delivered.panicHold
      ensures delivered.outputBlocked ==> outputBlocked
      ensures delivered.outputBlocked && old(channelPanicMask) == 0 ==> channelPanicMask != 0
      ensures delivered.releasePending && old(channelPanicMask) != 0 ==> channelPanicMask != 0
      ensures
        (context.connected && (forall n :: context.answers(n)) && !delivered.releasePending
         && old(channelPanicMask) != 0) ==> channelPanicMask == 0
    {
      hide Reflects, OnlyMarks, NoneRejected, Route, Hosts, Bad, Plain, Weave, Last, Stop;
      var retry := channelPanicMask != 0;
      Deliver(context, script);
      Conclude(context, delivered, retry);
    }

    /** What follows the delivery: the ledger's report, the panics of earlier calls, and the remaining input. */
    method Conclude(context: DeliveryContext, delivered: Delivered, retry: bool)
      requires Valid() && context.Valid()
      modifies this`invalidEvent, this`outputBlocked, this`panicHold, this`channelPanicMask, this`log, context
      ensures Valid() && old(log) <= log && panicHold == delivered.panicHold
      ensures context.inputIndex == |context.inputs|
      ensures Plain(log) == Plain(old(log))
        + if context.connected
          then Hosts(context.inputs, context.frames, old(context.inputIndex), |context.inputs|) else []
      ensures old(invalidEvent) || SomeBad(context.inputs, context.frames, old(context.inputIndex), |context.inputs|) ==>
        invalidEvent
      ensures invalidEvent ==>
        || old(invalidEvent) || delivered.invalidTransition
        || SomeBad(context.inputs, context.frames, old(context.inputIndex), |context.inputs|)
      ensures delivered.invalidTransition ==> invalidEvent || outputBlocked || delivered.panicHold
      ensures old(outputBlocked) || delivered.outputBlocked ==> outputBlocked
      ensures delivered.outputBlocked && !retry ==> channelPanicMask != 0
      ensures delivered.releasePending && old(channelPanicMask) != 0 ==> channelPanicMask != 0
      ensures context.connected && (forall n :: context.answers(n)) && !delivered.releasePending && retry ==>
        channelPanicMask == 0
      ensures channelPanicMask != 0 ==>
        outputBlocked || (old(channelPanicMask) != 0 && (!retry || delivered.releasePending))
      ensures Sent(log) == Sent(old(log))
      ensures Concluded(Offers(old(log)), Offers(log), retry,
        if context.connected
        then Hosts(context.inputs, context.frames, old(context.inputIndex), |context.inputs|) else [])
    {
      hide Reflects, OnlyMarks, NoneRejected, Route, Hosts, Bad, Plain, Weave, Last, Stop, NoControls, OnlyControls;
      hide Offers, SomeBad, Sent;
      ghost var start, i := log, context.inputIndex;
      Account(delivered);
      if delivered.outputBlocked && channelPanicMask == 0 {
        MarkRouteForPanic();
      }
      OffersAfterMarks(start, log);
      ghost var marked := log;
      NothingOffered(log);
      if retry {
        var _ := RetryChannelPanics(context, delivered.releasePending);
      }
      ghost var settled := log;
      var _ := FlushInputs(context, context.frames, false, true);
      ConcludedInOrder(start, marked, settled, log, retry,
        if context.connected then Hosts(context.inputs, context.frames, i, |context.inputs|) else []);
    }

    /** Takes over the ledger's report. */
    method Account(delivered: Delivered)
      requires Valid()
      modifies this`invalidEvent, this`outputBlocked, this`panicHold
      ensures Valid() && panicHold == delivered.panicHold
      ensures outputBlocked == (old(outputBlocked) || delivered.outputBlocked)
      ensures invalidEvent == (old(invalidEvent) || (delivered.invalidTransition && !outputBlocked && !panicHold))
    {
      outputBlocked, panicHold := outputBlocked || delivered.outputBlocked, delivered.panicHold;
      if delivered.invalidTransition && !outputBlocked && !panicHold {
        invalidEvent := true;
      }
    }

    method StartCall(requested: Routing, channel: nat)
      requires Valid() && 1 <= channel <= 16
      modifies this`routing, this`startChannel, this`callStart, this`outputBlocked
      ensures Valid() && routing == requested && startChannel == channel && callStart == |log| && !outputBlocked
    {
      callStart, routing, startChannel, outputBlocked := |log|, requested, channel, false;
    }
  }

  /** The offers of the last part of a call: panic controllers, if any are retried, and then the hosts. */
  ghost predicate Concluded(before: seq<Message>, after: seq<Message>, retry: bool, hosts: seq<Message>) {
    exists controls ::
      && after == before + controls + hosts
      && (forall m :: m in controls ==> m.Control?) && (!retry ==> controls == [])
  }

  lemma OffersAfterMarks(log: seq<Act>, more: seq<Act>)
    requires more == log || (|more| == |log| + 1 && log <= more && more[|log|].Marked?)
    ensures Offers(more) == Offers(log)
  {
    if more != log {
      assert more[..|log|] == log;
    }
  }

  lemma ConcludedInOrder(
    start: seq<Act>, marked: seq<Act>, settled: seq<Act>, log: seq<Act>, retry: bool, hosts: seq<Message>)
    requires Offers(marked) == Offers(start) && marked <= settled <= log
    requires OnlyControls(settled, |marked|) && (!retry ==> settled == marked)
    requires NoControls(log, |settled|) && Plain(log) == Plain(settled) + hosts
    ensures Concluded(Offers(start), Offers(log), retry, hosts)
  {
    hide Offers, Plain, NoControls, OnlyControls, Concluded;
    var controls: seq<Message> := [];
    if retry {
      controls := OffersOfControls(marked, settled);
    }
    assert Offers(settled) == Offers(start) + controls;
    OffersWithoutControls(settled, log, hosts);
    AreConcluded(Offers(start), controls, hosts, retry);
  }

  lemma AreConcluded(before: seq<Message>, controls: seq<Message>, hosts: seq<Message>, retry: bool)
    requires (forall m :: m in controls ==> m.Control?) && (!retry ==> controls == [])
    ensures Concluded(before, before + controls + hosts, retry, hosts)
  {
  }

  /** Note-offs at the start of the block. */
  predicate AllAtZero(script: seq<Transition>) {
    forall k :: 0 <= k < |script| ==> script[k].offset == 0 && !script[k].on
  }

  lemma NoHosts(inputs: seq<Input>, frames: nat, i: nat)
    requires i <= |inputs|
    ensures Hosts(inputs, frames, i, i) == []
  {
  }

  /** Nothing is due before offset 0 but missing events. */
  lemma NothingIsDueAtZero(inputs: seq<Input>, frames: nat, i: nat)
    requires i <= |inputs|
    ensures Hosts(inputs, frames, i, Stop(inputs, 0, false, i)) == []
  {
    var s := Stop(inputs, 0, false, i);
    assert forall j :: i <= j < s ==> Passing(inputs, frames, j) == [];
    NonePass(inputs, frames, i, s);
  }

  lemma {:induction false} NonePass(inputs: seq<Input>, frames: nat, i: nat, k: nat)
    requires i <= k <= |inputs| && forall j :: i <= j < k ==> Passing(inputs, frames, j) == []
    ensures Hosts(inputs, frames, i, k) == []
    decreases k
  {
    hide Passing;
    if i < k {
      NonePass(inputs, frames, i, k - 1);
      assert Hosts(inputs, frames, i, k) == Hosts(inputs, frames, i, k - 1) + Passing(inputs, frames, k - 1);
    }
  }

  predicate Refused(frames: nat, channel: nat, routing: Routing) {
    frames == 0 || frames > MAX_HOST_FRAMES || channel == 0 || channel > 16 || routing == Unknown
  }

  lemma WeaveFront(
    inputs: seq<Input>, frames: nat, script: seq<Transition>, count: nat, answers: nat -> bool, i: nat, n: nat,
    plain: seq<Message>)
    requires i <= |inputs| && 0 < count <= |script| && Channelled(script)
    ensures
      var s := Stop(inputs, script[0].offset, script[0].on, i);
      var hosts := Hosts(inputs, frames, i, s);
      var all := Accepted(answers, n, n + |hosts|);
      plain + hosts + (if all then [NoteOf(script[0])] else [])
          + Weave(inputs, frames, script[1..][..count - 1], answers, s, n + |hosts| + if all then 1 else 0)
        == plain + Weave(inputs, frames, script[..count], answers, i, n)
  {
    hide Hosts, Stop, Accepted;
    assert script[..count][0] == script[0] && script[..count][1..] == script[1..][..count - 1];
    WeaveOnce(inputs, frames, script[..count], answers, i, n, plain);
  }

  lemma WeaveOfNothing(
    inputs: seq<Input>, frames: nat, script: seq<Transition>, answers: nat -> bool, i: nat, n: nat)
    requires i <= |inputs| && Channelled(script)
    ensures Weave(inputs, frames, script[..0], answers, i, n) == Hosts(inputs, frames, i, |inputs|)
  {
    assert script[..0] == [];
  }

  /** The notes of the first transitions behind what was sent before. */
  lemma FirstPart(script: seq<Transition>, n: nat, before: seq<Message>)
    requires n <= |script| && Channelled(script)
    ensures n > 0 ==>
      before + [NoteOf(script[0])] + NotesOf(script[1..][..n - 1]) == before + NotesOf(script[..n])
    ensures n == 0 ==> before + NotesOf(script[..n]) == before
  {
    if n > 0 {
      assert script[..n][0] == script[0] && script[..n][1..] == script[1..][..n - 1];
    }
  }

  predicate Channelled(script: seq<Transition>) {
    forall k :: 0 <= k < |script| ==> 1 <= script[k].channel <= 16
  }

  /** What one pushed transition contributes, and what remains to be woven. */
  lemma WeaveOnce(
    inputs: seq<Input>, frames: nat, script: seq<Transition>, answers: nat -> bool, i: nat, n: nat, plain: seq<Message>)
    requires i <= |inputs| && script != [] && Channelled(script)
    ensures
      var s := Stop(inputs, script[0].offset, script[0].on, i);
      var hosts := Hosts(inputs, frames, i, s);
      var all := Accepted(answers, n, n + |hosts|);
      plain + Weave(inputs, frames, script, answers, i, n)
        == plain + hosts + (if all then [NoteOf(script[0])] else [])
             + Weave(inputs, frames, script[1..], answers, s, n + |hosts| + if all then 1 else 0)
  {
    hide Hosts, Stop;
    var s := Stop(inputs, script[0].offset, script[0].on, i);
    var hosts := Hosts(inputs, frames, i, s);
    var all := Accepted(answers, n, n + |hosts|);
    var note := if all then [NoteOf(script[0])] else [];
    var rest := Weave(inputs, frames, script[1..], answers, s, n + |hosts| + if all then 1 else 0);
    assert Weave(inputs, frames, script, answers, i, n) == if all then hosts + note + rest else hosts + rest;
    assert plain + (hosts + note + rest) == plain + hosts + note + rest;
    assert plain + (hosts + rest) == plain + hosts + [] + rest;
  }

  lemma NoBitsNoMask(mask: nat)
    requires forall lane: nat :: Bit(mask, lane) ==> lane >= 16
    requires forall lane: nat :: Bit(mask, lane) ==> lane < 16
    ensures mask == 0
  {
    if mask != 0 {
      SomeBitIsSet(mask);
    }
  }

  ghost predicate SomeBad(inputs: seq<Input>, frames: nat, i: nat, k: nat)
    requires k <= |inputs|
  {
    exists j :: i <= j < k && Bad(inputs, frames, j)
  }

  lemma NothingBad(inputs: seq<Input>, frames: nat, i: nat)
    requires i <= |inputs|
    ensures !SomeBad(inputs, frames, i, i)
  {
  }

  lemma SomeBadNext(inputs: seq<Input>, frames: nat, i: nat, k: nat)
    requires i <= k < |inputs|
    ensures SomeBad(inputs, frames, i, k + 1) == (SomeBad(inputs, frames, i, k) || Bad(inputs, frames, k))
  {
  }

  /** After offering exactly the passing inputs from i up to k, and whether all of them were accepted. */
  ghost predicate Offering(
    context: DeliveryContext, i: nat, offers: nat, stream: seq<Message>,
    k: nat, offers': nat, stream': seq<Message>, accepted: bool)
    requires i <= k <= |context.inputs|
  {
    var hosts := Hosts(context.inputs, context.frames, i, k);
    if context.connected then
      && stream' == stream + hosts && offers' == offers + |hosts|
      && accepted == Accepted(context.answers, offers, offers')
    else
      stream' == stream && offers' == offers && accepted == (hosts == [])
  }

  ghost predicate Flushed(
    context: DeliveryContext, i: nat, offers: nat, stream: seq<Message>, stream': seq<Message>, accepted: bool)
    requires i <= context.inputIndex <= |context.inputs|
    reads context
  {
    Offering(context, i, offers, stream, context.inputIndex, context.offers, stream', accepted)
  }

  lemma FlushedNext(
    context: DeliveryContext, i: nat, offers0: nat, stream0: seq<Message>,
    k: nat, offers: nat, stream: seq<Message>, stream': seq<Message>, before: bool, ok: bool)
    requires i <= k < |context.inputs| && context.inputIndex == k + 1
    requires Offering(context, i, offers0, stream0, k, offers, stream, before)
    requires var passing := Passing(context.inputs, context.frames, k);
      && stream' == stream + (if context.connected then passing else [])
      && context.offers == offers + (if context.connected then |passing| else 0)
      && ok == (passing == [] || (context.connected && context.answers(offers)))
    ensures Flushed(context, i, offers0, stream0, stream', before && ok)
  {
    var hosts, passing := Hosts(context.inputs, context.frames, i, k), Passing(context.inputs, context.frames, k);
    assert Hosts(context.inputs, context.frames, i, k + 1) == hosts + passing && |passing| <= 1;
    hide Hosts, Passing;
    if context.connected {
      assert stream0 + hosts + passing == stream0 + (hosts + passing);
      assert Accepted(context.answers, offers0, context.offers) <==>
          Accepted(context.answers, offers0, offers) && (passing == [] || context.answers(offers));
    }
  }

  lemma NothingPending()
    ensures Reflects(0, []) && forall lane: nat :: !Bit(0, lane)
  {
    forall lane: nat
      ensures !Bit(0, lane)
    {
      ZeroHasNoBits(lane);
    }
  }
}
