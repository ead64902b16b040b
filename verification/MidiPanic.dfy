/** The channel panic mask, and the record of markings and offers that decides it. */
module MidiPanic {
  import opened LaneMasks
  import opened MidiMerge

  const ALL_NOTES_OFF := 123
  const ALL_SOUND_OFF := 120
  const MAX_VOICES := 8

  datatype Routing = Single | PerVoice | Unknown

  /** What the pipeline has done since it was activated. */
  datatype Act = Marked(channels: set<nat>) | Offered(message: Message, accepted: bool)

  /** The host and note messages offered, in order. */
  function Plain(log: seq<Act>): seq<Message> {
    if log == [] then []
    else
      var last := log[|log| - 1];
      Plain(log[..|log| - 1]) + if last.Offered? && !last.message.Control? then [last.message] else []
  }

  lemma PlainAfter(log: seq<Act>, act: Act)
    ensures Plain(log + [act])
         == Plain(log) + if act.Offered? && !act.message.Control? then [act.message] else []
  {
    assert (log + [act])[..|log|] == log;
  }

  /** All messages offered, in order. */
  function Offers(log: seq<Act>): seq<Message> {
    if log == [] then []
    else
      var last := log[|log| - 1];
      Offers(log[..|log| - 1]) + if last.Offered? then [last.message] else []
  }

  /** The generated notes that the host has accepted, in order. */
  function Sent(log: seq<Act>): seq<Message> {
    if log == [] then []
    else
      var last := log[|log| - 1];
      Sent(log[..|log| - 1]) + if last.Offered? && last.accepted && last.message.Note? then [last.message] else []
  }

  lemma SentAfter(log: seq<Act>, act: Act)
    ensures Sent(log + [act])
         == Sent(log) + if act.Offered? && act.accepted && act.message.Note? then [act.message] else []
  {
    assert (log + [act])[..|log|] == log;
  }

  /** From index n on no panic controller, or nothing but panic controllers, was offered. */
  predicate NoControls(log: seq<Act>, n: nat) {
    forall a :: n <= a < |log| && log[a].Offered? ==> !log[a].message.Control?
  }

  predicate OnlyControls(log: seq<Act>, n: nat) {
    forall a :: n <= a < |log| && log[a].Offered? ==> log[a].message.Control?
  }

  lemma ControlsJoin(log: seq<Act>, more: seq<Act>, n: nat)
    requires n <= |log| && log <= more
    ensures NoControls(log, n) && NoControls(more, |log|) ==> NoControls(more, n)
    ensures OnlyControls(log, n) && OnlyControls(more, |log|) ==> OnlyControls(more, n)
  {
    assert forall a :: 0 <= a < |log| ==> more[a] == log[a];
  }

  lemma ControlOffered(log: seq<Act>, n: nat, message: Message, accepted: bool)
    requires OnlyControls(log, n) && message.Control?
    ensures OnlyControls(log + [Offered(message, accepted)], n)
  {
  }

  lemma NothingOffered(log: seq<Act>)
    ensures NoControls(log, |log|) && OnlyControls(log, |log|)
  {
  }

  lemma {:induction false} OffersWithoutControls(before: seq<Act>, log: seq<Act>, stream: seq<Message>)
    requires before <= log && NoControls(log, |before|) && Plain(log) == Plain(before) + stream
    ensures Offers(log) == Offers(before) + stream
    decreases |log|
  {
    if before != log {
      var init, last := log[..|log| - 1], log[|log| - 1];
      PlainGrows(before, init);
      var first := Plain(init)[|Plain(before)|..];
      assert Plain(init) == Plain(before) + first;
      OffersWithoutControls(before, init, first);
      var here := if last.Offered? then [last.message] else [];
      assert Plain(log) == Plain(before) + (first + here);
      assert stream == (Plain(before) + stream)[|Plain(before)|..] == first + here;
    }
  }

  lemma {:induction false} PlainGrows(before: seq<Act>, log: seq<Act>)
    requires before <= log
    ensures Plain(before) <= Plain(log)
    decreases |log|
  {
    if before != log {
      PlainGrows(before, log[..|log| - 1]);
    }
  }

  lemma {:induction false} OffersOfControls(before: seq<Act>, log: seq<Act>) returns (controls: seq<Message>)
    requires before <= log && OnlyControls(log, |before|)
    ensures Offers(log) == Offers(before) + controls && forall m :: m in controls ==> m.Control?
    decreases |log|
  {
    controls := [];
    if before != log {
      var last := log[|log| - 1];
      var first := OffersOfControls(before, log[..|log| - 1]);
      controls := first + if last.Offered? then [last.message] else [];
    }
  }

  /** No offer from index n on was rejected. */
  predicate NoneRejected(log: seq<Act>, n: nat) {
    forall a :: n <= a < |log| && log[a].Offered? ==> log[a].accepted
  }

  /** Every marking from index n on names the given channels. */
  predicate OnlyMarks(log: seq<Act>, n: nat, channels: set<nat>) {
    forall a :: n <= a < |log| && log[a].Marked? ==> log[a].channels == channels
  }

  function Slots(routing: Routing): nat {
    if routing == PerVoice then MAX_VOICES else 1
  }

  /** The channel of a slot, counted round the sixteen. */
  function Channel(start: nat, slot: nat): (c: nat)
    requires 1 <= start <= 16
    ensures 1 <= c <= 16
  {
    (start - 1 + slot) % 16 + 1
  }

  /** The channels of the first n slots. */
  function Channels(start: nat, n: nat): set<nat>
    requires 1 <= start <= 16
  {
    if n == 0 then {} else Channels(start, n - 1) + {Channel(start, n - 1)}
  }

  /** The channels of the current route. */
  function Route(routing: Routing, start: nat): set<nat>
    requires 1 <= start <= 16
  {
    Channels(start, Slots(routing))
  }

  /** How many slots a channel lies behind the start channel. */
  function Behind(start: nat, c: nat): int {
    if c >= start then c - start else c - start + 16
  }

  lemma ChannelOfSlot(start: nat, slot: nat, c: nat)
    requires 1 <= start <= 16 && slot < 16 && 1 <= c <= 16
    ensures Channel(start, slot) == c <==> Behind(start, c) == slot
  {
    var x := start - 1 + slot;
    assert x % 16 == if x < 16 then x else x - 16;
  }

  lemma {:induction false} ChannelsAreDistinct(start: nat, n: nat)
    requires 1 <= start <= 16 && n <= 16
    ensures |Channels(start, n)| == n
    ensures forall c :: c in Channels(start, n) <==> 1 <= c <= 16 && Behind(start, c) < n
    decreases n
  {
    hide Channel;
    if n > 0 {
      ChannelsAreDistinct(start, n - 1);
      forall c | 1 <= c <= 16
        ensures Channel(start, n - 1) == c <==> Behind(start, c) == n - 1
      {
        ChannelOfSlot(start, n - 1, c);
      }
    }
  }

  /** A marking names exactly the 1 or 8 distinct channels that follow the start channel round the sixteen. */
  lemma RouteHasDistinctChannels(routing: Routing, start: nat)
    requires 1 <= start <= 16
    ensures |Route(routing, start)| == Slots(routing)
    ensures forall c :: c in Route(routing, start) <==> 1 <= c <= 16 && Behind(start, c) < Slots(routing)
  {
    ChannelsAreDistinct(start, Slots(routing));
  }

  function Panic(channel: nat, controller: nat): Message
    requires 1 <= channel
  {
    Control(0xB0 + channel - 1, controller)
  }

  /** The offer at k completes the pair of the channel: both accepted, one right after the other. */
  predicate Completes(log: seq<Act>, channel: nat, k: nat)
    requires k < |log| && 1 <= channel
  {
    && k > 0
    && log[k - 1] == Offered(Panic(channel, ALL_NOTES_OFF), true)
    && log[k] == Offered(Panic(channel, ALL_SOUND_OFF), true)
  }

  predicate Marks(act: Act, channel: nat) {
    act.Marked? && channel in act.channels
  }

  /** Whether the channel still owes its panic after the first n acts. */
  predicate Pending(log: seq<Act>, channel: nat, n: nat)
    requires n <= |log| && 1 <= channel
  {
    n > 0
    && (Marks(log[n - 1], channel)
        || (Pending(log, channel, n - 1) && !Completes(log, channel, n - 1)))
  }

  /** A marking of the channel whose panic was not completed among the first n acts. */
  predicate Unanswered(log: seq<Act>, channel: nat, m: nat, n: nat)
    requires m < n <= |log| && 1 <= channel
  {
    Marks(log[m], channel) && forall k :: m < k - 1 && k < n ==> !Completes(log, channel, k)
  }

  /** A channel is pending exactly when its panic was not completed since some marking of it. */
  lemma {:induction false} PendingUntilCompleted(log: seq<Act>, channel: nat, n: nat)
    requires n <= |log| && 1 <= channel
    ensures Pending(log, channel, n) <==> exists m :: 0 <= m < n && Unanswered(log, channel, m, n)
    decreases n
  {
    if n > 0 {
      PendingUntilCompleted(log, channel, n - 1);
      if Marks(log[n - 1], channel) {
        assert Unanswered(log, channel, n - 1, n);
      } else {
        forall m | 0 <= m < n - 1
          ensures Unanswered(log, channel, m, n) <==>
            Unanswered(log, channel, m, n - 1) && !Completes(log, channel, n - 1)
        {
        }
        assert !Unanswered(log, channel, n - 1, n);
        if Pending(log, channel, n - 1) && !Completes(log, channel, n - 1) {
          var m :| 0 <= m < n - 1 && Unanswered(log, channel, m, n - 1);
          assert Unanswered(log, channel, m, n);
        }
      }
    }
  }

  /** A marked channel that is no longer pending had both controllers accepted in a row after its latest marking. */
  lemma LeavesOnlyAfterBoth(log: seq<Act>, channel: nat, m: nat)
    returns (latest: nat, k: nat)
    requires 1 <= channel && m < |log| && Marks(log[m], channel) && !Pending(log, channel, |log|)
    ensures m <= latest < k - 1 && k < |log|
    ensures log[k - 1] == Offered(Control(0xB0 + channel - 1, 123), true)
    ensures log[k] == Offered(Control(0xB0 + channel - 1, 120), true)
    ensures Marks(log[latest], channel) && forall later :: latest < later < |log| ==> !Marks(log[later], channel)
  {
    PendingUntilCompleted(log, channel, |log|);
    latest := LatestMarking(log, channel, m, |log|);
    assert !Unanswered(log, channel, latest, |log|);
    k :| latest < k - 1 && k < |log| && Completes(log, channel, k);
  }

  lemma {:induction false} LatestMarking(log: seq<Act>, channel: nat, m: nat, n: nat) returns (latest: nat)
    requires m < n <= |log| && Marks(log[m], channel)
    ensures m <= latest < n && Marks(log[latest], channel)
    ensures forall later :: latest < later < n ==> !Marks(log[later], channel)
    decreases n
  {
    if Marks(log[n - 1], channel) {
      latest := n - 1;
    } else {
      latest := LatestMarking(log, channel, m, n - 1);
    }
  }

  /** An act changes only the channels it marks or completes. */
  lemma {:induction false} EarlierActsStand(log: seq<Act>, more: seq<Act>, channel: nat, n: nat)
    requires n <= |log| && log <= more && 1 <= channel
    ensures Pending(more, channel, n) == Pending(log, channel, n)
    decreases n
  {
    if n > 0 {
      EarlierActsStand(log, more, channel, n - 1);
    }
  }

  // ---------------------------------------------------------------- the mask

  function ClearBit(mask: nat, lane: nat): nat {
    if lane == 0 then mask / 2 * 2
    else 2 * ClearBit(mask / 2, lane - 1) + mask % 2
  }

  lemma {:induction false} ClearBitBits(mask: nat, lane: nat, l: nat)
    ensures Bit(ClearBit(mask, lane), l) <==> Bit(mask, l) && l != lane
    decreases lane
  {
    if lane > 0 && l > 0 {
      assert ClearBit(mask, lane) / 2 == ClearBit(mask / 2, lane - 1);
      ClearBitBits(mask / 2, lane - 1, l - 1);
    }
  }

  /** Whether the channel of a mask bit is pending. */
  predicate Owes(log: seq<Act>, lane: nat) {
    Pending(log, lane + 1, |log|)
  }

  /** The mask holds exactly the pending channels. */
  ghost predicate Reflects(mask: nat, log: seq<Act>) {
    forall lane: nat :: Bit(mask, lane) <==> lane < 16 && Owes(log, lane)
  }

  lemma ReflectsAfterMarking(mask: nat, marked: nat, log: seq<Act>, channels: set<nat>)
    requires Reflects(mask, log) && forall c :: c in channels ==> 1 <= c <= 16
    requires forall lane: nat :: Bit(marked, lane) <==> Bit(mask, lane) || lane + 1 in channels
    ensures Reflects(marked, log + [Marked(channels)])
  {
    var more := log + [Marked(channels)];
    forall lane: nat
      ensures Owes(more, lane) <==> Owes(log, lane) || lane + 1 in channels
    {
      EarlierActsStand(log, more, lane + 1, |log|);
    }
  }

  /** An offer that is not an accepted All Sound Off changes nothing. */
  lemma ReflectsAfterOffer(mask: nat, log: seq<Act>, message: Message, accepted: bool)
    requires Reflects(mask, log)
    requires accepted && message.Control? ==> message.controller != ALL_SOUND_OFF
    ensures Reflects(mask, log + [Offered(message, accepted)])
  {
    var more := log + [Offered(message, accepted)];
    forall lane: nat
      ensures Owes(more, lane) == Owes(log, lane)
    {
      EarlierActsStand(log, more, lane + 1, |log|);
    }
  }

  lemma PairSettles(log: seq<Act>, channel: nat, lane: nat)
    requires 1 <= channel && log != [] && log[|log| - 1] == Offered(Panic(channel, ALL_NOTES_OFF), true)
    ensures Owes(log + [Offered(Panic(channel, ALL_SOUND_OFF), true)], lane) <==> Owes(log, lane) && lane + 1 != channel
  {
    var more := log + [Offered(Panic(channel, ALL_SOUND_OFF), true)];
    EarlierActsStand(log, more, lane + 1, |log|);
    assert more[|log| - 1] == log[|log| - 1] && more[|log|] == Offered(Panic(channel, ALL_SOUND_OFF), true);
    assert Completes(more, lane + 1, |log|) <==> lane + 1 == channel;
  }

  /** The second accepted message of the pair clears exactly its channel. */
  lemma ReflectsAfterPair(mask: nat, log: seq<Act>, channel: nat)
    requires Reflects(mask, log) && 1 <= channel <= 16
    requires log != [] && log[|log| - 1] == Offered(Panic(channel, ALL_NOTES_OFF), true)
    ensures Reflects(ClearBit(mask, channel - 1), log + [Offered(Panic(channel, ALL_SOUND_OFF), true)])
  {
    hide Owes, Bit, ClearBit;
    forall lane: nat
      ensures Owes(log + [Offered(Panic(channel, ALL_SOUND_OFF), true)], lane)
           <==> Owes(log, lane) && lane + 1 != channel
      ensures Bit(ClearBit(mask, channel - 1), lane) <==> Bit(mask, lane) && lane != channel - 1
    {
      PairSettles(log, channel, lane);
      ClearBitBits(mask, channel - 1, lane);
    }
  }
}
