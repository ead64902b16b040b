/** The ledger of generated notes: its ordered queue, its voices, and what it has sent to the host. */
module NoteLedger {
  import M = MidiMerge
  import opened MidiPanic

  const UNASSIGNED := 255
  const DECISION_QUANTUM := 64
  const MAX_TICK_TRANSITIONS := 16
  const MAX_FRAMES := 16384

  datatype Kind = NoteOff | NoteOn | OtherKind

  datatype VoiceTransition = VoiceTransition(
    offset: nat, kind: Kind, note: nat, velocity: nat, sequence: nat, voiceId: nat)

  datatype Voice = Voice(active: bool, pendingRelease: bool, note: nat, channel: nat, voiceId: nat)

  const FREE := Voice(false, false, 0, 0, UNASSIGNED)

  function AllFree(): (voices: seq<Voice>)
    ensures |voices| == MAX_VOICES && forall i :: 0 <= i < MAX_VOICES ==> voices[i] == FREE
  {
    seq(MAX_VOICES, i => FREE)
  }

  // ---------------------------------------------------------------- the queue

  predicate Before(a: VoiceTransition, b: VoiceTransition) {
    if a.offset != b.offset then a.offset < b.offset
    else if a.kind != b.kind then a.kind == NoteOff
    else a.sequence < b.sequence
  }

  predicate WellFormed(t: VoiceTransition) {
    && t.kind != OtherKind && t.note <= 127
    && (if t.kind == NoteOff then t.velocity == 0 else 0 < t.velocity <= 127)
    && (t.voiceId == UNASSIGNED || t.voiceId < MAX_VOICES)
  }

  predicate Queued(queue: seq<VoiceTransition>) {
    && (forall i :: 0 <= i < |queue| ==> WellFormed(queue[i]))
    && forall i, j :: 0 <= i < j < |queue| ==> !Before(queue[j], queue[i])
  }

  /** The queue with a transition behind all that it does not precede. */
  function Inserted(queue: seq<VoiceTransition>, t: VoiceTransition): (r: seq<VoiceTransition>)
    ensures |r| == |queue| + 1
  {
    if queue == [] || !Before(t, queue[|queue| - 1]) then queue + [t]
    else Inserted(queue[..|queue| - 1], t) + [queue[|queue| - 1]]
  }

  lemma {:induction false} InsertedHolds(queue: seq<VoiceTransition>, t: VoiceTransition)
    ensures multiset(Inserted(queue, t)) == multiset(queue) + multiset{t}
    decreases |queue|
  {
    if queue != [] {
      assert queue == queue[..|queue| - 1] + [queue[|queue| - 1]];
      InsertedHolds(queue[..|queue| - 1], t);
    }
  }

  lemma ShiftOne(queue: seq<VoiceTransition>, position: nat, t: VoiceTransition)
    requires 0 < position <= |queue| && Before(t, queue[position - 1])
    ensures Inserted(queue[..position], t) == Inserted(queue[..position - 1], t) + [queue[position - 1]]
  {
    assert queue[..position][..position - 1] == queue[..position - 1];
  }

  lemma StopShifting(queue: seq<VoiceTransition>, t: VoiceTransition)
    requires queue == [] || !Before(t, queue[|queue| - 1])
    ensures Inserted(queue, t) == queue + [t]
  {
  }

  /** Inserting keeps the queue in order. */
  lemma {:induction false} InsertedIsQueued(queue: seq<VoiceTransition>, t: VoiceTransition)
    requires Queued(queue) && WellFormed(t)
    ensures Queued(Inserted(queue, t))
    decreases |queue|
  {
    if queue != [] && Before(t, queue[|queue| - 1]) {
      var init, last := queue[..|queue| - 1], queue[|queue| - 1];
      InsertedIsQueued(init, t);
      InsertedHolds(init, t);
      var rest := Inserted(init, t);
      forall i | 0 <= i < |rest|
        ensures WellFormed(rest[i]) && !Before(last, rest[i])
      {
        assert rest[i] in multiset(rest);
        if rest[i] != t {
          assert rest[i] in multiset(init);
        }
      }
    }
  }

  /** Earlier offsets first, note-offs first at one offset, and earlier sequence numbers among equals. */
  lemma QueuedInOrder(queue: seq<VoiceTransition>, i: nat, j: nat)
    requires Queued(queue) && i < j < |queue|
    ensures queue[i].offset <= queue[j].offset
    ensures queue[i].offset == queue[j].offset ==> (queue[i].kind == NoteOff || queue[j].kind == NoteOn)
    ensures queue[i].offset == queue[j].offset && queue[i].kind == queue[j].kind ==>
      queue[i].sequence <= queue[j].sequence
  {
    assert !Before(queue[j], queue[i]) && WellFormed(queue[i]) && WellFormed(queue[j]);
  }

  /** A transition is put in at one place and stays behind all that are equal to it in the order. */
  lemma {:induction false} InsertedAt(queue: seq<VoiceTransition>, t: VoiceTransition) returns (k: nat)
    requires Queued(queue) && WellFormed(t)
    ensures k <= |queue| && Inserted(queue, t) == queue[..k] + [t] + queue[k..]
    ensures forall i :: 0 <= i < |queue| && queue[i].offset == t.offset && queue[i].kind == t.kind ==>
      (i < k <==> queue[i].sequence <= t.sequence)
    decreases |queue|
  {
    if queue == [] || !Before(t, queue[|queue| - 1]) {
      k := |queue|;
      assert queue[..k] == queue && queue[k..] == [];
    } else {
      var n := |queue| - 1;
      k := InsertedAt(queue[..n], t);
      assert queue[..n][k..] + [queue[n]] == queue[k..] && queue[..n][..k] == queue[..k];
      assert forall i :: 0 <= i < n ==> queue[..n][i] == queue[i];
    }
  }

  /** Shifts the later transitions up by one and puts the new one in the gap. */
  method ShiftIn(queue: seq<VoiceTransition>, t: VoiceTransition) returns (r: seq<VoiceTransition>)
    ensures r == Inserted(queue, t)
  {
    hide Inserted, Before;
    var position := |queue|;
    var shifted: seq<VoiceTransition> := [];
    assert queue[..position] == queue;
    while position > 0 && Before(t, queue[position - 1])
      invariant 0 <= position <= |queue| && Inserted(queue, t) == Inserted(queue[..position], t) + shifted
    {
      ShiftOne(queue, position, t);
      shifted := [queue[position - 1]] + shifted;
      position := position - 1;
    }
    StopShifting(queue[..position], t);
    r := queue[..position] + [t] + shifted;
  }

  // ---------------------------------------------------------------- releasing what sounds

  function ReleaseOf(v: Voice, offset: nat, sequence: nat): VoiceTransition {
    VoiceTransition(offset, NoteOff, v.note, 0, sequence, v.voiceId)
  }

  /** How many of the first voices sound. */
  function Active(voices: seq<Voice>, n: nat): nat
    requires n <= |voices|
  {
    if n == 0 then 0 else Active(voices, n - 1) + if voices[n - 1].active then 1 else 0
  }

  /** The queue with the releases of the first sounding voices, as many as there is room for. */
  function WithReleases(
    queue: seq<VoiceTransition>, voices: seq<Voice>, n: nat, offset: nat, room: int): seq<VoiceTransition>
    requires n <= |voices|
  {
    if n == 0 then queue
    else
      var before, count := WithReleases(queue, voices, n - 1, offset, room), Active(voices, n - 1);
      if voices[n - 1].active && count < room then Inserted(before, ReleaseOf(voices[n - 1], offset, count)) else before
  }

  lemma VoiceReleases(voices: seq<Voice>, slot: nat, offset: nat, sequence: nat)
    requires ProperVoices(voices) && slot < |voices| && voices[slot].active
    ensures WellFormed(ReleaseOf(voices[slot], offset, sequence))
  {
  }

  // ---------------------------------------------------------------- what sounds

  /** A note-on or note-off given to the host, and its answer. */
  datatype Push = Push(t: M.Transition, accepted: bool)

  /** The accepted pushes, in order. */
  function Taken(log: seq<Push>): seq<M.Transition> {
    if log == [] then []
    else
      var last := log[|log| - 1];
      Taken(log[..|log| - 1]) + if last.accepted then [last.t] else []
  }

  /** What the host holds after the accepted pushes. */
  function Held(log: seq<Push>): multiset<(nat, nat)> {
    if log == [] then multiset{}
    else
      var before, last := Held(log[..|log| - 1]), log[|log| - 1];
      var key := multiset{(last.t.channel, last.t.note)};
      if !last.accepted then before else if last.t.on then before + key else before - key
  }

  /** Every note-off was for a note that the host holds. */
  predicate OffsAreHeld(log: seq<Push>) {
    forall k :: 0 <= k < |log| && !log[k].t.on ==> (log[k].t.channel, log[k].t.note) in Held(log[..k])
  }

  function Key(v: Voice): multiset<(nat, nat)> {
    if v.active then multiset{(v.channel, v.note)} else multiset{}
  }

  function Sounding(voices: seq<Voice>): multiset<(nat, nat)> {
    if voices == [] then multiset{} else Sounding(voices[..|voices| - 1]) + Key(voices[|voices| - 1])
  }

  lemma AddBoth<T>(a: multiset<T>, k: multiset<T>, b: multiset<T>, l: multiset<T>, more: multiset<T>)
    requires a + k == b + l
    ensures a + more + k == b + more + l
  {
    assert a + more + k == a + k + more;
    assert b + more + l == b + l + more;
  }

  lemma {:induction false} SoundingUpdate(voices: seq<Voice>, slot: nat, v: Voice)
    requires slot < |voices|
    ensures Sounding(voices[slot := v]) + Key(voices[slot]) == Sounding(voices) + Key(v)
    decreases |voices|
  {
    hide Key;
    var n := |voices| - 1;
    var init, changed := voices[..n], voices[slot := v];
    if slot == n {
      assert changed[..n] == init;
      assert Sounding(init) + Key(v) + Key(voices[n]) == Sounding(init) + Key(voices[n]) + Key(v);
    } else {
      assert changed[..n] == init[slot := v] && init[slot] == voices[slot];
      SoundingUpdate(init, slot, v);
      AddBoth(Sounding(init[slot := v]), Key(init[slot]), Sounding(init), Key(v), Key(voices[n]));
    }
  }

  lemma {:induction false} SoundingSame(voices: seq<Voice>, others: seq<Voice>)
    requires |voices| == |others| && forall i :: 0 <= i < |voices| ==> Key(voices[i]) == Key(others[i])
    ensures Sounding(voices) == Sounding(others)
    decreases |voices|
  {
    if voices != [] {
      var n := |voices| - 1;
      SoundingSame(voices[..n], others[..n]);
      assert Key(voices[n]) == Key(others[n]);
    }
  }

  lemma {:induction false} VoiceSounds(voices: seq<Voice>, slot: nat)
    requires slot < |voices| && voices[slot].active
    ensures (voices[slot].channel, voices[slot].note) in Sounding(voices)
  {
    SoundingUpdate(voices, slot, FREE);
    assert (voices[slot].channel, voices[slot].note) in Sounding(voices[slot := FREE]) + Key(voices[slot]);
    assert Sounding(voices) + Key(FREE) == Sounding(voices);
  }

  lemma {:induction false} NothingSounds(voices: seq<Voice>)
    requires forall i :: 0 <= i < |voices| ==> !voices[i].active
    ensures Sounding(voices) == multiset{}
    decreases |voices|
  {
    if voices != [] {
      NothingSounds(voices[..|voices| - 1]);
    }
  }

  lemma HeldAfter(log: seq<Push>, p: Push)
    ensures Held(log + [p]) ==
      var key := multiset{(p.t.channel, p.t.note)};
      if !p.accepted then Held(log) else if p.t.on then Held(log) + key else Held(log) - key
    ensures OffsAreHeld(log) && (!p.t.on ==> (p.t.channel, p.t.note) in Held(log)) ==> OffsAreHeld(log + [p])
  {
    assert (log + [p])[..|log|] == log;
    assert forall k :: 0 <= k <= |log| ==> (log + [p])[..k] == log[..k];
    assert forall k :: 0 <= k < |log| ==> (log + [p])[k] == log[k];
  }

  // ---------------------------------------------------------------- the voices

  predicate InUse(v: Voice) {
    v.active || v.pendingRelease
  }

  predicate Matches(v: Voice, t: VoiceTransition) {
    InUse(v) && v.note == t.note && (if t.voiceId < MAX_VOICES then v.voiceId == t.voiceId else v.voiceId == UNASSIGNED)
  }

  /** The voice sounds and has the identity of the transition. */
  predicate Claims(v: Voice, t: VoiceTransition) {
    v.active && (Matches(v, t) || (t.voiceId < MAX_VOICES && v.voiceId == t.voiceId))
  }

  /** Two voices that a transition could not tell apart. */
  predicate SameIdentity(a: Voice, b: Voice) {
    if a.voiceId < MAX_VOICES then a.voiceId == b.voiceId else b.voiceId == UNASSIGNED && a.note == b.note
  }

  predicate ProperVoice(v: Voice) {
    && (v.pendingRelease ==> v.active)
    && (if v.active then
          1 <= v.channel <= 16 && v.note <= 127 && (v.voiceId == UNASSIGNED || v.voiceId < MAX_VOICES)
        else v == FREE)
  }

  predicate ProperVoices(voices: seq<Voice>) {
    && |voices| == MAX_VOICES
    && (forall i :: 0 <= i < |voices| ==> ProperVoice(voices[i]))
    && forall i, j :: 0 <= i < j < |voices| && voices[i].active && voices[j].active ==>
         !SameIdentity(voices[i], voices[j])
  }

  predicate DistinctChannels(voices: seq<Voice>) {
    forall i, j :: 0 <= i < j < |voices| && voices[i].active && voices[j].active ==>
      voices[i].channel != voices[j].channel
  }

  predicate NonePending(voices: seq<Voice>) {
    forall i :: 0 <= i < |voices| ==> !voices[i].pendingRelease
  }

  predicate Channelled(voices: seq<Voice>, channel: nat) {
    exists i :: 0 <= i < |voices| && InUse(voices[i]) && voices[i].channel == channel
  }

  predicate AllFirm(voices: seq<Voice>) {
    forall i :: 0 <= i < |voices| && voices[i].active ==> voices[i].pendingRelease
  }

  predicate NoneActive(voices: seq<Voice>) {
    forall i :: 0 <= i < |voices| ==> !voices[i].active
  }

  lemma VoiceHasChannel(voices: seq<Voice>, slot: nat)
    requires ProperVoices(voices) && slot < |voices| && voices[slot].active
    ensures 1 <= voices[slot].channel <= 16
  {
  }

  lemma SomePending(voices: seq<Voice>, slot: nat)
    requires slot < |voices| && voices[slot].pendingRelease
    ensures !NonePending(voices)
  {
  }

  lemma FreeVoiceKeeps(voices: seq<Voice>, slot: nat)
    requires ProperVoices(voices) && slot < |voices|
    ensures ProperVoices(voices[slot := FREE])
    ensures DistinctChannels(voices) ==> DistinctChannels(voices[slot := FREE])
    ensures NonePending(voices) ==> NonePending(voices[slot := FREE])
  {
  }

  lemma NewVoiceKeeps(voices: seq<Voice>, slot: nat, v: Voice)
    requires ProperVoices(voices) && slot < |voices| && !voices[slot].active && ProperVoice(v) && v.active
    requires forall i :: 0 <= i < |voices| && voices[i].active ==> !SameIdentity(voices[i], v)
    ensures ProperVoices(voices[slot := v])
    ensures DistinctChannels(voices) && (forall i :: 0 <= i < |voices| && voices[i].active ==> voices[i].channel != v.channel)
      ==> DistinctChannels(voices[slot := v])
  {
    forall i | 0 <= i < |voices| && voices[i].active
      ensures !SameIdentity(v, voices[i])
    {
      assert !SameIdentity(voices[i], v);
    }
  }

  /** The voices are what the host holds, and tell their notes apart. */
  ghost predicate Consistent(voices: seq<Voice>, log: seq<Push>, count: nat, shared: bool) {
    && ProperVoices(voices) && (!shared ==> DistinctChannels(voices))
    && Held(log) == Sounding(voices) && OffsAreHeld(log) && count == |Sounding(voices)|
  }

  lemma SilenceIsConsistent(voices: seq<Voice>)
    requires |voices| == MAX_VOICES && forall i :: 0 <= i < |voices| ==> voices[i] == FREE
    ensures Consistent(voices, [], 0, false) && ProperVoices(voices) && Queued([])
  {
    NothingSounds(voices);
  }

  /** Marking every sounding voice for release changes nothing that sounds. */
  lemma FirmVoicesKeep(voices: seq<Voice>, others: seq<Voice>, log: seq<Push>, count: nat, shared: bool)
    requires Consistent(voices, log, count, shared) && |others| == |voices|
    requires forall i :: 0 <= i < |voices| ==> others[i] == voices[i].(pendingRelease := voices[i].active)
    ensures Consistent(others, log, count, shared)
  {
    SoundingSame(voices, others);
  }

  lemma ReleaseKeeps(voices: seq<Voice>, log: seq<Push>, count: nat, shared: bool, slot: nat, p: Push)
    requires Consistent(voices, log, count, shared) && slot < |voices| && voices[slot].active
    requires !p.t.on && p.t.channel == voices[slot].channel && p.t.note == voices[slot].note
    ensures p.accepted ==> count > 0 && Consistent(voices[slot := FREE], log + [p], count - 1, shared)
    ensures !p.accepted ==> Consistent(voices, log + [p], count, shared)
  {
    hide ProperVoices, OffsAreHeld, DistinctChannels;
    var key := (voices[slot].channel, voices[slot].note);
    VoiceSounds(voices, slot);
    HeldAfter(log, p);
    if p.accepted {
      SoundingUpdate(voices, slot, FREE);
      FreeVoiceKeeps(voices, slot);
      var left := Sounding(voices[slot := FREE]);
      assert left + multiset{key} == Sounding(voices) + Key(FREE) == Sounding(voices);
      assert Sounding(voices) - multiset{key} == left;
    }
  }

  lemma StartKeeps(voices: seq<Voice>, log: seq<Push>, count: nat, shared: bool, slot: nat, v: Voice, p: Push)
    requires Consistent(voices, log, count, shared) && slot < |voices| && !voices[slot].active
    requires ProperVoice(v) && v.active && p.t.on && p.t.channel == v.channel && p.t.note == v.note
    requires forall i :: 0 <= i < |voices| && voices[i].active ==> !SameIdentity(voices[i], v)
    requires !shared ==> forall i :: 0 <= i < |voices| && voices[i].active ==> voices[i].channel != v.channel
    ensures p.accepted ==> Consistent(voices[slot := v], log + [p], count + 1, shared)
    ensures !p.accepted ==> Consistent(voices, log + [p], count, shared)
  {
    HeldAfter(log, p);
    if p.accepted {
      SoundingUpdate(voices, slot, v);
      NewVoiceKeeps(voices, slot, v);
      assert Key(voices[slot]) == multiset{};
      assert Sounding(voices[slot := v]) == Sounding(voices) + multiset{(v.channel, v.note)};
    }
  }

  /** A note-on for an identity and a channel that do not sound keeps everything told apart. */
  lemma StartKeepsFor(
    voices: seq<Voice>, log: seq<Push>, count: nat, shared: bool, mixed: bool,
    slot: nat, t: VoiceTransition, v: Voice, p: Push)
    requires Consistent(voices, log, count, shared) && slot < |voices| && !InUse(voices[slot])
    requires WellFormed(t) && forall i :: 0 <= i < |voices| ==> !Claims(voices[i], t)
    requires v == Voice(true, false, t.note, v.channel, t.voiceId) && 1 <= v.channel <= 16
    requires p.t.on && p.t.channel == v.channel && p.t.note == v.note
    requires (shared ==> mixed) && (!mixed ==> !Channelled(voices, v.channel))
    ensures p.accepted ==>
      && Consistent(voices[slot := v], log + [p], count + 1, mixed) && ProperVoices(voices[slot := v])
    ensures !p.accepted ==> Consistent(voices, log + [p], count, mixed)
    ensures NonePending(voices) ==> NonePending(voices[slot := v])
  {
    hide OffsAreHeld;
    forall i | 0 <= i < |voices| && voices[i].active
      ensures !SameIdentity(voices[i], v)
    {
      assert !Claims(voices[i], t);
    }
    assert Consistent(voices, log, count, mixed);
    StartKeeps(voices, log, count, mixed, slot, v, p);
  }

  // ---------------------------------------------------------------- order of the pushes

  /** The frames within which a call must send: a call without frames still sends due releases at offset 0. */
  function Block(frames: nat): (r: nat)
    ensures r > 0
  {
    if frames == 0 then 1 else frames
  }

  function Script(log: seq<Push>, n: nat): (s: seq<M.Transition>)
    requires n <= |log|
    ensures |s| == |log| - n && forall i :: 0 <= i < |s| ==> s[i] == log[n + i].t
  {
    seq(|log| - n, i requires 0 <= i < |log| - n => log[n + i].t)
  }

  function QueueRank(t: VoiceTransition): int {
    3 * t.offset + if t.kind == NoteOn then 2 else 0
  }

  function PushRank(t: M.Transition): int {
    3 * t.offset + if t.on then 2 else 0
  }

  /** The pushes from index n on are in order, none beyond the bound and none beyond the block. */
  predicate InOrder(log: seq<Push>, n: nat, frames: nat, bound: int) {
    && n <= |log|
    && (forall k :: n <= k < |log| ==>
          PushRank(log[k].t) <= bound && log[k].t.offset < frames && 1 <= log[k].t.channel <= 16)
    && forall i, j :: n <= i < j < |log| ==> PushRank(log[i].t) <= PushRank(log[j].t)
  }

  lemma AnsweredNext(log: seq<Push>, n: nat, p: Push)
    requires n <= |log| && Answered(log, n, true)
    ensures Answered(log + [p], n, p.accepted)
    ensures OnlyOffs(log, n) && !p.t.on ==> OnlyOffs(log + [p], n)
  {
    assert forall k :: 0 <= k < |log| ==> (log + [p])[k] == log[k];
  }

  /** The pushes of a call so far, which started at index n, and were answered from index start on. */
  predicate InCall(log: seq<Push>, n: nat, start: nat, frames: nat, bound: int, all: bool) {
    InOrder(log, n, frames, bound) && n <= start <= |log| && Answered(log, start, all)
  }

  lemma InCallNext(log: seq<Push>, n: nat, start: nat, frames: nat, bound: int, p: Push, next: int)
    requires InCall(log, n, start, frames, bound, true) && bound <= next && PushRank(p.t) == next
    requires p.t.offset < frames && 1 <= p.t.channel <= 16
    ensures InCall(log + [p], n, start, frames, next, p.accepted)
  {
    InOrderNext(log, n, frames, bound, p, next);
    AnsweredNext(log, start, p);
  }

  lemma InCallGrows(log: seq<Push>, n: nat, start: nat, frames: nat, bound: int, next: int)
    requires InCall(log, n, start, frames, bound, true) && bound <= next
    ensures InCall(log, n, start, frames, next, true)
  {
  }

  lemma RanksAreNatural(queue: seq<VoiceTransition>)
    ensures forall j :: 0 <= j < |queue| ==> 0 <= QueueRank(queue[j])
  {
  }

  /** A finished call: its script is ordered, and only its last push can have been rejected. */
  lemma CallIsOrdered(log: seq<Push>, n: nat, frames: nat, bound: int, all: bool)
    requires InCall(log, n, n, frames, bound, all)
    ensures M.Ordered(Script(log, n), frames, true)
    ensures forall k :: n <= k < |log| - 1 ==> log[k].accepted
  {
    InOrderIsOrdered(log, n, frames, bound);
  }

  predicate AllAccepted(log: seq<Push>, n: nat) {
    forall k :: n <= k < |log| ==> log[k].accepted
  }

  /** When every sounding voice was due, nothing sounds any more or a release was rejected. */
  lemma SettledOrRejected(voices: seq<Voice>, log: seq<Push>, n: nat, frames: nat, released: bool)
    requires InCall(log, n, n, frames, 0, released) && (released ==> NonePending(voices))
    ensures AllFirm(voices) && released ==> NoneActive(voices)
    ensures !released ==> n < |log| && !log[|log| - 1].accepted
  {
  }

  lemma CallStarts(voices: seq<Voice>, log: seq<Push>, frames: nat)
    ensures InCall(log, |log|, |log|, frames, 0, true) && OnlyOffs(log, |log|)
    ensures Script(log, |log|) == Due(voices, 0)
  {
  }

  lemma OffsJoin(log: seq<Push>, more: seq<Push>, n: nat)
    requires n <= |log| && log <= more
    ensures OnlyOffs(log, n) && OnlyOffs(more, |log|) ==> OnlyOffs(more, n)
  {
  }

  lemma OffsStay(log: seq<Push>, more: seq<Push>, n: nat)
    requires n <= |log| && OnlyOffs(log, n) && |more| == |log| + 1 && log <= more && !more[|log|].t.on
    ensures OnlyOffs(more, n)
  {
  }

  lemma InOrderNext(log: seq<Push>, n: nat, frames: nat, bound: int, p: Push, next: int)
    requires InOrder(log, n, frames, bound) && bound <= next && PushRank(p.t) == next
    requires p.t.offset < frames && 1 <= p.t.channel <= 16
    ensures InOrder(log + [p], n, frames, next)
  {
  }

  /** Pushes in order are an ordered script for the pipeline. */
  lemma InOrderIsOrdered(log: seq<Push>, n: nat, frames: nat, bound: int)
    requires InOrder(log, n, frames, bound)
    ensures M.Ordered(Script(log, n), frames, true)
  {
    var s := Script(log, n);
    forall a, b | 0 <= a < b < |s|
      ensures M.Rank(M.NoteOf(s[a]), true) <= M.Rank(M.NoteOf(s[b]), true)
    {
      assert PushRank(log[n + a].t) <= PushRank(log[n + b].t);
    }
  }

  /** Later transitions of the queue do not rank lower. */
  lemma QueueIsRanked(queue: seq<VoiceTransition>, i: nat, j: nat)
    requires Queued(queue) && i <= j < |queue|
    ensures QueueRank(queue[i]) <= QueueRank(queue[j])
  {
    if i < j {
      assert !Before(queue[j], queue[i]);
    }
  }

  /** The pushes from index n on were answered by the sink. */
  predicate AnsweredBy(log: seq<Push>, n: nat, sink: nat -> bool) {
    n <= |log| && forall k :: n <= k < |log| ==> log[k].accepted == sink(k)
  }

  lemma AnsweredByNext(log: seq<Push>, n: nat, sink: nat -> bool, p: Push)
    requires AnsweredBy(log, n, sink) && p.accepted == sink(|log|)
    ensures AnsweredBy(log + [p], n, sink)
  {
  }

  lemma AnsweredByNobody(log: seq<Push>, sink: nat -> bool)
    ensures AnsweredBy(log, |log|, sink)
  {
  }

  predicate OnlyOffs(log: seq<Push>, n: nat) {
    forall k :: n <= k < |log| ==> !log[k].t.on
  }

  /** From index n on every push was accepted, except the last one when something was rejected. */
  predicate Answered(log: seq<Push>, n: nat, all: bool) {
    && (forall k :: n <= k < |log| - 1 ==> log[k].accepted)
    && (if all then n < |log| ==> log[|log| - 1].accepted else n < |log| && !log[|log| - 1].accepted)
  }

  lemma ScriptGrows(log: seq<Push>, n: nat, p: Push)
    requires n <= |log|
    ensures Script(log + [p], n) == Script(log, n) + [p.t]
    ensures AllAccepted(log + [p], n) <==> AllAccepted(log, n) && p.accepted
  {
    assert (log + [p])[|log|] == p;
    assert forall k :: 0 <= k < |log| ==> (log + [p])[k] == log[k];
  }

  lemma ScriptJoins(log: seq<Push>, more: seq<Push>, n: nat)
    requires n <= |log| && log <= more
    ensures Script(more, n) == Script(log, n) + Script(more, |log|)
    ensures AllAccepted(more, n) <==> AllAccepted(log, n) && AllAccepted(more, |log|)
  {
    assert forall k :: 0 <= k < |log| ==> more[k] == log[k];
  }

  // ---------------------------------------------------------------- what a call sends

  /** The number of bits before the first one that is set. */
  function First(bits: seq<bool>): (r: nat)
    ensures r <= |bits| && (r < |bits| ==> bits[r]) && forall i :: 0 <= i < r ==> !bits[i]
  {
    if bits == [] || bits[0] then 0 else 1 + First(bits[1..])
  }

  /** The first voice that the transition names. */
  function MatchingSlot(voices: seq<Voice>, t: VoiceTransition): (r: nat)
    ensures r <= |voices| && (r < |voices| ==> Matches(voices[r], t))
    ensures forall i :: 0 <= i < r ==> !Matches(voices[i], t)
  {
    var bits := seq(|voices|, i requires 0 <= i < |voices| => Matches(voices[i], t));
    assert forall i :: 0 <= i < |bits| ==> bits[i] == Matches(voices[i], t);
    First(bits)
  }

  function FreeSlot(voices: seq<Voice>): (r: nat)
    ensures r <= |voices| && (r < |voices| ==> !InUse(voices[r]))
    ensures forall i :: 0 <= i < r ==> InUse(voices[i])
  {
    var bits := seq(|voices|, i requires 0 <= i < |voices| => !InUse(voices[i]));
    assert forall i :: 0 <= i < |bits| ==> bits[i] == !InUse(voices[i]);
    First(bits)
  }

  /** The first slot of the route whose channel no voice uses. */
  function OpenSlot(voices: seq<Voice>, start: nat): (r: nat)
    requires 1 <= start <= 16
    ensures r <= MAX_VOICES && (r < MAX_VOICES ==> !Channelled(voices, Channel(start, r)))
    ensures forall s :: 0 <= s < r ==> Channelled(voices, Channel(start, s))
  {
    var bits := seq(MAX_VOICES, s requires 0 <= s < MAX_VOICES => !Channelled(voices, Channel(start, s)));
    assert forall s :: 0 <= s < |bits| ==> bits[s] == !Channelled(voices, Channel(start, s));
    First(bits)
  }

  /** The channel of a new note, or 0. */
  function ChannelFor(voices: seq<Voice>, routing: Routing, start: nat, t: VoiceTransition): (channel: nat)
    ensures channel <= 16
    ensures channel != 0 ==> routing != Unknown && (routing == PerVoice ==> !Channelled(voices, channel))
  {
    if start < 1 || start > 16 || routing == Unknown then 0
    else if routing == Single then start
    else if t.voiceId < MAX_VOICES then
      var channel := Channel(start, t.voiceId);
      if Channelled(voices, channel) then 0 else channel
    else
      var slot := OpenSlot(voices, start);
      if slot == MAX_VOICES then 0 else Channel(start, slot)
  }

  /** What one transition of the queue makes of the voices: a push, when accepted, puts a voice in a slot. */
  datatype Step = Skip | Refuse | Send(push: M.Transition, slot: nat, voice: Voice)

  function StepFor(voices: seq<Voice>, t: VoiceTransition, hold: bool, routing: Routing, start: nat): (r: Step)
    ensures r.Send? ==> r.slot < |voices|
  {
    if t.kind == NoteOff then
      var slot := MatchingSlot(voices, t);
      if slot == |voices| then Refuse
      else Send(M.Transition(t.offset, false, voices[slot].note, 0, voices[slot].channel), slot, FREE)
    else if hold then Skip
    else
      var channel, slot := ChannelFor(voices, routing, start, t), FreeSlot(voices);
      if (exists i :: 0 <= i < |voices| && Claims(voices[i], t)) || channel == 0 || slot == |voices| then Refuse
      else
        Send(M.Transition(t.offset, true, t.note, t.velocity, channel), slot,
             Voice(true, false, t.note, channel, t.voiceId))
  }

  /** A matched voice sounds, and freeing it keeps every release done. */
  lemma MatchedVoiceSounds(voices: seq<Voice>, t: VoiceTransition)
    requires ProperVoices(voices) && MatchingSlot(voices, t) < |voices|
    ensures voices[MatchingSlot(voices, t)].active
    ensures NonePending(voices) ==> NonePending(voices[MatchingSlot(voices, t) := FREE])
  {
  }

  lemma StepForOff(voices: seq<Voice>, t: VoiceTransition, hold: bool, routing: Routing, start: nat)
    requires t.kind == NoteOff
    ensures StepFor(voices, t, hold, routing, start) ==
      var slot := MatchingSlot(voices, t);
      if slot == |voices| then Refuse
      else Send(M.Transition(t.offset, false, voices[slot].note, 0, voices[slot].channel), slot, FREE)
  {
  }

  lemma {:induction false} FullHasNoFreeSlot(voices: seq<Voice>)
    requires exists i :: 0 <= i < |voices| && !InUse(voices[i])
    ensures |Sounding(voices)| < |voices|
    decreases |voices|
  {
    var n := |voices| - 1;
    var init, last := voices[..n], voices[n];
    if InUse(last) {
      var i :| 0 <= i < |voices| && !InUse(voices[i]);
      assert init[i] == voices[i];
      FullHasNoFreeSlot(init);
    } else {
      SoundingIsFew(init);
    }
  }

  lemma CountIsBelowSlots(voices: seq<Voice>, log: seq<Push>, count: nat, shared: bool)
    requires Consistent(voices, log, count, shared)
    ensures FreeSlot(voices) < |voices| ==> count < MAX_VOICES
  {
    if FreeSlot(voices) < |voices| {
      FullHasNoFreeSlot(voices);
    }
  }

  lemma {:induction false} SoundingIsFew(voices: seq<Voice>)
    ensures |Sounding(voices)| <= |voices|
    decreases |voices|
  {
    if voices != [] {
      SoundingIsFew(voices[..|voices| - 1]);
    }
  }

  predicate Performed(
    step: Step, voices: seq<Voice>, log: seq<Push>, voices': seq<Voice>, log': seq<Push>, ok: bool)
  {
    match step
    case Skip => ok && voices' == voices && log' == log
    case Refuse => !ok && log' == log
    case Send(push, slot, voice) =>
      slot < |voices| && log' == log + [Push(push, ok)] && (ok ==> voices' == voices[slot := voice])
  }

  /** The pushes of a whole queue as long as all are accepted, whether none is refused, and the voices then. */
  datatype Plan = Plan(sends: seq<M.Transition>, complete: bool, voices: seq<Voice>)

  function Extended(plan: Plan, t: VoiceTransition, frames: nat, hold: bool, routing: Routing, start: nat): Plan {
    if !plan.complete || t.offset >= frames then plan
    else
      match StepFor(plan.voices, t, hold, routing, start)
      case Skip => plan
      case Refuse => plan.(complete := false)
      case Send(push, slot, voice) => Plan(plan.sends + [push], true, plan.voices[slot := voice])
  }

  function Planned(
    voices: seq<Voice>, queue: seq<VoiceTransition>, frames: nat, hold: bool, routing: Routing, start: nat): Plan
  {
    if queue == [] then Plan([], true, voices)
    else
      Extended(Planned(voices, queue[..|queue| - 1], frames, hold, routing, start), queue[|queue| - 1],
               frames, hold, routing, start)
  }

  lemma {:induction false} PlannedGrows(
    voices: seq<Voice>, queue: seq<VoiceTransition>, n: nat,
    frames: nat, hold: bool, routing: Routing, start: nat)
    requires n <= |queue|
    ensures var part := Planned(voices, queue[..n], frames, hold, routing, start);
      var all := Planned(voices, queue, frames, hold, routing, start);
      part.sends <= all.sends && (!part.complete ==> all == part)
    decreases |queue|
  {
    hide StepFor;
    if n == |queue| {
      assert queue[..n] == queue;
    } else {
      var init := queue[..|queue| - 1];
      assert init[..n] == queue[..n];
      PlannedGrows(voices, init, n, frames, hold, routing, start);
    }
  }

  /** A route that the ledger does not know, or a transition beyond the block. */
  predicate BadBlock(queue: seq<VoiceTransition>, routing: Routing, start: nat, frames: nat) {
    || start < 1 || start > 16 || routing == Unknown
    || exists i :: 0 <= i < |queue| && queue[i].offset >= frames
  }

  function CallsLeft(calls: nat, held: bool): nat {
    if held && calls > 0 then calls - 1 else calls
  }

  /** The plan of a call: the queue, unless nothing may be delivered. */
  function Course(
    voices: seq<Voice>, queue: seq<VoiceTransition>, usable: bool,
    frames: nat, hold: bool, routing: Routing, start: nat): Plan
  {
    if usable then Planned(voices, queue, frames, hold, routing, start) else Plan([], true, voices)
  }

  /** A note of the queue or of a push, apart from its channel. */
  datatype Note = Note(offset: nat, on: bool, note: nat, velocity: nat)

  function Wanted(queue: seq<VoiceTransition>, frames: nat, hold: bool): seq<Note> {
    if queue == [] then []
    else
      var before, t := Wanted(queue[..|queue| - 1], frames, hold), queue[|queue| - 1];
      if t.offset >= frames || (hold && t.kind != NoteOff) then before
      else before + [Note(t.offset, t.kind == NoteOn, t.note, t.velocity)]
  }

  function Notes(sends: seq<M.Transition>): (r: seq<Note>)
    ensures |r| == |sends|
  {
    seq(|sends|, i requires 0 <= i < |sends| =>
      Note(sends[i].offset, sends[i].on, sends[i].note, sends[i].velocity))
  }

  lemma StepSendsTheNote(voices: seq<Voice>, t: VoiceTransition, hold: bool, routing: Routing, start: nat)
    requires WellFormed(t)
    ensures var step := StepFor(voices, t, hold, routing, start);
      && (step.Send? ==>
            Note(step.push.offset, step.push.on, step.push.note, step.push.velocity)
              == Note(t.offset, t.kind == NoteOn, t.note, t.velocity))
      && (step.Skip? <==> hold && t.kind != NoteOff)
  {
  }

  /** The pushes are the notes of the queue in their order, up to the first refusal. */
  lemma {:induction false} PlannedIsWanted(
    voices: seq<Voice>, queue: seq<VoiceTransition>, frames: nat, hold: bool, routing: Routing, start: nat)
    requires forall i :: 0 <= i < |queue| ==> WellFormed(queue[i])
    ensures var plan := Planned(voices, queue, frames, hold, routing, start);
      && Notes(plan.sends) <= Wanted(queue, frames, hold)
      && (plan.complete <==> Notes(plan.sends) == Wanted(queue, frames, hold))
    decreases |queue|
  {
    hide StepFor, WellFormed;
    if queue != [] {
      var init, t := queue[..|queue| - 1], queue[|queue| - 1];
      PlannedIsWanted(voices, init, frames, hold, routing, start);
      var plan := Planned(voices, init, frames, hold, routing, start);
      StepSendsTheNote(plan.voices, t, hold, routing, start);
      var next := Planned(voices, queue, frames, hold, routing, start);
      if next.sends != plan.sends {
        assert next.sends[..|plan.sends|] == plan.sends;
        assert Notes(next.sends) == Notes(plan.sends) + [Note(t.offset, t.kind == NoteOn, t.note, t.velocity)];
      }
    }
  }

  /** The due releases of one note among the first voices. */
  function DueOf(voices: seq<Voice>, note: nat, slots: nat): seq<M.Transition>
    requires slots <= |voices|
  {
    if slots == 0 then []
    else
      var before, v := DueOf(voices, note, slots - 1), voices[slots - 1];
      if v.pendingRelease && v.note == note then before + [M.Transition(0, false, note, 0, v.channel)] else before
  }

  /** The due releases of the notes below a bound, by note and then by voice. */
  function Due(voices: seq<Voice>, notes: nat): seq<M.Transition> {
    if notes == 0 then [] else Due(voices, notes - 1) + DueOf(voices, notes - 1, |voices|)
  }

  lemma {:induction false} DueGrows(voices: seq<Voice>, n: nat, m: nat)
    requires n <= m
    ensures Due(voices, n) <= Due(voices, m)
    decreases m
  {
    if n < m {
      DueGrows(voices, n, m - 1);
    }
  }

  lemma {:induction false} DueOfGrows(voices: seq<Voice>, note: nat, n: nat, m: nat)
    requires n <= m <= |voices|
    ensures DueOf(voices, note, n) <= DueOf(voices, note, m)
    decreases m
  {
    if n < m {
      DueOfGrows(voices, note, n, m - 1);
    }
  }

  /** The voices that were due before this note, or with it in an earlier slot, are free. */
  predicate ReleasedUpTo(was: seq<Voice>, voices: seq<Voice>, note: nat, slot: nat) {
    && |was| == |voices| == MAX_VOICES
    && forall i :: 0 <= i < MAX_VOICES ==>
         voices[i] ==
           if was[i].pendingRelease && (was[i].note < note || (was[i].note == note && i < slot)) then FREE else was[i]
  }

  lemma NoneReleasedYet(was: seq<Voice>, note: nat)
    ensures Due(was, note) + DueOf(was, note, 0) == Due(was, note)
  {
  }

  lemma PendingVoiceSounds(voices: seq<Voice>, slot: nat)
    requires ProperVoices(voices) && slot < |voices| && voices[slot].pendingRelease
    ensures voices[slot].active
  {
  }

  lemma ReleaseIsDue(
    was: seq<Voice>, voices: seq<Voice>, note: nat, slot: nat, log: seq<Push>, n: nat, ok: bool)
    requires ReleasedUpTo(was, voices, note, slot) && slot < MAX_VOICES && n <= |log|
    requires Script(log, n) == Due(was, note) + DueOf(was, note, slot)
    requires voices[slot].pendingRelease && voices[slot].note == note
    ensures var p := Push(M.Transition(0, false, note, 0, voices[slot].channel), ok);
      && Script(log + [p], n) == Due(was, note) + DueOf(was, note, slot + 1)
      && Script(log + [p], n) <= Due(was, note + 1)
    ensures ReleasedUpTo(was, voices[slot := FREE], note, slot + 1)
  {
    ScriptGrows(log, n, Push(M.Transition(0, false, note, 0, voices[slot].channel), ok));
    DueOfGrows(was, note, slot + 1, MAX_VOICES);
  }

  /** A slot without a due voice of the note is skipped; one that was released counts already. */
  lemma NextReleased(was: seq<Voice>, voices: seq<Voice>, note: nat, slot: nat)
    requires slot < MAX_VOICES == |was|
    requires ReleasedUpTo(was, voices, note, slot)
    ensures !(voices[slot].pendingRelease && voices[slot].note == note) ==>
      ReleasedUpTo(was, voices, note, slot + 1) && DueOf(was, note, slot + 1) == DueOf(was, note, slot)
  {
  }

  lemma NoteReleased(was: seq<Voice>, voices: seq<Voice>, note: nat)
    requires ReleasedUpTo(was, voices, note, MAX_VOICES)
    ensures ReleasedUpTo(was, voices, note + 1, 0)
    ensures Due(was, note + 1) == Due(was, note) + DueOf(was, note, MAX_VOICES)
  {
  }

  lemma AllReleased(was: seq<Voice>, voices: seq<Voice>)
    requires ReleasedUpTo(was, voices, 128, 0) && ProperVoices(was)
    ensures voices == Settled(was) && NonePending(voices)
  {
  }

  lemma NothingIsDue(voices: seq<Voice>, notes: nat)
    requires NonePending(voices)
    ensures Due(voices, notes) == [] && Settled(voices) == voices
  {
    if notes > 0 {
      NothingIsDue(voices, notes - 1);
      NothingOfNoteIsDue(voices, notes - 1, |voices|);
    }
  }

  lemma NothingOfNoteIsDue(voices: seq<Voice>, note: nat, slots: nat)
    requires NonePending(voices) && slots <= |voices|
    ensures DueOf(voices, note, slots) == []
  {
  }

  /** The voices without those that were due. */
  function Settled(voices: seq<Voice>): (r: seq<Voice>)
    ensures |r| == |voices|
    ensures forall i :: 0 <= i < |voices| ==> r[i] == if voices[i].pendingRelease then FREE else voices[i]
  {
    seq(|voices|, i requires 0 <= i < |voices| => if voices[i].pendingRelease then FREE else voices[i])
  }

  // ---------------------------------------------------------------- channels of the pushes

  predicate OnChannel(t: M.Transition) {
    1 <= t.channel <= 16
  }

  predicate AllOnChannel(sends: seq<M.Transition>) {
    forall k :: 0 <= k < |sends| ==> OnChannel(sends[k])
  }

  predicate Routed(voices: seq<Voice>) {
    forall i :: 0 <= i < |voices| && InUse(voices[i]) ==> 1 <= voices[i].channel <= 16
  }

  lemma ProperIsRouted(voices: seq<Voice>)
    requires ProperVoices(voices)
    ensures Routed(voices) && Routed(Settled(voices))
  {
  }

  lemma StepIsRouted(voices: seq<Voice>, t: VoiceTransition, hold: bool, routing: Routing, start: nat)
    requires Routed(voices)
    ensures var step := StepFor(voices, t, hold, routing, start);
      step.Send? ==> OnChannel(step.push) && Routed(voices[step.slot := step.voice])
  {
    hide Claims;
  }

  lemma {:induction false} PlannedIsRouted(
    voices: seq<Voice>, queue: seq<VoiceTransition>, frames: nat, hold: bool, routing: Routing, start: nat)
    requires Routed(voices)
    ensures var plan := Planned(voices, queue, frames, hold, routing, start);
      Routed(plan.voices) && AllOnChannel(plan.sends)
    decreases |queue|
  {
    hide StepFor, Routed, OnChannel;
    if queue != [] {
      var init, t := queue[..|queue| - 1], queue[|queue| - 1];
      PlannedIsRouted(voices, init, frames, hold, routing, start);
      StepIsRouted(Planned(voices, init, frames, hold, routing, start).voices, t, hold, routing, start);
    }
  }

  lemma {:induction false} DueOfIsRouted(voices: seq<Voice>, note: nat, slots: nat)
    requires Routed(voices) && slots <= |voices|
    ensures AllOnChannel(DueOf(voices, note, slots))
    decreases slots
  {
    if slots > 0 {
      DueOfIsRouted(voices, note, slots - 1);
    }
  }

  lemma {:induction false} DueIsRouted(voices: seq<Voice>, notes: nat)
    requires Routed(voices)
    ensures AllOnChannel(Due(voices, notes))
    decreases notes
  {
    hide Routed, OnChannel;
    if notes > 0 {
      DueIsRouted(voices, notes - 1);
      DueOfIsRouted(voices, notes - 1, |voices|);
    }
  }

  /** All pushes of a call as long as all are accepted. */
  function Intended(
    voices: seq<Voice>, queue: seq<VoiceTransition>, usable: bool,
    frames: nat, hold: bool, routing: Routing, start: nat): seq<M.Transition>
  {
    Due(voices, 128) + Course(Settled(voices), queue, usable, frames, hold, routing, start).sends
  }

  lemma IntendedIsRouted(
    voices: seq<Voice>, queue: seq<VoiceTransition>, usable: bool,
    frames: nat, hold: bool, routing: Routing, start: nat)
    requires ProperVoices(voices)
    ensures AllOnChannel(Intended(voices, queue, usable, frames, hold, routing, start))
  {
    hide Routed, OnChannel, ProperVoices;
    ProperIsRouted(voices);
    DueIsRouted(voices, 128);
    PlannedIsRouted(Settled(voices), queue, frames, hold, routing, start);
  }

  lemma {:induction false} DueAtZero(voices: seq<Voice>, notes: nat)
    ensures forall k :: 0 <= k < |Due(voices, notes)| ==> Due(voices, notes)[k].offset == 0 && !Due(voices, notes)[k].on
    decreases notes
  {
    if notes > 0 {
      DueAtZero(voices, notes - 1);
      DueOfAtZero(voices, notes - 1, |voices|);
    }
  }

  lemma {:induction false} DueOfAtZero(voices: seq<Voice>, note: nat, slots: nat)
    requires slots <= |voices|
    ensures forall k :: 0 <= k < |DueOf(voices, note, slots)| ==>
      DueOf(voices, note, slots)[k].offset == 0 && !DueOf(voices, note, slots)[k].on
    decreases slots
  {
    if slots > 0 {
      DueOfAtZero(voices, note, slots - 1);
    }
  }

  /** The pushes from index n on follow the plan, all of it unless one was rejected. */
  predicate Follows(sends: seq<M.Transition>, log: seq<Push>, n: nat)
    requires n <= |log|
  {
    Script(log, n) <= sends && (AllAccepted(log, n) ==> Script(log, n) == sends)
  }

  lemma CallFollows(sends: seq<M.Transition>, log: seq<Push>, n: nat, frames: nat, all: bool)
    requires InCall(log, n, n, frames, 0, all) && Script(log, n) <= sends && (all ==> Script(log, n) == sends)
    ensures Follows(sends, log, n) && all == AllAccepted(log, n)
  {
  }

  lemma NothingPlanned(
    voices: seq<Voice>, log: seq<Push>, frames: nat, hold: bool, routing: Routing, start: nat)
    ensures Planned(voices, [], frames, hold, routing, start) == Plan([], true, voices)
    ensures Follows([], log, |log|) && AllAccepted(log, |log|)
  {
  }

  lemma PlannedNext(
    voices: seq<Voice>, queue: seq<VoiceTransition>, n: nat,
    frames: nat, hold: bool, routing: Routing, start: nat)
    requires n < |queue|
    ensures Planned(voices, queue[..n + 1], frames, hold, routing, start)
      == Extended(Planned(voices, queue[..n], frames, hold, routing, start), queue[n], frames, hold, routing, start)
    ensures queue[n].offset >= frames ==>
      Planned(voices, queue[..n + 1], frames, hold, routing, start)
        == Planned(voices, queue[..n], frames, hold, routing, start)
  {
    hide StepFor;
    assert queue[..n + 1][..n] == queue[..n];
  }

  /** Stopped inside the queue by a refusal or a rejection, the pushes still follow the plan of all of it. */
  lemma PlanIsFollowed(
    voices: seq<Voice>, queue: seq<VoiceTransition>, n: nat, frames: nat, hold: bool, routing: Routing, start: nat,
    log: seq<Push>, from: nat)
    requires n <= |queue| && from <= |log|
    requires var part := Planned(voices, queue[..n], frames, hold, routing, start);
      && Follows(part.sends, log, from)
      && (n < |queue| ==> !(part.complete && AllAccepted(log, from)))
    ensures var part := Planned(voices, queue[..n], frames, hold, routing, start);
      var all := Planned(voices, queue, frames, hold, routing, start);
      && Follows(all.sends, log, from)
      && (part.complete && AllAccepted(log, from) <==> all.complete && AllAccepted(log, from))
      && (all.complete && AllAccepted(log, from) ==> part == all)
  {
    PlannedGrows(voices, queue, n, frames, hold, routing, start);
    assert n == |queue| ==> queue[..n] == queue;
  }

  /** The second part of a call is empty when the first was not accepted. */
  lemma FollowsBoth(
    first: seq<M.Transition>, second: seq<M.Transition>, log: seq<Push>, between: seq<Push>, after: seq<Push>,
    all: bool)
    requires log <= between <= after && all == AllAccepted(between, |log|)
    requires Follows(first, between, |log|) && Follows(if all then second else [], after, |between|)
    ensures Follows(first + second, after, |log|)
    ensures AllAccepted(after, |log|) <==> all && AllAccepted(after, |between|)
  {
    ScriptJoins(between, after, |log|);
  }

  lemma FollowsNext(
    plan: Plan, t: VoiceTransition, frames: nat, hold: bool, routing: Routing, start: nat,
    n: nat, log: seq<Push>, voices': seq<Voice>, log': seq<Push>, ok: bool)
    requires n <= |log| && plan.complete && Follows(plan.sends, log, n) && AllAccepted(log, n) && t.offset < frames
    requires Performed(StepFor(plan.voices, t, hold, routing, start), plan.voices, log, voices', log', ok)
    ensures n <= |log'| && var next := Extended(plan, t, frames, hold, routing, start);
      && Follows(next.sends, log', n) && (ok <==> next.complete && AllAccepted(log', n))
      && (ok ==> voices' == next.voices)
  {
    hide StepFor;
    var step := StepFor(plan.voices, t, hold, routing, start);
    if step.Send? {
      ScriptGrows(log, n, Push(step.push, ok));
    }
  }

  // ---------------------------------------------------------------- the ledger

  datatype DeliveryResult = DeliveryResult(outputBlocked: bool, panicHold: bool, detectionAllowed: bool)

  class NoteLedger {
    var hasStorage: bool
    var queue: seq<VoiceTransition>
    var capacity: nat
    var maxFrames: nat
    var voices: seq<Voice>
    var activeCount: nat
    var invalidTransition: bool
    var outputBlocked: bool
    var cleanupComplete: bool
    var panicHold: bool
    var recoveryRequested: bool
    var holdCallsRemaining: nat
    /** Every push since the last deactivation, which forgets what sounds. */
    var log: seq<Push>
    /** How the host answers the pushes from an index of the log on. */
    var sink: nat -> bool
    ghost var since: nat
    /** Whether any note was given a channel under single routing. */
    ghost var shared: bool

    ghost predicate Valid()
      reads this
    {
      && Queued(queue) && |queue| <= capacity
      && |voices| == MAX_VOICES && ProperVoices(voices) && (cleanupComplete ==> NonePending(voices))
      && Consistent(voices, log, activeCount, shared) && AnsweredBy(log, since, sink)
    }

    constructor ()
      ensures Valid() && log == [] && !shared && !outputBlocked && !panicHold
    {
      hasStorage, queue, capacity, maxFrames := false, [], 0, 0;
      voices, activeCount := AllFree(), 0;
      invalidTransition, outputBlocked, cleanupComplete := false, false, false;
      panicHold, recoveryRequested, holdCallsRemaining := false, false, 0;
      log, sink, since, shared := [], n => false, 0, false;
      new;
      SilenceIsConsistent(voices);
    }

    /** The host that answers from now on. */
    method Connect(sink: nat -> bool)
      requires Valid()
      modifies this`sink, this`since
      ensures Valid() && this.sink == sink && since == |log|
    {
      hide Consistent, AnsweredBy, ProperVoices, Queued, NonePending;
      AnsweredByNobody(log, sink);
      this.sink, since := sink, |log|;
    }

    method Deactivate()
      modifies this
      ensures Valid() && log == [] && !shared && queue == [] && !outputBlocked && !panicHold && !hasStorage
    {
      hide Consistent, AnsweredBy, ProperVoices, Queued, NonePending, AllFree;
      hasStorage, queue, capacity, maxFrames := false, [], 0, 0;
      voices, activeCount := AllFree(), 0;
      invalidTransition, outputBlocked, cleanupComplete := false, false, false;
      panicHold, recoveryRequested, holdCallsRemaining := false, false, 0;
      log, sink, since, shared := [], n => false, 0, false;
      AnsweredByNobody(log, sink);
      SilenceIsConsistent(voices);
    }

    /** `granted` is whether the memory could be had. */
    method Activate(frames: nat, granted: bool) returns (ok: bool)
      modifies this
      ensures Valid() && log == [] && !outputBlocked && !panicHold
      ensures ok == hasStorage == (0 < frames <= MAX_FRAMES && granted)
      ensures ok ==>
        maxFrames == frames
        && capacity == (frames + DECISION_QUANTUM - 1) / DECISION_QUANTUM * MAX_TICK_TRANSITIONS + MAX_VOICES
    {
      hide Consistent, AnsweredBy, ProperVoices, Queued, NonePending;
      Deactivate();
      ok := 0 < frames <= MAX_FRAMES && granted;
      if ok {
        hasStorage, maxFrames := true, frames;
        capacity := (frames + DECISION_QUANTUM - 1) / DECISION_QUANTUM * MAX_TICK_TRANSITIONS + MAX_VOICES;
      }
    }

    method BeginBlock()
      requires Valid()
      modifies this`queue, this`invalidTransition
      ensures Valid() && queue == [] && !invalidTransition
    {
      hide Consistent, AnsweredBy, ProperVoices, NonePending;
      queue, invalidTransition := [], false;
    }

    /** `queue_transition`: refuses what it cannot hold, and inserts the rest. */
    method QueueTransition(t: VoiceTransition, frames: nat) returns (ok: bool)
      requires Valid()
      modifies this`queue, this`invalidTransition
      ensures Valid()
      ensures ok == (hasStorage && |old(queue)| < capacity && 0 < frames <= maxFrames && t.offset < frames && WellFormed(t))
      ensures queue == if ok then Inserted(old(queue), t) else old(queue)
      ensures invalidTransition == (old(invalidTransition) || !ok)
    {
      ok := hasStorage && |queue| < capacity && 0 < frames <= maxFrames && t.offset < frames && WellFormed(t);
      if !ok {
        invalidTransition := true;
        return;
      }
      InsertedIsQueued(queue, t);
      hide Consistent, AnsweredBy, Queued, ProperVoices, NonePending, WellFormed;
      queue := ShiftIn(queue, t);
    }

    /** `queue_active_releases`: a note-off for every sounding voice, as far as the queue takes them. */
    method QueueActiveReleases(offset: nat, frames: nat) returns (complete: bool)
      requires Valid()
      modifies this`queue, this`invalidTransition
      ensures Valid()
      ensures var usable := hasStorage && 0 < frames <= maxFrames && offset < frames;
        var room := if usable then capacity - |old(queue)| else 0;
        && complete == (Active(voices, MAX_VOICES) <= room)
        && queue == WithReleases(old(queue), voices, MAX_VOICES, offset, room)
        && invalidTransition == (old(invalidTransition) || !complete)
    {
      hide Consistent, AnsweredBy, Queued, ProperVoices, NonePending;
      complete := true;
      var slot, sequence := 0, 0;
      ghost var usable := hasStorage && 0 < frames <= maxFrames && offset < frames;
      ghost var room := if usable then capacity - |queue| else 0;
      ghost var was := queue;
      while slot < MAX_VOICES
        invariant 0 <= slot <= MAX_VOICES && Valid() && sequence == Active(voices, slot)
        invariant queue == WithReleases(was, voices, slot, offset, room)
        invariant complete == (Active(voices, slot) <= room)
        invariant |queue| == |was| + if complete then Active(voices, slot) else room
        invariant invalidTransition == (old(invalidTransition) || !complete)
      {
        if voices[slot].active {
          VoiceReleases(voices, slot, offset, sequence);
          var queued := QueueTransition(ReleaseOf(voices[slot], offset, sequence), frames);
          complete := queued && complete;
          sequence := sequence + 1;
        }
        slot := slot + 1;
      }
    }

    method RequestReleaseAll()
      requires Valid()
      modifies this`voices, this`cleanupComplete
      ensures Valid()
      ensures forall i :: 0 <= i < MAX_VOICES ==>
        voices[i] == old(voices)[i].(pendingRelease := old(voices)[i].active)
      ensures cleanupComplete ==> old(cleanupComplete)
    {
      hide Consistent;
      var any, slot := false, 0;
      ghost var before := voices;
      while slot < MAX_VOICES
        invariant 0 <= slot <= MAX_VOICES == |voices|
        invariant forall i :: 0 <= i < slot ==> voices[i] == before[i].(pendingRelease := before[i].active)
        invariant forall i :: slot <= i < MAX_VOICES ==> voices[i] == before[i]
        invariant cleanupComplete == old(cleanupComplete)
        invariant any <==> exists i :: 0 <= i < slot && before[i].active
      {
        if voices[slot].active {
          voices := voices[slot := voices[slot].(pendingRelease := true)];
          any := true;
        }
        slot := slot + 1;
      }
      if any {
        cleanupComplete := false;
      }
      FirmVoicesKeep(before, voices, log, activeCount, shared);
    }

    method EnterBlocked()
      requires Valid()
      modifies this`outputBlocked, this`voices, this`cleanupComplete
      ensures Valid() && outputBlocked && !cleanupComplete
      ensures forall i :: 0 <= i < MAX_VOICES ==>
        voices[i] == old(voices)[i].(pendingRelease := old(voices)[i].active)
    {
      hide Consistent, AnsweredBy, ProperVoices, Queued, NonePending;
      outputBlocked := true;
      cleanupComplete := false;
      RequestReleaseAll();
    }

    method RequestRecovery()
      requires Valid()
      modifies this`panicHold, this`recoveryRequested, this`holdCallsRemaining
      ensures Valid() && panicHold && recoveryRequested && holdCallsRemaining == 1
    {
      hide Consistent, AnsweredBy, ProperVoices, Queued, NonePending;
      panicHold, recoveryRequested, holdCallsRemaining := true, true, 1;
    }

    method FindVoice(t: VoiceTransition) returns (slot: nat)
      requires Valid()
      ensures slot == MatchingSlot(voices, t)
    {
      hide Consistent, AnsweredBy, Queued, NonePending;
      slot := 0;
      while slot < MAX_VOICES && !Matches(voices[slot], t)
        invariant slot <= MAX_VOICES && forall i :: 0 <= i < slot ==> !Matches(voices[i], t)
      {
        slot := slot + 1;
      }
    }

    method FindFreeVoice() returns (slot: nat)
      requires Valid()
      ensures slot == FreeSlot(voices)
    {
      hide Consistent, AnsweredBy, Queued, NonePending;
      slot := 0;
      while slot < MAX_VOICES && InUse(voices[slot])
        invariant slot <= MAX_VOICES && forall i :: 0 <= i < slot ==> InUse(voices[i])
      {
        slot := slot + 1;
      }
    }

    /** A channel for a new note, or 0: the start channel, or one of the route that no voice uses. */
    method AllocateChannel(routing: Routing, start: nat, t: VoiceTransition) returns (channel: nat)
      requires Valid()
      ensures channel == ChannelFor(voices, routing, start, t)
      ensures channel == 0 && 1 <= start <= 16 && routing == PerVoice && t.voiceId >= MAX_VOICES ==>
        forall slot :: 0 <= slot < MAX_VOICES ==> Channelled(voices, Channel(start, slot))
    {
      if start < 1 || start > 16 || routing == Unknown {
        return 0;
      }
      if routing == Single {
        return start;
      }
      if t.voiceId < MAX_VOICES {
        channel := Channel(start, t.voiceId);
        if Channelled(voices, channel) {
          channel := 0;
        }
        return;
      }
      var slot := 0;
      while slot < MAX_VOICES
        invariant slot <= MAX_VOICES
        invariant forall s :: 0 <= s < slot ==> Channelled(voices, Channel(start, s))
      {
        channel := Channel(start, slot);
        if !Channelled(voices, channel) {
          return;
        }
        slot := slot + 1;
      }
      channel := 0;
    }

    /** Sends the note-off of a voice: accepted, it frees the voice. */
    method ReleaseVoice(slot: nat, offset: nat) returns (ok: bool)
      requires Valid() && slot < MAX_VOICES && voices[slot].active
      modifies this`voices, this`activeCount, this`log
      ensures Valid()
      ensures log == old(log) + [Push(M.Transition(offset, false, old(voices)[slot].note, 0, old(voices)[slot].channel), ok)]
      ensures voices == if ok then old(voices)[slot := FREE] else old(voices)
    {
      hide Consistent, AnsweredBy, NonePending, Queued;
      var v := voices[slot];
      ok := sink(|log|);
      AnsweredByNext(log, since, sink, Push(M.Transition(offset, false, v.note, 0, v.channel), ok));
      var t := M.Transition(offset, false, v.note, 0, v.channel);
      ReleaseKeeps(voices, log, activeCount, shared, slot, Push(t, ok));
      FreeVoiceKeeps(voices, slot);
      log := log + [Push(t, ok)];
      if ok {
        voices, activeCount := voices[slot := FREE], activeCount - 1;
      }
    }

    /** Sends a note-on: accepted, it takes the free voice. */
    method StartNote(slot: nat, t: VoiceTransition, channel: nat, routing: Routing) returns (ok: bool)
      requires Valid() && slot < MAX_VOICES && !InUse(voices[slot]) && WellFormed(t) && 1 <= channel <= 16
      requires forall i :: 0 <= i < MAX_VOICES ==> !Claims(voices[i], t)
      requires routing == PerVoice ==> !Channelled(voices, channel)
      modifies this`voices, this`activeCount, this`log, this`shared
      ensures Valid()
      ensures log == old(log) + [Push(M.Transition(t.offset, true, t.note, t.velocity, channel), ok)]
      ensures NonePending(old(voices)) ==> NonePending(voices)
      ensures ok ==> voices == old(voices)[slot := Voice(true, false, t.note, channel, t.voiceId)]
      ensures shared == (old(shared) || routing != PerVoice)
    {
      hide Consistent, AnsweredBy, Queued, ProperVoices, NonePending;
      ok := sink(|log|);
      AnsweredByNext(log, since, sink, Push(M.Transition(t.offset, true, t.note, t.velocity, channel), ok));
      var note := M.Transition(t.offset, true, t.note, t.velocity, channel);
      var v := Voice(true, false, t.note, channel, t.voiceId);
      ghost var mixed := shared || routing != PerVoice;
      StartKeepsFor(voices, log, activeCount, shared, mixed, slot, t, v, Push(note, ok));
      log, shared := log + [Push(note, ok)], mixed;
      if ok {
        voices, activeCount := voices[slot := v], activeCount + 1;
      }
    }

    /** The due releases of one note, voice by voice. */
    method RetryNote(note: nat, ghost n: nat, ghost frames: nat, ghost was: seq<Voice>) returns (ok: bool)
      requires Valid() && InCall(log, n, n, frames, 0, true) && OnlyOffs(log, n) && frames > 0
      requires ReleasedUpTo(was, voices, note, 0) && Script(log, n) == Due(was, note)
      modifies this`voices, this`activeCount, this`log, this`outputBlocked, this`cleanupComplete
      ensures Valid() && InCall(log, n, n, frames, 0, ok) && OnlyOffs(log, n) && old(log) <= log
      ensures ok ==>
        && outputBlocked == old(outputBlocked) && cleanupComplete == old(cleanupComplete)
        && ReleasedUpTo(was, voices, note + 1, 0) && Script(log, n) == Due(was, note + 1)
      ensures Script(log, n) <= Due(was, note + 1)
      ensures !ok ==> !NonePending(voices) && outputBlocked && !cleanupComplete
      ensures AllFirm(old(voices)) ==> AllFirm(voices)
    {
      hide Consistent, AnsweredBy, Queued, NonePending, InCall, Script, DueOf, Due, ProperVoices, OnlyOffs;
      NoneReleasedYet(was, note);
      var slot := 0;
      while slot < MAX_VOICES
        invariant AllFirm(old(voices)) ==> AllFirm(voices)
        invariant slot <= MAX_VOICES && Valid() && InCall(log, n, n, frames, 0, true)
        invariant OnlyOffs(log, n) && old(log) <= log
        invariant outputBlocked == old(outputBlocked) && cleanupComplete == old(cleanupComplete)
        invariant ReleasedUpTo(was, voices, note, slot) && Script(log, n) == Due(was, note) + DueOf(was, note, slot)
      {
        if voices[slot].pendingRelease && voices[slot].note == note {
          ghost var before, earlier := log, voices;
          PendingVoiceSounds(voices, slot);
          ok := ReleaseInOrder(slot, 0, n, n, frames, 0);
          OffsStay(before, log, n);
          ReleaseIsDue(was, earlier, note, slot, before, n, ok);
          if !ok {
            return;
          }
        } else {
          NextReleased(was, voices, note, slot);
        }
        slot := slot + 1;
      }
      NoteReleased(was, voices, note);
      ok := true;
    }

    /** Releases one voice in order behind the earlier pushes; a rejection blocks the output. */
    method ReleaseInOrder(
      slot: nat, offset: nat, ghost n: nat, ghost start: nat, ghost frames: nat, ghost bound: int) returns (ok: bool)
      requires Valid() && InCall(log, n, start, frames, bound, true) && offset < frames && bound <= 3 * offset
      requires slot < MAX_VOICES && voices[slot].active
      modifies this`voices, this`activeCount, this`log, this`outputBlocked, this`cleanupComplete
      ensures Valid() && InCall(log, n, start, frames, 3 * offset, ok)
      ensures log == old(log) + [Push(M.Transition(offset, false, old(voices)[slot].note, 0, old(voices)[slot].channel), ok)]
      ensures ok ==> voices == old(voices)[slot := FREE]
      ensures ok ==> outputBlocked == old(outputBlocked) && cleanupComplete == old(cleanupComplete)
      ensures !ok ==> !NonePending(voices) && outputBlocked && !cleanupComplete
      ensures AllFirm(old(voices)) ==> AllFirm(voices)
    {
      hide Consistent, AnsweredBy, Queued, ProperVoices, InCall, NonePending;
      VoiceHasChannel(voices, slot);
      ghost var t := M.Transition(offset, false, voices[slot].note, 0, voices[slot].channel);
      ghost var before := log;
      ok := ReleaseVoice(slot, offset);
      InCallNext(before, n, start, frames, bound, Push(t, ok), 3 * offset);
      if !ok {
        EnterBlocked();
        SomePending(voices, slot);
      }
    }

    /** Sends the releases that are due, by note and then by voice, until one is rejected. */
    method RetryPendingReleases(ghost frames: nat) returns (ok: bool)
      requires Valid() && frames > 0
      modifies this`voices, this`activeCount, this`log, this`outputBlocked, this`cleanupComplete
      ensures Valid() && old(log) <= log && OnlyOffs(log, |old(log)|)
      ensures InCall(log, |old(log)|, |old(log)|, frames, 0, ok)
      ensures ok ==> NonePending(voices) && outputBlocked == old(outputBlocked) && cleanupComplete
      ensures Follows(Due(old(voices), 128), log, |old(log)|) && ok == AllAccepted(log, |old(log)|)
      ensures ok ==> voices == Settled(old(voices))
      ensures !ok ==> !NonePending(voices) && outputBlocked && !cleanupComplete
      ensures AllFirm(old(voices)) ==> AllFirm(voices)
    {
      hide Consistent, AnsweredBy, ProperVoices, Queued, InCall, NonePending, Script, Due, Follows, OnlyOffs, AllAccepted;
      ghost var n, was := |log|, voices;
      CallStarts(voices, log, frames);
      if NonePending(voices) {
        NothingIsDue(voices, 128);
        NothingPlanned(voices, log, frames, false, Single, 1);
        cleanupComplete := true;
        return true;
      }

      var note := 0;
      while note < 128
        invariant note <= 128 && Valid() && InCall(log, n, n, frames, 0, true)
        invariant AllFirm(old(voices)) ==> AllFirm(voices)
        invariant OnlyOffs(log, n) && old(log) <= log && outputBlocked == old(outputBlocked)
        invariant ReleasedUpTo(was, voices, note, 0) && Script(log, n) == Due(was, note)
      {
        ok := RetryNote(note, n, frames, was);
        if !ok {
          DueGrows(was, note + 1, 128);
          CallFollows(Due(was, 128), log, n, frames, false);
          return;
        }
        note := note + 1;
      }
      AllReleased(was, voices);
      CallFollows(Due(was, 128), log, n, frames, true);
      cleanupComplete := true;
      ok := true;
    }

    /** Leaves the hold after at least one more call, once recovery is asked for and the input is quiet. */
    method FinishHold(quiet: bool, finiteInput: bool, supportedLayout: bool)
      requires Valid()
      modifies this`panicHold, this`recoveryRequested, this`outputBlocked, this`cleanupComplete, this`holdCallsRemaining
      ensures Valid()
      ensures var done := old(panicHold) && old(holdCallsRemaining) == 0 && old(recoveryRequested)
                && old(cleanupComplete) && finiteInput && supportedLayout && quiet;
        && panicHold == (old(panicHold) && !done) && outputBlocked == (old(outputBlocked) && !done)
        && recoveryRequested == (old(recoveryRequested) && !done)
        && cleanupComplete == (old(cleanupComplete) && !done)
      ensures holdCallsRemaining == CallsLeft(old(holdCallsRemaining), old(panicHold))
    {
      hide Consistent, AnsweredBy, Queued, ProperVoices, NonePending;
      if !panicHold {
        return;
      }
      if holdCallsRemaining > 0 {
        holdCallsRemaining := holdCallsRemaining - 1;
        return;
      }
      if recoveryRequested && cleanupComplete && finiteInput && supportedLayout && quiet {
        panicHold, recoveryRequested, outputBlocked, cleanupComplete := false, false, false, false;
      }
    }

    /** A queued note-off: it goes to the voice it names, on that voice's own channel. */
    method DeliverOff(
      t: VoiceTransition, ghost routing: Routing, ghost startChannel: nat,
      ghost n: nat, ghost start: nat, ghost frames: nat, ghost bound: int) returns (ok: bool)
      requires Valid() && NonePending(voices) && !outputBlocked && t.kind == NoteOff && t.offset < frames
      requires InCall(log, n, start, frames, bound, true) && bound <= QueueRank(t)
      modifies this`voices, this`activeCount, this`log, this`outputBlocked, this`cleanupComplete
      ensures Valid() && old(log) <= log && OnlyOffs(log, |old(log)|)
      ensures ok ==> NonePending(voices) && !outputBlocked && InCall(log, n, start, frames, QueueRank(t), true)
      ensures !ok ==> outputBlocked && !cleanupComplete
      ensures ok ==> cleanupComplete == old(cleanupComplete)
      ensures Performed(StepFor(old(voices), t, panicHold, routing, startChannel), old(voices), old(log), voices, log, ok)
      ensures InCall(log, n, start, frames, QueueRank(t), true) || (!ok && InCall(log, n, start, frames, QueueRank(t), false))
      ensures NoneActive(old(voices)) ==> NoneActive(voices)
    {
      hide Consistent, AnsweredBy, Queued, ProperVoices, InCall, NonePending, StepFor, MatchingSlot, Matches;
      StepForOff(voices, t, panicHold, routing, startChannel);
      var slot := FindVoice(t);
      if slot >= MAX_VOICES {
        InCallGrows(log, n, start, frames, bound, QueueRank(t));
        EnterBlocked();
        return false;
      }
      MatchedVoiceSounds(voices, t);
      ok := ReleaseInOrder(slot, t.offset, n, start, frames, bound);
    }

    /** Whether a note of the transition's identity sounds. */
    method IdentityInUse(t: VoiceTransition) returns (used: bool)
      requires Valid() && NonePending(voices)
      ensures used <==> exists i :: 0 <= i < MAX_VOICES && Claims(voices[i], t)
    {
      hide Consistent, AnsweredBy, Queued;
      var slot := FindVoice(t);
      used := slot < MAX_VOICES;
      if t.voiceId < MAX_VOICES {
        for i := 0 to MAX_VOICES
          invariant used <==> slot < MAX_VOICES || exists j :: 0 <= j < i && Claims(voices[j], t)
        {
          assert slot >= MAX_VOICES ==> !Matches(voices[i], t);
          used := used || (InUse(voices[i]) && voices[i].voiceId == t.voiceId);
        }
      }
    }

    /** A queued note-on: refused while its identity sounds, without a free voice, or without a channel. */
    method DeliverOn(
      t: VoiceTransition, routing: Routing, startChannel: nat,
      ghost n: nat, ghost start: nat, ghost frames: nat, ghost bound: int) returns (ok: bool)
      requires Valid() && NonePending(voices) && !outputBlocked
      requires WellFormed(t) && t.kind == NoteOn && t.offset < frames && !panicHold
      requires InCall(log, n, start, frames, bound, true) && bound <= QueueRank(t)
      modifies this`voices, this`activeCount, this`log, this`outputBlocked, this`cleanupComplete, this`shared
      ensures Valid() && old(log) <= log && (routing == PerVoice ==> shared == old(shared))
      ensures ok ==> NonePending(voices) && !outputBlocked && InCall(log, n, start, frames, QueueRank(t), true)
      ensures !ok ==> outputBlocked && !cleanupComplete
      ensures ok ==> cleanupComplete == old(cleanupComplete)
      ensures Performed(StepFor(old(voices), t, panicHold, routing, startChannel), old(voices), old(log), voices, log, ok)
      ensures InCall(log, n, start, frames, QueueRank(t), true) || (!ok && InCall(log, n, start, frames, QueueRank(t), false))
    {
      hide Consistent, AnsweredBy, Queued, ProperVoices, InCall, NonePending;
      var used := IdentityInUse(t);
      var channel := AllocateChannel(routing, startChannel, t);
      var slot := FindFreeVoice();
      ghost var before := log;
      InCallGrows(log, n, start, frames, bound, QueueRank(t));
      CountIsBelowSlots(voices, log, activeCount, shared);
      if used || activeCount >= MAX_VOICES || channel == 0 || slot >= MAX_VOICES {
        EnterBlocked();
        return false;
      }
      ghost var push := M.Transition(t.offset, true, t.note, t.velocity, channel);
      ok := StartNote(slot, t, channel, routing);
      InCallNext(before, n, start, frames, bound, Push(push, ok), QueueRank(t));
      if !ok {
        EnterBlocked();
      }
    }

    /** One queued transition of the block; a note-on waits out the hold. */
    method DeliverOne(
      t: VoiceTransition, routing: Routing, startChannel: nat,
      ghost n: nat, ghost start: nat, ghost frames: nat, ghost bound: int) returns (ok: bool)
      requires Valid() && NonePending(voices) && !outputBlocked
      requires WellFormed(t) && t.offset < frames
      requires InCall(log, n, start, frames, bound, true) && bound <= QueueRank(t)
      modifies this`voices, this`activeCount, this`log, this`outputBlocked, this`cleanupComplete, this`shared
      ensures Valid() && old(log) <= log && (routing == PerVoice ==> shared == old(shared))
      ensures ok ==> NonePending(voices) && !outputBlocked && InCall(log, n, start, frames, QueueRank(t), true)
      ensures !ok ==> outputBlocked && !cleanupComplete
      ensures ok ==> cleanupComplete == old(cleanupComplete)
      ensures Performed(StepFor(old(voices), t, panicHold, routing, startChannel), old(voices), old(log), voices, log, ok)
      ensures InCall(log, n, start, frames, QueueRank(t), true) || (!ok && InCall(log, n, start, frames, QueueRank(t), false))
      ensures panicHold ==> OnlyOffs(log, |old(log)|)
      ensures panicHold && NoneActive(old(voices)) ==> NoneActive(voices)
    {
      hide Consistent, AnsweredBy, Queued, ProperVoices, InCall, NonePending;
      if t.kind == NoteOff {
        ok := DeliverOff(t, routing, startChannel, n, start, frames, bound);
      } else if panicHold {
        InCallGrows(log, n, start, frames, bound, QueueRank(t));
        ok := true;
      } else {
        ok := DeliverOn(t, routing, startChannel, n, start, frames, bound);
      }
    }

    /** The queue of the block, in order, until something blocks the output. */
    method DeliverQueue(
      routing: Routing, startChannel: nat, frames: nat, ghost n: nat, ghost start: nat)
      requires Valid() && NonePending(voices) && !outputBlocked
      requires InCall(log, n, start, frames, 0, true)
      modifies this`voices, this`activeCount, this`log, this`outputBlocked, this`cleanupComplete, this`shared
      ensures Valid() && old(log) <= log && (routing == PerVoice ==> shared == old(shared))
      ensures exists bound, all :: InCall(log, n, start, frames, bound, all) && (!all ==> outputBlocked)
      ensures outputBlocked ==> !cleanupComplete
      ensures !outputBlocked ==> cleanupComplete == old(cleanupComplete)
      ensures var plan := Planned(old(voices), queue, frames, panicHold, routing, startChannel);
        && Follows(plan.sends, log, |old(log)|)
        && outputBlocked == !(plan.complete && AllAccepted(log, |old(log)|))
        && (!outputBlocked ==> voices == plan.voices)
      ensures !outputBlocked ==> NonePending(voices)
      ensures panicHold ==> OnlyOffs(log, |old(log)|)
      ensures panicHold && NoneActive(old(voices)) ==> NoneActive(voices)
    {
      hide Consistent, AnsweredBy, ProperVoices, InCall, NonePending, QueueRank, Planned, Extended, StepFor, Performed;
      hide Follows, AllAccepted;
      ghost var was, earlier := voices, log;
      ghost var plan := Planned(was, queue[..0], frames, panicHold, routing, startChannel);
      NothingPlanned(was, log, frames, panicHold, routing, startChannel);
      assert InCall(log, n, start, frames, 0, true) && (true ==> true);
      ghost var bound, all := 0, true;
      RanksAreNatural(queue);
      var index := 0;
      while index < |queue| && !outputBlocked
        invariant index <= |queue| && Valid() && old(log) <= log
        invariant routing == PerVoice ==> shared == old(shared)
        invariant InCall(log, n, start, frames, bound, all) && (!all ==> outputBlocked)
        invariant outputBlocked ==> !cleanupComplete
        invariant !outputBlocked ==> cleanupComplete == old(cleanupComplete)
        invariant plan == Planned(was, queue[..index], frames, panicHold, routing, startChannel)
        invariant Follows(plan.sends, log, |earlier|)
        invariant outputBlocked == !(plan.complete && AllAccepted(log, |earlier|))
        invariant !outputBlocked ==> voices == plan.voices
        invariant !outputBlocked ==> NonePending(voices)
        invariant forall j :: index <= j < |queue| ==> bound <= QueueRank(queue[j])
        invariant panicHold ==> OnlyOffs(log, |old(log)|)
        invariant panicHold && NoneActive(old(voices)) ==> NoneActive(voices)
      {
        var t := queue[index];
        PlannedNext(was, queue, index, frames, panicHold, routing, startChannel);
        if t.offset < frames {
          ghost var before := log;
          var ok := DeliverOne(t, routing, startChannel, n, start, frames, bound);
          FollowsNext(plan, t, frames, panicHold, routing, startChannel, |earlier|, before, voices, log, ok);
          all := InCall(log, n, start, frames, QueueRank(t), true);
          bound := QueueRank(t);
          OffsJoin(before, log, |old(log)|);
        }
        forall j | index + 1 <= j < |queue|
          ensures bound <= QueueRank(queue[j])
        {
          QueueIsRanked(queue, index, j);
        }
        index := index + 1;
        plan := Extended(plan, t, frames, panicHold, routing, startChannel);
      }
      PlanIsFollowed(was, queue, index, frames, panicHold, routing, startChannel, log, |earlier|);
    }

    /** `deliver`: the due releases, then the queue, then the hold. */
    method Deliver(
      frames: nat, quiet: bool, finiteInput: bool, supportedLayout: bool, routing: Routing, startChannel: nat)
      returns (r: DeliveryResult)
      requires Valid()
      modifies this`voices, this`activeCount, this`log, this`shared, this`outputBlocked, this`cleanupComplete,
        this`invalidTransition, this`panicHold, this`recoveryRequested, this`holdCallsRemaining
      ensures Valid() && old(log) <= log && (routing == PerVoice ==> shared == old(shared))
      ensures M.Ordered(Script(log, |old(log)|), Block(frames), true)
      ensures forall k :: |old(log)| <= k < |log| - 1 ==> log[k].accepted
      ensures old(panicHold) || old(outputBlocked) ==> OnlyOffs(log, |old(log)|)
      ensures var usable := hasStorage && 0 < frames <= maxFrames;
        var plan := Course(Settled(old(voices)), queue, usable && !old(outputBlocked), frames, old(panicHold),
                           routing, startChannel);
        var fine := plan.complete && AllAccepted(log, |old(log)|);
        var done := usable && fine && old(panicHold && holdCallsRemaining == 0 && recoveryRequested)
          && quiet && finiteInput && supportedLayout;
        && Follows(Due(old(voices), 128) + plan.sends, log, |old(log)|) && (fine ==> voices == plan.voices)
        && outputBlocked == ((old(outputBlocked) || !fine) && !done)
        && panicHold == (old(panicHold) && !done) && recoveryRequested == (old(recoveryRequested) && !done)
        && holdCallsRemaining == CallsLeft(old(holdCallsRemaining), usable && old(panicHold))
        && r == DeliveryResult(outputBlocked, panicHold, usable && !invalidTransition && !outputBlocked && !panicHold)
      ensures invalidTransition == (old(invalidTransition) || !(hasStorage && 0 < frames <= maxFrames)
                                    || BadBlock(queue, routing, startChannel, frames))
      ensures old(panicHold) && AllFirm(old(voices)) && AllAccepted(log, |old(log)|) ==> NoneActive(voices)
    {
      hide Consistent, AnsweredBy, ProperVoices, InCall, NonePending, Queued, OnlyOffs, AllFirm, NoneActive, Script, BadBlock;
      hide Follows, Due, AllAccepted, Settled, Planned, Block, CallsLeft, Course;
      ghost var n, was, first := |log|, voices, log;
      var released := RetryPendingReleases(Block(frames));
      SettledOrRejected(voices, log, n, Block(frames), released);
      ghost var between := log;
      ghost var plan := Course(Settled(was), queue, hasStorage && 0 < frames <= maxFrames && !old(outputBlocked),
                               frames, panicHold, routing, startChannel);
      r := DeliverQueued(frames, quiet, finiteInput, supportedLayout, routing, startChannel, n, released);
      FollowsBoth(Due(was, 128), plan.sends, first, between, log, released);
    }

    /** `deliver_queued`, behind the releases that started at index n of the log. */
    method DeliverQueued(
      frames: nat, quiet: bool, finiteInput: bool, supportedLayout: bool, routing: Routing, startChannel: nat,
      ghost n: nat, ghost released: bool) returns (r: DeliveryResult)
      requires Valid() && n <= |log| && InCall(log, n, n, Block(frames), 0, released) && OnlyOffs(log, n)
      requires released == NonePending(voices) == cleanupComplete && (released || outputBlocked)
      modifies this`voices, this`activeCount, this`log, this`shared, this`outputBlocked, this`cleanupComplete,
        this`invalidTransition, this`panicHold, this`recoveryRequested, this`holdCallsRemaining
      ensures Valid() && old(log) <= log && (routing == PerVoice ==> shared == old(shared))
      ensures M.Ordered(Script(log, n), Block(frames), true)
      ensures forall k :: n <= k < |log| - 1 ==> log[k].accepted
      ensures old(panicHold) || old(outputBlocked) ==> OnlyOffs(log, n)
      ensures var usable := hasStorage && 0 < frames <= maxFrames;
        var plan := Course(old(voices), queue, released && usable && !old(outputBlocked), frames, old(panicHold),
                           routing, startChannel);
        var fine := released && plan.complete && AllAccepted(log, |old(log)|);
        var done := usable && fine && old(panicHold && holdCallsRemaining == 0 && recoveryRequested)
          && quiet && finiteInput && supportedLayout;
        && Follows(if released then plan.sends else [], log, |old(log)|) && (fine ==> voices == plan.voices)
        && outputBlocked == ((old(outputBlocked) || !fine) && !done)
        && panicHold == (old(panicHold) && !done) && recoveryRequested == (old(recoveryRequested) && !done)
        && holdCallsRemaining == CallsLeft(old(holdCallsRemaining), usable && old(panicHold))
        && r == DeliveryResult(outputBlocked, panicHold, usable && !invalidTransition && !outputBlocked && !panicHold)
      ensures invalidTransition == (old(invalidTransition) || !(hasStorage && 0 < frames <= maxFrames)
                                    || BadBlock(queue, routing, startChannel, frames))
      ensures old(panicHold) && NoneActive(old(voices)) ==> NoneActive(voices)
    {
      hide Consistent, AnsweredBy, ProperVoices, InCall, NonePending, Queued, OnlyOffs, NoneActive, Script, Follows, Planned;
      hide AllAccepted, BadBlock;
      NothingPlanned(voices, log, frames, panicHold, routing, startChannel);
      if !hasStorage || frames == 0 || frames > maxFrames {
        invalidTransition := true;
        CallIsOrdered(log, n, Block(frames), 0, released);
        return DeliveryResult(outputBlocked, panicHold, false);
      }
      DeliverBlock(routing, startChannel, frames, n, released);
      FinishHold(quiet, finiteInput, supportedLayout);
      r := DeliveryResult(outputBlocked, panicHold, !invalidTransition && !outputBlocked && !panicHold);
    }

    /** The queue of a usable block, unless releases are due or the output is blocked. */
    method DeliverBlock(
      routing: Routing, startChannel: nat, frames: nat, ghost n: nat, ghost released: bool)
      requires Valid() && n <= |log| && InCall(log, n, n, frames, 0, released) && OnlyOffs(log, n) && frames > 0
      requires released == NonePending(voices) == cleanupComplete && (released || outputBlocked)
      modifies this`voices, this`activeCount, this`log, this`shared, this`outputBlocked, this`cleanupComplete,
        this`invalidTransition
      ensures Valid() && old(log) <= log && (routing == PerVoice ==> shared == old(shared))
      ensures M.Ordered(Script(log, n), frames, true)
      ensures forall k :: n <= k < |log| - 1 ==> log[k].accepted
      ensures panicHold || old(outputBlocked) ==> OnlyOffs(log, n)
      ensures var plan := Course(old(voices), queue, !old(outputBlocked), frames, panicHold, routing, startChannel);
        var fine := plan.complete && AllAccepted(log, |old(log)|);
        && Follows(plan.sends, log, |old(log)|) && (fine ==> voices == plan.voices)
        && outputBlocked == (old(outputBlocked) || !fine) && cleanupComplete == (released && fine)
      ensures invalidTransition == (old(invalidTransition) || BadBlock(queue, routing, startChannel, frames))
      ensures panicHold && NoneActive(old(voices)) ==> NoneActive(voices)
    {
      hide Consistent, AnsweredBy, ProperVoices, InCall, NonePending, Queued, OnlyOffs, NoneActive, Script, Follows, Planned;
      hide AllAccepted, BadBlock;
      NothingPlanned(voices, log, frames, panicHold, routing, startChannel);
      ghost var bound, all := 0, released;
      NoteInvalid(routing, startChannel, frames);
      if NonePending(voices) && !outputBlocked {
        ghost var before := log;
        DeliverQueue(routing, startChannel, frames, n, n);
        bound, all :| InCall(log, n, n, frames, bound, all) && (!all ==> outputBlocked);
        OffsJoin(before, log, n);
      }
      CallIsOrdered(log, n, frames, bound, all);
    }

    /** Notes a bad route and transitions beyond the block. */
    method NoteInvalid(routing: Routing, startChannel: nat, frames: nat)
      requires Valid()
      modifies this`invalidTransition
      ensures Valid()
      ensures invalidTransition == (old(invalidTransition) || BadBlock(queue, routing, startChannel, frames))
    {
      hide Consistent, AnsweredBy, ProperVoices, NonePending, Queued;
      if startChannel < 1 || startChannel > 16 || routing == Unknown {
        invalidTransition := true;
      }
      if exists i :: 0 <= i < |queue| && queue[i].offset >= frames {
        invalidTransition := true;
      }
    }

    /** A reset: every sounding voice is due for release, and nothing starts before recovery. */
    method RequestReset()
      requires Valid()
      modifies this`voices, this`cleanupComplete, this`panicHold, this`recoveryRequested, this`holdCallsRemaining
      ensures Valid() && panicHold && AllFirm(voices)
    {
      hide Consistent, AnsweredBy, ProperVoices, NonePending, Queued;
      RequestReleaseAll();
      RequestRecovery();
    }

    /** A reset and one delivery without a rejection leave no note sounding at the host. */
    method ResetAndDeliver(
      frames: nat, quiet: bool, finiteInput: bool, supportedLayout: bool, routing: Routing, startChannel: nat)
      requires Valid()
      modifies this`voices, this`activeCount, this`log, this`shared, this`outputBlocked, this`cleanupComplete,
        this`invalidTransition, this`panicHold, this`recoveryRequested, this`holdCallsRemaining
      ensures Valid() && old(log) <= log
      ensures AllAccepted(log, |old(log)|) ==> Held(log) == multiset{}
    {
      RequestReset();
      var _ := Deliver(frames, quiet, finiteInput, supportedLayout, routing, startChannel);
      if AllAccepted(log, |old(log)|) {
        NothingSounds(voices);
      }
    }
  }
}
