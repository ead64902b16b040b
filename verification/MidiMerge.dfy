/** The merge of host MIDI input with generated notes, as one stream of offers. */
module MidiMerge {

  /** A host event, or a slot for which the host gives none. */
  datatype Input = Missing | Event(time: nat, core: bool, full: bool, payload: nat)

  datatype Transition = Transition(offset: nat, on: bool, note: nat, velocity: nat, channel: nat)

  datatype Message =
    | Host(index: nat, time: nat)
    | Note(offset: nat, on: bool, status: nat, note: nat, velocity: nat)
    | Control(status: nat, controller: nat)

  /** The message carries offset, note and channel of the transition: status 9x with its velocity, or 8x with none. */
  predicate Carries(m: Message, t: Transition) {
    && m.Note? && m.offset == t.offset && m.on == t.on && m.note == t.note && 1 <= t.channel <= 16
    && (if t.on then m.status == 143 + t.channel && m.velocity == t.velocity
        else m.status == 127 + t.channel && m.velocity == 0)
  }

  function NoteOf(t: Transition): (m: Message)
    requires 1 <= t.channel <= 16
    ensures Carries(m, t)
    ensures m.Note? && m.status / 16 == (if t.on then 9 else 8) && m.status % 16 == t.channel - 1
  {
    Note(t.offset, t.on, (if t.on then 0x90 else 0x80) + t.channel - 1, t.note, if t.on then t.velocity else 0)
  }

  // ---------------------------------------------------------------- which inputs pass

  /** The offset of the last input in order before position i, or -1. */
  function Last(inputs: seq<Input>, frames: nat, i: nat): int
    requires i <= |inputs|
  {
    if i == 0 then -1
    else
      var before, e := Last(inputs, frames, i - 1), inputs[i - 1];
      if e.Event? && e.time < frames && before <= e.time then e.time else before
  }

  predicate InTime(inputs: seq<Input>, frames: nat, i: nat)
    requires i < |inputs|
  {
    inputs[i].Event? && inputs[i].time < frames && Last(inputs, frames, i) <= inputs[i].time
  }

  predicate Passes(inputs: seq<Input>, frames: nat, i: nat)
    requires i < |inputs|
  {
    InTime(inputs, frames, i) && inputs[i].core && inputs[i].full
  }

  /** Missing, out of the block, out of order, or a truncated MIDI event. */
  predicate Bad(inputs: seq<Input>, frames: nat, i: nat)
    requires i < |inputs|
  {
    !InTime(inputs, frames, i) || (inputs[i].core && !inputs[i].full)
  }

  lemma {:induction false} LastIsLargest(inputs: seq<Input>, frames: nat, i: nat)
    requires i <= |inputs|
    ensures Last(inputs, frames, i) >= -1
    ensures forall j :: 0 <= j < i && inputs[j].Event? && inputs[j].time < frames ==>
      inputs[j].time <= Last(inputs, frames, i)
    ensures Last(inputs, frames, i) >= 0 ==>
      exists j :: 0 <= j < i && inputs[j].Event? && inputs[j].time < frames && inputs[j].time == Last(inputs, frames, i)
    decreases i
  {
    if i > 0 {
      LastIsLargest(inputs, frames, i - 1);
    }
  }

  /** Bad is what is missing, beyond the block, behind an earlier event inside it, or a truncated MIDI event; the rest of the MIDI passes. */
  lemma BadMeans(inputs: seq<Input>, frames: nat, i: nat)
    requires i < |inputs|
    ensures Bad(inputs, frames, i) <==>
      match inputs[i]
      case Missing => true
      case Event(time, core, full, _) =>
        || time >= frames || (core && !full)
        || exists j :: 0 <= j < i && inputs[j].Event? && inputs[j].time < frames && inputs[j].time > time
    ensures Passes(inputs, frames, i) <==> !Bad(inputs, frames, i) && inputs[i].Event? && inputs[i].core
  {
    LastIsLargest(inputs, frames, i);
  }

  function Passing(inputs: seq<Input>, frames: nat, i: nat): seq<Message>
    requires i < |inputs|
  {
    if Passes(inputs, frames, i) then [Host(i, inputs[i].time)] else []
  }

  /** The messages of the passing inputs from i up to k. */
  function Hosts(inputs: seq<Input>, frames: nat, i: nat, k: nat): (s: seq<Message>)
    requires i <= k <= |inputs|
  {
    if i == k then []
    else Hosts(inputs, frames, i, k - 1) + Passing(inputs, frames, k - 1)
  }

  predicate Due(time: nat, boundary: nat, inclusive: bool) {
    time < boundary || (inclusive && time == boundary)
  }

  /** The first event from i on that is not due. */
  function Stop(inputs: seq<Input>, boundary: nat, inclusive: bool, i: nat): (s: nat)
    requires i <= |inputs|
    ensures i <= s <= |inputs|
    ensures forall j :: i <= j < s && inputs[j].Event? ==> Due(inputs[j].time, boundary, inclusive)
    ensures s < |inputs| ==> inputs[s].Event? && !Due(inputs[s].time, boundary, inclusive)
    decreases |inputs| - i
  {
    if i == |inputs| || (inputs[i].Event? && !Due(inputs[i].time, boundary, inclusive)) then i
    else Stop(inputs, boundary, inclusive, i + 1)
  }

  lemma {:induction false} LastGrows(inputs: seq<Input>, frames: nat, i: nat, k: nat)
    requires i <= k <= |inputs|
    ensures -1 <= Last(inputs, frames, i) <= Last(inputs, frames, k)
    decreases k
  {
    if k > 0 {
      LastGrows(inputs, frames, if i < k then i else k - 1, k - 1);
    }
  }

  // ---------------------------------------------------------------- the stream

  predicate Accepted(answers: nat -> bool, n: nat, m: nat) {
    forall k: nat :: n <= k < m ==> answers(k)
  }

  /** The offers from input i on: before each note the due inputs, and the note only if all of them were accepted. */
  function Weave(
    inputs: seq<Input>, frames: nat, script: seq<Transition>, answers: nat -> bool, i: nat, n: nat): seq<Message>
    requires i <= |inputs| && forall k :: 0 <= k < |script| ==> 1 <= script[k].channel <= 16
    decreases |script|
  {
    if script == [] then Hosts(inputs, frames, i, |inputs|)
    else
      var s := Stop(inputs, script[0].offset, script[0].on, i);
      var hosts := Hosts(inputs, frames, i, s);
      if Accepted(answers, n, n + |hosts|) then
        hosts + [NoteOf(script[0])] + Weave(inputs, frames, script[1..], answers, s, n + |hosts| + 1)
      else
        hosts + Weave(inputs, frames, script[1..], answers, s, n + |hosts|)
  }

  function OnlyHosts(s: seq<Message>): seq<Message> {
    if s == [] then []
    else OnlyHosts(s[..|s| - 1]) + if s[|s| - 1].Host? then [s[|s| - 1]] else []
  }

  lemma {:induction false} OnlyHostsOfSum(a: seq<Message>, b: seq<Message>)
    ensures OnlyHosts(a + b) == OnlyHosts(a) + OnlyHosts(b)
    decreases |b|
  {
    if b == [] {
      assert a + b == a;
    } else {
      var init, last := b[..|b| - 1], b[|b| - 1];
      assert (a + b)[..|a + b| - 1] == a + init;
      OnlyHostsOfSum(a, init);
      var tail := if last.Host? then [last] else [];
      assert OnlyHosts(a) + OnlyHosts(init) + tail == OnlyHosts(a) + (OnlyHosts(init) + tail);
    }
  }

  lemma {:induction false} HostsAreHosts(inputs: seq<Input>, frames: nat, i: nat, k: nat)
    requires i <= k <= |inputs|
    ensures OnlyHosts(Hosts(inputs, frames, i, k)) == Hosts(inputs, frames, i, k)
    decreases k
  {
    if i < k {
      HostsAreHosts(inputs, frames, i, k - 1);
      var before, passing := Hosts(inputs, frames, i, k - 1), Passing(inputs, frames, k - 1);
      OnlyHostsOfSum(before, passing);
      assert passing != [] ==> passing[..0] == [];
      assert OnlyHosts(passing) == passing;
    }
  }

  lemma {:induction false} HostsSplit(inputs: seq<Input>, frames: nat, i: nat, s: nat, k: nat)
    requires i <= s <= k <= |inputs|
    ensures Hosts(inputs, frames, i, k) == Hosts(inputs, frames, i, s) + Hosts(inputs, frames, s, k)
    decreases k
  {
    if s < k {
      HostsSplit(inputs, frames, i, s, k - 1);
    }
  }

  /** One step of the weave: the due inputs, and then the note or nothing. */
  lemma WeaveStep(
    inputs: seq<Input>, frames: nat, script: seq<Transition>, answers: nat -> bool, i: nat, n: nat)
    returns (s: nat, note: seq<Message>, m: nat)
    requires i <= |inputs| && forall k :: 0 <= k < |script| ==> 1 <= script[k].channel <= 16
    requires script != []
    ensures s == Stop(inputs, script[0].offset, script[0].on, i)
    ensures note == [] || note == [NoteOf(script[0])]
    ensures (forall k :: answers(k)) ==> note == [NoteOf(script[0])]
    ensures Weave(inputs, frames, script, answers, i, n)
         == Hosts(inputs, frames, i, s) + note + Weave(inputs, frames, script[1..], answers, s, m)
  {
    s := Stop(inputs, script[0].offset, script[0].on, i);
    var hosts := Hosts(inputs, frames, i, s);
    var all := Accepted(answers, n, n + |hosts|);
    note := if all then [NoteOf(script[0])] else [];
    m := n + |hosts| + |note|;
    assert hosts + [] == hosts;
  }

  /** Every passing input is offered once and in order, whatever is generated and whatever the host accepts. */
  lemma {:induction false} EveryInputIsOfferedOnce(
    inputs: seq<Input>, frames: nat, script: seq<Transition>, answers: nat -> bool, i: nat, n: nat)
    requires i <= |inputs| && forall k :: 0 <= k < |script| ==> 1 <= script[k].channel <= 16
    ensures OnlyHosts(Weave(inputs, frames, script, answers, i, n)) == Hosts(inputs, frames, i, |inputs|)
    decreases |script|
  {
    if script == [] {
      HostsAreHosts(inputs, frames, i, |inputs|);
    } else {
      hide Weave;
      var s, note, m := WeaveStep(inputs, frames, script, answers, i, n);
      var hosts, rest := Hosts(inputs, frames, i, s), Weave(inputs, frames, script[1..], answers, s, m);
      EveryInputIsOfferedOnce(inputs, frames, script[1..], answers, s, m);
      HostsAreHosts(inputs, frames, i, s);
      HostsSplit(inputs, frames, i, s, |inputs|);
      OnlyHostsOfSum(hosts + note, rest);
      OnlyHostsOfSum(hosts, note);
      assert OnlyHosts(note) == [] && OnlyHosts(hosts) + [] == OnlyHosts(hosts);
    }
  }

  function OnlyNotes(s: seq<Message>): seq<Message> {
    if s == [] then [] else (if s[0].Note? then [s[0]] else []) + OnlyNotes(s[1..])
  }

  function NotesOf(script: seq<Transition>): seq<Message>
    requires forall k :: 0 <= k < |script| ==> 1 <= script[k].channel <= 16
  {
    if script == [] then [] else [NoteOf(script[0])] + NotesOf(script[1..])
  }

  lemma {:induction false} OnlyNotesOfSum(a: seq<Message>, b: seq<Message>)
    ensures OnlyNotes(a + b) == OnlyNotes(a) + OnlyNotes(b)
    decreases |a|
  {
    if a == [] {
      assert a + b == b;
    } else {
      assert (a + b)[1..] == a[1..] + b && (a + b)[0] == a[0];
      OnlyNotesOfSum(a[1..], b);
      var head := if a[0].Note? then [a[0]] else [];
      assert head + (OnlyNotes(a[1..]) + OnlyNotes(b)) == head + OnlyNotes(a[1..]) + OnlyNotes(b);
    }
  }

  lemma {:induction false} NoNotesInHosts(inputs: seq<Input>, frames: nat, i: nat, k: nat)
    requires i <= k <= |inputs|
    ensures OnlyNotes(Hosts(inputs, frames, i, k)) == []
    decreases k
  {
    if i < k {
      NoNotesInHosts(inputs, frames, i, k - 1);
      OnlyNotesOfSum(Hosts(inputs, frames, i, k - 1), Passing(inputs, frames, k - 1));
    }
  }

  /** Message by message, what the transitions ask for. */
  predicate Carry(messages: seq<Message>, script: seq<Transition>) {
    |messages| == |script| && forall k :: 0 <= k < |script| ==> Carries(messages[k], script[k])
  }

  lemma {:induction false} NotesCarry(script: seq<Transition>)
    requires forall k :: 0 <= k < |script| ==> 1 <= script[k].channel <= 16
    ensures Carry(NotesOf(script), script)
    decreases |script|
  {
    hide Carries;
    if script != [] {
      NotesCarry(script[1..]);
    }
  }

  /** A host that accepts everything is offered every generated note, in order. */
  lemma {:induction false} EveryNoteIsOfferedWhenAllAccepted(
    inputs: seq<Input>, frames: nat, script: seq<Transition>, answers: nat -> bool, i: nat, n: nat)
    requires i <= |inputs| && forall k :: 0 <= k < |script| ==> 1 <= script[k].channel <= 16
    requires forall k :: answers(k)
    ensures OnlyNotes(Weave(inputs, frames, script, answers, i, n)) == NotesOf(script)
    ensures Carry(NotesOf(script), script)
    decreases |script|
  {
    NotesCarry(script);
    if script == [] {
      NoNotesInHosts(inputs, frames, i, |inputs|);
    } else {
      hide Weave;
      var s, note, m := WeaveStep(inputs, frames, script, answers, i, n);
      hide Hosts, Stop, Accepted;
      var hosts, rest := Hosts(inputs, frames, i, s), Weave(inputs, frames, script[1..], answers, s, m);
      EveryNoteIsOfferedWhenAllAccepted(inputs, frames, script[1..], answers, s, m);
      NoNotesInHosts(inputs, frames, i, s);
      OnlyNotesOfSum(hosts + note, rest);
      OnlyNotesOfSum(hosts, note);
      assert note[1..] == [] && OnlyNotes(note) == note;
      assert OnlyNotes(hosts + note) == note;
    }
  }

  // ---------------------------------------------------------------- order

  /** The instant of a message; with `fine`, note-offs come before inputs and inputs before note-ons. */
  function Rank(m: Message, fine: bool): int {
    match m
    case Host(_, time) => if fine then 3 * time + 1 else time
    case Note(offset, on, _, _, _) => if fine then 3 * offset + (if on then 2 else 0) else offset
    case Control(_, _) => 0
  }

  predicate Sorted(s: seq<Message>, fine: bool) {
    forall a, b :: 0 <= a < b < |s| ==> Rank(s[a], fine) <= Rank(s[b], fine)
  }

  predicate Between(s: seq<Message>, low: int, high: int, fine: bool) {
    forall a :: 0 <= a < |s| ==> low <= Rank(s[a], fine) <= high
  }

  predicate AtLeast(s: seq<Message>, low: int, fine: bool) {
    forall a :: 0 <= a < |s| ==> low <= Rank(s[a], fine)
  }

  /** Transitions inside the block, in order. */
  ghost predicate Ordered(script: seq<Transition>, frames: nat, fine: bool) {
    && (forall k :: 0 <= k < |script| ==> script[k].offset < frames && 1 <= script[k].channel <= 16)
    && forall a, b :: 0 <= a < b < |script| ==> Rank(NoteOf(script[a]), fine) <= Rank(NoteOf(script[b]), fine)
  }

  /** After an event beyond the block nothing passes, or (for plain time order) nothing before the last frame. */
  predicate Calm(inputs: seq<Input>, frames: nat, fine: bool) {
    forall i, j :: 0 <= i < j < |inputs| && inputs[i].Event? && inputs[i].time >= frames && Passes(inputs, frames, j) ==>
      !fine && inputs[j].time + 1 == frames
  }

  /** What passes after an event in time is not before it. */
  lemma PassesNotBefore(inputs: seq<Input>, frames: nat, s: nat, j: nat)
    requires s <= j < |inputs| && inputs[s].Event? && inputs[s].time < frames && Passes(inputs, frames, j)
    ensures inputs[s].time <= inputs[j].time
  {
    if s < j {
      LastGrows(inputs, frames, s + 1, j);
    }
  }

  /** Whatever passes from where the flush stopped ranks no lower than the note. */
  lemma NothingLowerIsLeft(inputs: seq<Input>, frames: nat, t: Transition, fine: bool, i: nat, j: nat)
    requires Calm(inputs, frames, fine) && t.offset < frames && 1 <= t.channel <= 16
    requires i <= |inputs| && Stop(inputs, t.offset, t.on, i) <= j < |inputs| && Passes(inputs, frames, j)
    ensures Rank(NoteOf(t), fine) <= Rank(Host(j, inputs[j].time), fine)
  {
    var s := Stop(inputs, t.offset, t.on, i);
    if inputs[s].time < frames {
      PassesNotBefore(inputs, frames, s, j);
    }
  }

  lemma {:induction false} HostsAreSorted(inputs: seq<Input>, frames: nat, i: nat, k: nat, fine: bool)
    requires i <= k <= |inputs|
    ensures Sorted(Hosts(inputs, frames, i, k), fine)
    ensures forall m :: m in Hosts(inputs, frames, i, k) ==>
      m.Host? && i <= m.index < k && Passes(inputs, frames, m.index) && m.time == inputs[m.index].time
    decreases k
  {
    if i < k {
      HostsAreSorted(inputs, frames, i, k - 1, fine);
      var before := Hosts(inputs, frames, i, k - 1);
      if Passes(inputs, frames, k - 1) {
        forall m | m in before
          ensures m.time <= inputs[k - 1].time
        {
          PassesNotBefore(inputs, frames, m.index, k - 1);
        }
        assert forall a :: 0 <= a < |before| ==> before[a] in before;
      }
    }
  }

  /** Ordered parts that do not reach past a bound join in order. */
  lemma JoinSorted(a: seq<Message>, note: seq<Message>, b: seq<Message>, low: int, middle: int, fine: bool)
    requires Sorted(a, fine) && Between(a, low, middle, fine) && |note| <= 1 && Between(note, middle, middle, fine)
    requires Sorted(b, fine) && AtLeast(b, middle, fine) && low <= middle
    ensures Sorted(a + note + b, fine) && AtLeast(a + note + b, low, fine)
  {
    var s := a + note + b;
    forall p | 0 <= p < |s|
      ensures p < |a| ==> s[p] == a[p] && low <= Rank(s[p], fine) <= middle
      ensures |a| <= p < |a| + |note| ==> s[p] == note[p - |a|] && Rank(s[p], fine) == middle
      ensures p >= |a| + |note| ==> s[p] == b[p - |a| - |note|] && middle <= Rank(s[p], fine)
    {
    }
    forall p, q | 0 <= p < q < |s|
      ensures Rank(s[p], fine) <= Rank(s[q], fine)
    {
      if q < |a| {
        assert Rank(a[p], fine) <= Rank(a[q], fine);
      } else if p >= |a| + |note| {
        assert Rank(b[p - |a| - |note|], fine) <= Rank(b[q - |a| - |note|], fine);
      }
    }
  }

  /** No input from i on ranks lower. */
  ghost predicate NothingBelow(inputs: seq<Input>, frames: nat, i: nat, low: int, fine: bool) {
    forall j :: i <= j < |inputs| && Passes(inputs, frames, j) ==> low <= Rank(Host(j, inputs[j].time), fine)
  }

  lemma {:induction false} WeaveIsSorted(
    inputs: seq<Input>, frames: nat, script: seq<Transition>, answers: nat -> bool, i: nat, n: nat, low: int, fine: bool)
    requires i <= |inputs| && Calm(inputs, frames, fine) && Ordered(script, frames, fine)
    requires NothingBelow(inputs, frames, i, low, fine) && (script != [] ==> low <= Rank(NoteOf(script[0]), fine))
    ensures Sorted(Weave(inputs, frames, script, answers, i, n), fine)
    ensures AtLeast(Weave(inputs, frames, script, answers, i, n), low, fine)
    decreases |script|
  {
    if script == [] {
      var hosts := Hosts(inputs, frames, i, |inputs|);
      HostsAreSorted(inputs, frames, i, |inputs|, fine);
      assert forall a :: 0 <= a < |hosts| ==> hosts[a] in hosts;
    } else {
      hide Weave;
      var s, note, m := WeaveStep(inputs, frames, script, answers, i, n);
      var middle := Rank(NoteOf(script[0]), fine);
      DueRankNoHigher(inputs, frames, script[0], i, low, fine);
      HostsAreSorted(inputs, frames, i, s, fine);
      forall j | s <= j < |inputs| && Passes(inputs, frames, j)
        ensures middle <= Rank(Host(j, inputs[j].time), fine)
      {
        NothingLowerIsLeft(inputs, frames, script[0], fine, i, j);
      }
      OrderedTail(script, frames, fine);
      WeaveIsSorted(inputs, frames, script[1..], answers, s, m, middle, fine);
      JoinSorted(
        Hosts(inputs, frames, i, s), note, Weave(inputs, frames, script[1..], answers, s, m), low, middle, fine);
    }
  }

  lemma DueRankNoHigher(inputs: seq<Input>, frames: nat, t: Transition, i: nat, low: int, fine: bool)
    requires i <= |inputs| && 1 <= t.channel <= 16 && NothingBelow(inputs, frames, i, low, fine)
    ensures Between(
      Hosts(inputs, frames, i, Stop(inputs, t.offset, t.on, i)), low, Rank(NoteOf(t), fine), fine)
  {
    var s := Stop(inputs, t.offset, t.on, i);
    var hosts := Hosts(inputs, frames, i, s);
    HostsAreSorted(inputs, frames, i, s, fine);
    forall a | 0 <= a < |hosts|
      ensures low <= Rank(hosts[a], fine) <= Rank(NoteOf(t), fine)
    {
      assert hosts[a] in hosts;
      assert Rank(Host(hosts[a].index, inputs[hosts[a].index].time), fine) >= low;
    }
  }

  lemma OrderedTail(script: seq<Transition>, frames: nat, fine: bool)
    requires script != [] && Ordered(script, frames, fine)
    ensures Ordered(script[1..], frames, fine)
    ensures |script| > 1 ==> Rank(NoteOf(script[0]), fine) <= Rank(NoteOf(script[1..][0]), fine)
  {
    var rest := script[1..];
    assert forall k :: 0 <= k < |rest| ==> rest[k] == script[k + 1];
  }

  // ---------------------------------------------------------------- the exact condition

  lemma {:induction false} FindHost(inputs: seq<Input>, frames: nat, i: nat, j: nat, k: nat) returns (p: nat)
    requires i <= j < k <= |inputs| && Passes(inputs, frames, j)
    ensures p < |Hosts(inputs, frames, i, k)| && Hosts(inputs, frames, i, k)[p] == Host(j, inputs[j].time)
    decreases k
  {
    if j == k - 1 {
      p := |Hosts(inputs, frames, i, k - 1)|;
    } else {
      p := FindHost(inputs, frames, i, j, k - 1);
    }
  }

  /** A note at the last frame waits behind an event beyond the block, and what passes later comes too late. */
  lemma LateInputBreaksOrder(inputs: seq<Input>, frames: nat, fine: bool)
    returns (script: seq<Transition>, answers: nat -> bool)
    requires frames > 0 && !Calm(inputs, frames, fine)
    ensures Ordered(script, frames, fine) && !Sorted(Weave(inputs, frames, script, answers, 0, 0), fine)
  {
    var i, j :| 0 <= i < j < |inputs| && inputs[i].Event? && inputs[i].time >= frames && Passes(inputs, frames, j)
      && !(!fine && inputs[j].time + 1 == frames);
    script, answers := [Transition(frames - 1, true, 60, 100, 1)], k => true;
    var s, note, m := WeaveStep(inputs, frames, script, answers, 0, 0);
    var hosts, rest := Hosts(inputs, frames, 0, s), Hosts(inputs, frames, s, |inputs|);
    assert s <= i;
    var p := FindHost(inputs, frames, s, j, |inputs|);
    var w := Weave(inputs, frames, script, answers, 0, 0);
    assert script[1..] == [] && w == hosts + note + rest;
    assert w[|hosts|] == NoteOf(script[0]) && w[|hosts| + 1 + p] == Host(j, inputs[j].time);
  }

  /** The stream is in order for every ordered generation exactly when the host input is calm. */
  lemma StreamIsInOrderExactlyWhenCalm(inputs: seq<Input>, frames: nat, fine: bool)
    requires frames > 0
    ensures Calm(inputs, frames, fine) <==>
      forall script, answers :: Ordered(script, frames, fine) ==>
        Sorted(Weave(inputs, frames, script, answers, 0, 0), fine)
  {
    if Calm(inputs, frames, fine) {
      forall script, answers | Ordered(script, frames, fine)
        ensures Sorted(Weave(inputs, frames, script, answers, 0, 0), fine)
      {
        WeaveIsSorted(inputs, frames, script, answers, 0, 0, 0, fine);
      }
    } else {
      var script, answers := LateInputBreaksOrder(inputs, frames, fine);
    }
  }

  /** Every slot holds an event, and the events are in time order, as the host interface demands. */
  predicate Timely(inputs: seq<Input>) {
    && (forall i :: 0 <= i < |inputs| ==> inputs[i].Event?)
    && forall i, j :: 0 <= i < j < |inputs| ==> inputs[i].time <= inputs[j].time
  }

  /** Timely input is calm, and all its whole MIDI events inside the block pass. */
  lemma TimelyInputIsCalm(inputs: seq<Input>, frames: nat, fine: bool)
    requires Timely(inputs)
    ensures Calm(inputs, frames, fine)
    ensures forall j :: 0 <= j < |inputs| ==>
      (Passes(inputs, frames, j) <==> inputs[j].time < frames && inputs[j].core && inputs[j].full)
  {
    hide Last;
    forall j | 0 <= j < |inputs|
      ensures Last(inputs, frames, j) <= inputs[j].time
    {
      LastIsSome(inputs, frames, j);
    }
  }

  lemma {:induction false} LastIsSome(inputs: seq<Input>, frames: nat, i: nat)
    requires i <= |inputs|
    ensures Last(inputs, frames, i) == -1
         || exists k :: 0 <= k < i && inputs[k].Event? && inputs[k].time == Last(inputs, frames, i)
    decreases i
  {
    if i > 0 {
      LastIsSome(inputs, frames, i - 1);
    }
  }
}
