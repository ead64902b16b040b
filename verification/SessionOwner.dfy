/**
 * The session's sequence of effects and its ownership of the five evidence descriptors: each one
 * that is opened gets exactly one close attempt, on every exit.
 */
module SessionOwner {
  import opened Results
  import SessionData
  import ChildRunner

  /** The three kinds of exception that the handlers tell apart. */
  datatype Failure = SessionError | OtherError | Interruption

  datatype Event = WrotePre | ReadAck | RanChild | Rechecked | WrotePost | ClosedOutput

  /** The only order in which the effects of a session may happen. */
  const ORDER: seq<Event> := [WrotePre, ReadAck, RanChild, Rechecked, WrotePost, ClosedOutput]

  const EVIDENCE_PATHS: nat := 5

  class Baseline {
    const descriptors: seq<nat>
    var released: bool

    constructor (descriptors: seq<nat>)
      ensures this.descriptors == descriptors && !released
    {
      this.descriptors := descriptors;
      released := false;
    }
  }

  /** The process: its descriptors as the kernel counts them, its registry, its child, its trace. */
  class Process {
    var open: set<nat>
    var acquired: multiset<nat>
    var attempts: multiset<nat>
    var owners: map<Baseline, seq<nat>>
    var trace: seq<Event>
    /** How many steps have failed. */
    ghost var faults: nat
    const child: ChildRunner.Processes

    constructor (child: ChildRunner.Processes)
      ensures this.child == child
      ensures open == {} && acquired == multiset{} && attempts == multiset{} && owners == map[] && trace == []
    {
      this.child := child;
      open, acquired, attempts, owners, trace := {}, multiset{}, multiset{}, map[], [];
      faults := 0;
    }

    /** A system call that touches no evidence descriptor, or any check: it passes or raises. */
    method Step() returns (failure: Option<Failure>)
      modifies this`faults
      ensures faults == old(faults) + if failure.Some? then 1 else 0
    {
      failure := *;
      if failure.Some? {
        faults := faults + 1;
      }
    }

    /** One effect of the exchange, which may raise instead of happening. */
    method Perform(event: Event) returns (failure: Option<Failure>)
      modifies this`trace, this`faults
      ensures faults == old(faults) + if failure.Some? then 1 else 0
      ensures trace == if failure.None? then old(trace) + [event] else old(trace)
    {
      failure := Step();
      if failure.None? {
        trace := trace + [event];
      }
    }

    /** Opens one evidence path; the kernel never hands out a number that is open. */
    method Open() returns (fd: Result<nat, Failure>)
      modifies this`open, this`acquired, this`faults
      ensures faults == old(faults) + if fd.Err? then 1 else 0
      ensures fd.Ok? ==>
        && fd.value !in old(open) && open == old(open) + {fd.value}
        && acquired == old(acquired) + multiset{fd.value}
      ensures fd.Err? ==> open == old(open) && acquired == old(acquired)
    {
      var free: bool, number: nat, error: Failure := *, *, *;
      if free && number !in open {
        open := open + {number};
        acquired := acquired + multiset{number};
        return Ok(number);
      }
      faults := faults + 1;
      fd := Err(error);
    }

    /** One close attempt; it may report an error, and the number is gone either way. */
    method Close(fd: nat) returns (ok: bool)
      modifies this`open, this`attempts, this`faults
      ensures attempts == old(attempts) + multiset{fd} && open == old(open) - {fd}
      ensures faults == old(faults) + if ok then 0 else 1
    {
      attempts := attempts + multiset{fd};
      open := open - {fd};
      ok := *;
      if !ok {
        faults := faults + 1;
      }
    }

    /** The close loops: every descriptor is attempted, whichever of them fail. */
    method CloseAll(fds: seq<nat>) returns (ok: bool)
      modifies this`open, this`attempts, this`faults
      ensures attempts == old(attempts) + multiset(fds)
      ensures old(faults) <= faults && (ok <==> faults == old(faults))
    {
      ok := true;
      for i := 0 to |fds|
        invariant old(faults) <= faults && (ok <==> faults == old(faults))
        invariant attempts == old(attempts) + multiset(fds[..i])
      {
        assert fds[..i + 1] == fds[..i] + [fds[i]];
        var closed := Close(fds[i]);
        ok := ok && closed;
      }
      assert fds[..|fds|] == fds;
    }

    /** `_open_runtime_evidence_descriptors`: on any failure the ones already open are closed. */
    method OpenEvidence<C(!new)>(config: C, admit: C -> Option<C>)
      returns (r: Result<seq<nat>, Failure>, ghost taken: multiset<nat>)
      modifies this`open, this`acquired, this`attempts, this`faults
      ensures old(faults) <= faults && (r.Ok? <==> admit(config).Some? && faults == old(faults))
      ensures acquired == old(acquired) + taken
      ensures r.Ok? ==>
        |r.value| == EVIDENCE_PATHS && taken == multiset(r.value) && attempts == old(attempts)
      ensures r.Err? ==> attempts == old(attempts) + taken
    {
      taken := multiset{};
      if admit(config).None? {
        return Err(SessionError), taken;
      }
      var descriptors: seq<nat> := [];
      while |descriptors| < EVIDENCE_PATHS
        invariant |descriptors| <= EVIDENCE_PATHS
        invariant acquired == old(acquired) + multiset(descriptors)
        invariant attempts == old(attempts) && faults == old(faults)
      {
        var fd := Open();
        if fd.Err? {
          var closed := CloseAll(descriptors);
          return Err(if fd.error.Interruption? then Interruption else SessionError), multiset(descriptors);
        }
        descriptors := descriptors + [fd.value];
      }
      return Ok(descriptors), multiset(descriptors);
    }

    /**
     * `_capture_evidence_baseline`: re-admission comes before the guarded block, so a refusal there
     * would leak all descriptors; after it every failure closes all of them.
     */
    method CaptureBaseline<C(!new)>(config: C, admit: C -> Option<C>, descriptors: seq<nat>)
      returns (r: Result<Baseline, Failure>)
      modifies this`open, this`attempts, this`owners, this`faults
      ensures old(faults) <= faults && (r.Ok? <==> admit(config).Some? && faults == old(faults))
      ensures r.Ok? ==>
        && fresh(r.value) && r.value.descriptors == descriptors && !r.value.released
        && owners == old(owners)[r.value := descriptors] && attempts == old(attempts)
      ensures r.Err? ==> owners == old(owners)
      ensures r.Err? ==>
        attempts == old(attempts) + if admit(config).Some? then multiset(descriptors) else multiset{}
    {
      if admit(config).None? {
        return Err(SessionError);
      }
      var failure := Step();
      if failure.Some? {
        var closed := CloseAll(descriptors);
        return Err(if failure.value.Interruption? then Interruption else SessionError);
      }
      var baseline := new Baseline(descriptors);
      owners := owners[baseline := descriptors];
      r := Ok(baseline);
    }

    /** `_capture_runtime_evidence`: the hand-off precedes the capture, which then owns the closing. */
    method CaptureEvidence<C(!new)>(config: C, admit: C -> Option<C>)
      returns (r: Result<Baseline, Failure>, ghost taken: multiset<nat>)
      requires Idempotent(admit)
      modifies this`open, this`acquired, this`attempts, this`owners, this`faults
      ensures old(faults) <= faults && (r.Ok? <==> admit(config).Some? && faults == old(faults))
      ensures acquired == old(acquired) + taken
      ensures r.Ok? ==>
        && fresh(r.value) && !r.value.released && taken == multiset(r.value.descriptors)
        && owners == old(owners)[r.value := r.value.descriptors] && attempts == old(attempts)
      ensures r.Err? ==> owners == old(owners) && attempts == old(attempts) + taken
    {
      taken := multiset{};
      var admitted := admit(config);
      if admitted.None? {
        return Err(SessionError), taken;
      }
      var failure := Step();
      if failure.Some? {
        return Err(if failure.value.Interruption? then Interruption else SessionError), taken;
      }
      var descriptors;
      descriptors, taken := OpenEvidence(admitted.value, admit);
      if descriptors.Err? {
        return Err(descriptors.error), taken;
      }
      r := CaptureBaseline(admitted.value, admit, descriptors.value);
    }

    /** `_release_evidence_baseline`: only the registered owner closes, and only once. */
    method Release(baseline: Baseline) returns (failure: Option<Failure>)
      modifies this`open, this`attempts, this`owners, this`faults, baseline
      ensures old(faults) <= faults
      ensures var owned := !old(baseline.released) && baseline in old(owners)
                && old(owners)[baseline] == baseline.descriptors;
        if owned then
          && attempts == old(attempts) + multiset(baseline.descriptors)
          && owners == old(owners) - {baseline} && baseline.released
          && (failure.None? <==> faults == old(faults))
        else
          && failure == Some(SessionError)
          && attempts == old(attempts) && owners == old(owners) && baseline.released == old(baseline.released)
    {
      if baseline.released || baseline !in owners || owners[baseline] != baseline.descriptors {
        return Some(SessionError);
      }
      var descriptors := owners[baseline];
      baseline.released := true;
      owners := owners - {baseline};
      var closed := CloseAll(descriptors);
      failure := if closed then None else Some(SessionError);
    }

    /** The child, and `_validate_child_outcome`: no timeout and no signal. */
    method RunValidated(spec: bool) returns (failure: Option<Failure>)
      modifies this`trace, child
      ensures trace == if failure.None? then old(trace) + [RanChild] else old(trace)
      ensures old(child.launches) <= child.launches <= old(child.launches) + 1
      ensures failure.Some? && spec ==> child.WentWrong(old(child.tries), old(|child.pids|), old(|child.waits|))
      ensures failure.None? ==>
        && child.launches == old(child.launches) + 1 && child.reaped == old(child.reaped) + 1
        && child.kills == old(child.kills) && child.EndedByItself()
    {
      var outcome := ChildRunner.RunChild(child, spec);
      if outcome.Err? {
        return Some(if outcome.error.Interrupt? then Interruption else OtherError);
      }
      if outcome.value.timedOut || outcome.value.returncode < 0 {
        return Some(SessionError);
      }
      trace := trace + [RanChild];
      failure := None;
    }

    /**
     * The guarded middle of `run_session`, from the captured evidence to the closed output. Each
     * effect may raise instead of happening; none can be skipped or repeated.
     */
    method Exchange(spec: bool) returns (failure: Option<Failure>)
      requires trace == []
      modifies this`trace, this`faults, child
      ensures old(faults) <= faults
      ensures failure.None? <==> faults == old(faults) && RanChild in trace
      ensures failure.Some? && spec && faults == old(faults) ==>
        child.WentWrong(old(child.tries), old(|child.pids|), old(|child.waits|))
      ensures trace <= ORDER && (failure.None? ==> trace == ORDER)
      ensures child.launches <= old(child.launches) + 1
      ensures child.launches > old(child.launches) ==> ORDER[..2] <= trace
      ensures RanChild in trace ==>
        child.launches == old(child.launches) + 1 && child.reaped == old(child.reaped) + 1
        && child.kills == old(child.kills) && child.EndedByItself()
    {
      OrderGrows();
      assert trace == ORDER[..0];
      failure := Perform(WrotePre);
      if failure.Some? {
        return;
      }
      failure := Perform(ReadAck);
      if failure.Some? {
        return;
      }
      failure := RunValidated(spec);
      if failure.Some? {
        return;
      }
      failure := ReportChild();
    }

    /** Behind the child: the evidence is checked again, POST written and the output closed. */
    method ReportChild() returns (failure: Option<Failure>)
      requires trace == ORDER[..3]
      modifies this`trace, this`faults
      ensures old(faults) <= faults && (failure.None? <==> faults == old(faults))
      ensures ORDER[..3] <= trace <= ORDER && (failure.None? ==> trace == ORDER)
    {
      OrderGrows();
      failure := Perform(Rechecked);
      if failure.Some? {
        return;
      }
      failure := Perform(WrotePost);
      if failure.Some? {
        return;
      }
      failure := Perform(ClosedOutput);
    }

    /** `run_session`: whatever fails, every evidence descriptor opened is attempted exactly once. */
    method RunSession<C(!new)>(config: C, admit: C -> Option<C>, spec: bool)
      returns (failure: Option<Failure>)
      requires Idempotent(admit)
      requires acquired == multiset{} && attempts == multiset{} && owners == map[] && trace == []
      modifies this, child
      ensures attempts == acquired && owners == map[]
      ensures failure.None? <==> admit(config).Some? && faults == old(faults) && RanChild in trace
      ensures failure.Some? && admit(config).Some? && spec && faults == old(faults) ==>
        child.WentWrong(old(child.tries), old(|child.pids|), old(|child.waits|))
      ensures trace <= ORDER && (failure.None? ==> trace == ORDER)
      ensures child.launches <= old(child.launches) + 1
      ensures child.launches > old(child.launches) ==> ORDER[..2] <= trace
      ensures failure.None? ==>
        child.launches == old(child.launches) + 1 && child.reaped == old(child.reaped) + 1
        && child.kills == old(child.kills) && child.EndedByItself()
    {
      failure := Step();
      if failure.Some? {
        return;
      }
      var admitted := admit(config);
      if admitted.None? {
        return Some(SessionError);
      }
      var captured, _ := CaptureEvidence(admitted.value, admit);
      if captured.Err? {
        return Some(captured.error);
      }
      var baseline := captured.value;
      failure := Exchange(spec);
      if failure.Some? {
        var ignored := Release(baseline);
        return;
      }
      // The variable is cleared before the release, so that its own failure releases nothing twice.
      failure := Release(baseline);
    }
  }

  lemma OrderGrows()
    ensures forall k :: 0 <= k < |ORDER| ==> ORDER[..k] + [ORDER[k]] == ORDER[..k + 1]
    ensures forall k :: 0 <= k <= |ORDER| ==> (RanChild in ORDER[..k] <==> k > 2)
    ensures ORDER[..|ORDER|] == ORDER
  {
    assert ORDER[2] == RanChild;
  }

  /** What has been admitted is admitted again. */
  ghost predicate Idempotent<C(!new)>(admit: C -> Option<C>) {
    forall c :: admit(c).Some? ==> admit(admit(c).value).Some?
  }

  /** The admission of session data has the property that the hand-off rests on. */
  lemma SessionAdmissionIsIdempotent(relations: SessionData.Tree -> bool)
    ensures Idempotent((data: SessionData.Value) => SessionData.Admission(data, relations))
  {
    var admit := (data: SessionData.Value) => SessionData.Admission(data, relations);
    forall c | admit(c).Some?
      ensures admit(admit(c).value).Some?
    {
      SessionData.AdmittedIsAdmittedAgain(c, relations);
    }
  }
}
