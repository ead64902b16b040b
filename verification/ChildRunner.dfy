/** The one-child adapter: a single launch, a bounded wait, and at most two kill-and-wait attempts. */
module ChildRunner {
  import opened Results

  /** What one wait for the child yields. */
  datatype Wait = Exited(code: int) | Expired | WaitError | WaitInterrupt

  datatype Raise = ChildError | Interrupt

  datatype ChildOutcome = ChildOutcome(pid: int, returncode: int, timedOut: bool)

  /** The kernel's view of the adapter's children. */
  class Processes {
    /** Launches tried, and those that gave a child. */
    ghost var tries: nat
    var launches: nat
    var kills: nat
    var reaped: nat
    /** What every wait has yielded, in order. */
    ghost var waits: seq<Wait>
    /** The process number of every launch. */
    ghost var pids: seq<int>
    /** What every kill has raised, if anything. */
    ghost var kicks: seq<Option<Raise>>

    constructor ()
      ensures launches == 0 && kills == 0 && reaped == 0 && waits == [] && pids == [] && kicks == []
      ensures tries == 0
    {
      launches, kills, reaped := 0, 0, 0;
      waits, pids, kicks, tries := [], [], [], 0;
    }

    /** From this launch and wait on: the launch failed, gave no proper number, or the first wait found no good exit. */
    ghost predicate WentWrong(attempt: nat, pid: nat, wait: nat)
      reads this
    {
      && attempt < tries
      && (pid >= |pids| || !(1 <= pids[pid] <= 2147483647)
          || (wait < |waits| && !(waits[wait].Exited? && 0 <= waits[wait].code <= 255)))
    }

    /** From these launches and waits on: one child with a proper number that exits in time, and by itself. */
    ghost predicate RunsWell(pid: nat, wait: nat)
      reads this
    {
      && pid < |pids| && 1 <= pids[pid] <= 2147483647
      && wait < |waits| && waits[wait].Exited? && 0 <= waits[wait].code <= 255
    }

    /** The last wait found that the child has exited with this code. */
    ghost predicate ExitedWith(code: int)
      reads this
    {
      waits != [] && waits[|waits| - 1] == Exited(code)
    }

    /** The last wait found an exit code that stands for no signal. */
    ghost predicate EndedByItself()
      reads this
    {
      waits != [] && var last := waits[|waits| - 1]; last.Exited? && 0 <= last.code <= 255
    }

    /** The number that the new child reports, if it could be launched. */
    method Launch() returns (pid: Option<int>)
      modifies this
      ensures tries == old(tries) + 1
      ensures pid.Some? ==> launches == old(launches) + 1 && pids == old(pids) + [pid.value]
      ensures pid.None? ==> launches == old(launches) && pids == old(pids)
      ensures kills == old(kills) && reaped == old(reaped) && waits == old(waits) && kicks == old(kicks)
    {
      tries := tries + 1;
      pid := *;
      if pid.Some? {
        launches := launches + 1;
        pids := pids + [pid.value];
      }
    }

    /** Sends the kill signal; the call itself may fail or be interrupted. */
    method Kill() returns (failure: Option<Raise>)
      modifies this
      ensures kills == old(kills) + 1 && launches == old(launches) && reaped == old(reaped)
      ensures tries == old(tries)
      ensures waits == old(waits) && pids == old(pids) && kicks == old(kicks) + [failure]
    {
      kills := kills + 1;
      failure := *;
      kicks := kicks + [failure];
    }

    method WaitFor() returns (w: Wait)
      modifies this
      ensures reaped == old(reaped) + if w.Exited? then 1 else 0
      ensures launches == old(launches) && kills == old(kills) && waits == old(waits) + [w]
      ensures pids == old(pids) && kicks == old(kicks) && tries == old(tries)
    {
      w := *;
      waits := waits + [w];
      if w.Exited? {
        reaped := reaped + 1;
      }
    }
  }

  /** From these waits and kills on no one interrupted. */
  predicate Uninterrupted(waits: seq<Wait>, kicks: seq<Option<Raise>>, wait: nat, kick: nat) {
    && (forall i :: wait <= i < |waits| ==> !waits[i].WaitInterrupt?)
    && forall i :: kick <= i < |kicks| ==> kicks[i] != Some(Interrupt)
  }

  lemma UninterruptedNext(
    waits: seq<Wait>, kicks: seq<Option<Raise>>, w: Wait, k: Option<Raise>, wait: nat, kick: nat)
    requires wait <= |waits| && kick <= |kicks|
    ensures Uninterrupted(waits + [w], kicks + [k], wait, kick)
       <==> Uninterrupted(waits, kicks, wait, kick) && !w.WaitInterrupt? && k != Some(Interrupt)
  {
    assert (waits + [w])[|waits|] == w && (kicks + [k])[|kicks|] == k;
    assert forall i :: 0 <= i < |waits| ==> (waits + [w])[i] == waits[i];
    assert forall i :: 0 <= i < |kicks| ==> (kicks + [k])[i] == kicks[i];
  }

  /**
   * `stop_and_reap`: the attempts are counted across both calls, so a second call after two
   * attempts gives up at once.
   */
  method StopAndReap(processes: Processes, attempts: nat)
    returns (r: Result<int, Raise>, attempts': nat, reaped: bool)
    requires attempts <= 2
    modifies processes
    ensures attempts <= attempts' <= 2
    ensures processes.kills == old(processes.kills) + attempts' - attempts
    ensures processes.launches == old(processes.launches)
    ensures processes.reaped == old(processes.reaped) + if reaped then 1 else 0
    ensures r.Ok? ==> reaped && attempts' > attempts && processes.ExitedWith(r.value)
    ensures !reaped ==> attempts' == 2
    ensures |processes.waits| == |old(processes.waits)| + attempts' - attempts && old(processes.waits) <= processes.waits
    ensures |processes.kicks| == |old(processes.kicks)| + attempts' - attempts && old(processes.kicks) <= processes.kicks
    ensures processes.pids == old(processes.pids) && processes.tries == old(processes.tries)
    ensures r.Ok? <==> reaped && Uninterrupted(processes.waits, processes.kicks, |old(processes.waits)|, |old(processes.kicks)|)
    ensures reaped <==> exists i :: |old(processes.waits)| <= i < |processes.waits| && processes.waits[i].Exited?
  {
    var interrupted := false;
    attempts' := attempts;
    while attempts' < 2
      invariant attempts <= attempts' <= 2
      invariant processes.kills == old(processes.kills) + attempts' - attempts
      invariant processes.launches == old(processes.launches)
      invariant processes.reaped == old(processes.reaped) && processes.tries == old(processes.tries)
      invariant |processes.waits| == |old(processes.waits)| + attempts' - attempts
      invariant old(processes.waits) <= processes.waits
      invariant |processes.kicks| == |old(processes.kicks)| + attempts' - attempts
      invariant old(processes.kicks) <= processes.kicks && processes.pids == old(processes.pids)
      invariant !interrupted <==> Uninterrupted(processes.waits, processes.kicks, |old(processes.waits)|, |old(processes.kicks)|)
      invariant forall i :: |old(processes.waits)| <= i < |processes.waits| ==> !processes.waits[i].Exited?
    {
      attempts' := attempts' + 1;
      ghost var waits, kicks := processes.waits, processes.kicks;
      var failure := processes.Kill();
      interrupted := interrupted || failure == Some(Interrupt);
      var w := processes.WaitFor();
      UninterruptedNext(waits, kicks, w, failure, |old(processes.waits)|, |old(processes.kicks)|);
      if w.Exited? {
        assert processes.waits[|processes.waits| - 1].Exited?;
        return if interrupted then Err(Interrupt) else Ok(w.code), attempts', true;
      }
      interrupted := interrupted || w.WaitInterrupt?;
    }
    return Err(if interrupted then Interrupt else ChildError), attempts', false;
  }

  /**
   * From these launches, waits and kills on: a child with a proper number that exited in time, or was
   * reaped after the time limit without an interruption, with a code in range.
   */
  ghost predicate Succeeds(processes: Processes, pid: nat, wait: nat, kick: nat)
    reads processes
  {
    && pid < |processes.pids| && 1 <= processes.pids[pid] <= 2147483647
    && wait < |processes.waits|
    && (processes.waits[wait].Exited?
        || (processes.waits[wait].Expired? && Uninterrupted(processes.waits, processes.kicks, wait, kick)))
    && var last := processes.waits[|processes.waits| - 1]; last.Exited? && -255 <= last.code <= 255
  }

  /**
   * `run_child` after its argument checks, which launch nothing. An outcome means one launch and
   * one reap; a failure after the launch means the child was reaped or both attempts were spent.
   */
  method RunChild(processes: Processes, argumentsValid: bool) returns (r: Result<ChildOutcome, Raise>)
    modifies processes
    ensures old(processes.launches) <= processes.launches <= old(processes.launches) + 1
    ensures r.Ok? ==>
      && processes.launches == old(processes.launches) + 1
      && processes.reaped == old(processes.reaped) + 1
      && 1 <= r.value.pid <= 2147483647 && -255 <= r.value.returncode <= 255
      && (r.value.timedOut <==> processes.kills > old(processes.kills))
      && |old(processes.waits)| < |processes.waits| && processes.ExitedWith(r.value.returncode)
      && (r.value.timedOut <==> processes.waits[|old(processes.waits)|] == Expired)
    ensures old(processes.waits) <= processes.waits
    ensures old(processes.pids) <= processes.pids && old(processes.kicks) <= processes.kicks
    ensures r.Ok? <==> argumentsValid && Succeeds(processes, |old(processes.pids)|, |old(processes.waits)|, |old(processes.kicks)|)
    ensures argumentsValid && processes.RunsWell(|old(processes.pids)|, |old(processes.waits)|) ==>
      r.Ok? && !r.value.timedOut && r.value.returncode == processes.waits[|old(processes.waits)|].code
    ensures argumentsValid ==> processes.tries == old(processes.tries) + 1
    ensures argumentsValid && |processes.pids| > |old(processes.pids)| ==> |processes.waits| > |old(processes.waits)|
    ensures argumentsValid && !processes.RunsWell(|old(processes.pids)|, |old(processes.waits)|) ==>
      processes.WentWrong(old(processes.tries), |old(processes.pids)|, |old(processes.waits)|)
    ensures r.Ok? ==> r.value.pid == processes.pids[|old(processes.pids)|]
    ensures r.Err? && processes.launches > old(processes.launches) ==>
      || processes.reaped == old(processes.reaped) + 1
      || (processes.reaped == old(processes.reaped) && processes.kills == old(processes.kills) + 2)
    ensures old(processes.kills) <= processes.kills <= old(processes.kills) + 2
    ensures !argumentsValid ==> r.Err? && processes.launches == old(processes.launches)
  {
    if !argumentsValid {
      return Err(ChildError);
    }
    var launched := processes.Launch();
    if launched.None? {
      var interrupt: bool := *;
      return Err(if interrupt then Interrupt else ChildError);
    }
    var attempts, reaped := 0, false;
    var failure := ChildError;
    var pid := launched.value;
    if 1 <= pid <= 2147483647 {
      var w := processes.WaitFor();
      var code := Err(failure);
      match w {
        case Exited(c) => code, reaped := Ok(c), true;
        case Expired => code, attempts, reaped := StopAndReap(processes, 0);
        case WaitError => code := Err(ChildError);
        case WaitInterrupt => code := Err(Interrupt);
      }
      if code.Ok? && -255 <= code.value <= 255 {
        return Ok(ChildOutcome(pid, code.value, w.Expired?));
      }
      failure := if code.Err? then code.error else ChildError;
    }
    if !reaped {
      var cleanup;
      cleanup, attempts, reaped := StopAndReap(processes, attempts);
      if cleanup == Err(Interrupt) {
        failure := Interrupt;
      }
    }
    r := Err(failure);
  }
}
