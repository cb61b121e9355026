/**
 The scheduler side of the flight-alert job: a process-wide `running` flag that
 guards `start`, the recurring schedules `start` registers with the cron library,
 and the status report derived from the flag.

 The cron library is represented only by the sequence of expressions registered
 with it; when those schedules fire is not part of this model.
 */
module Scheduler {

  type CronExpression = string

  /** The two cadences `start` registers, in registration order. */
  const HalfHourly: CronExpression := "*/30 * * * *"
  const EveryTwoHours: CronExpression := "0 */2 * * *"

  /** The `nextRun` texts of the status report. */
  const RunningCadence: string := "Cada 30 minutos y cada 2 horas"
  const StoppedText: string := "Detenido"

  /** The observable state: the flag and every schedule registered so far. */
  datatype SchedulerState = SchedulerState(running: bool, registered: seq<CronExpression>)

  const Initial: SchedulerState := SchedulerState(false, [])

  /** The two exported operations that change the state. */
  datatype Call = StartCall | StopCall

  /**
   Registrations come in pairs, half-hourly first, and a running scheduler has
   registered at least one pair.
   */
  ghost predicate Consistent(s: SchedulerState) {
    && |s.registered| % 2 == 0
    && (forall k :: 0 <= k < |s.registered| ==>
          s.registered[k] == if k % 2 == 0 then HalfHourly else EveryTwoHours)
    && (s.running ==> |s.registered| >= 2)
  }

  /** The effect of one call on the state. */
  ghost function Step(s: SchedulerState, c: Call): (t: SchedulerState)
    // start while running changes nothing
    ensures c == StartCall && s.running ==> t == s
    // start while stopped raises the flag and registers both cadences, in order
    ensures c == StartCall && !s.running ==>
              t.running && t.registered == s.registered + [HalfHourly, EveryTwoHours]
    // stop lowers the flag and deregisters nothing
    ensures c == StopCall ==> !t.running && t.registered == s.registered
    ensures Consistent(s) ==> Consistent(t)
  {
    match c
    case StartCall =>
      if s.running then s
      else SchedulerState(true, s.registered + [HalfHourly, EveryTwoHours])
    case StopCall =>
      SchedulerState(false, s.registered)
  }

  /** The state after making the calls `calls`, in order, starting from `s`. */
  ghost function Replay(s: SchedulerState, calls: seq<Call>): SchedulerState
    decreases |calls|
  {
    if calls == [] then s
    else Step(Replay(s, calls[..|calls| - 1]), calls[|calls| - 1])
  }

  /** The call at position `k` of `calls` is a start made while the flag was down. */
  ghost predicate Activates(wasRunning: bool, calls: seq<Call>, k: nat)
    requires k < |calls|
  {
    calls[k] == StartCall && (if k == 0 then !wasRunning else calls[k - 1] == StopCall)
  }

  /** The positions of the starts that actually register schedules. */
  ghost function Activations(wasRunning: bool, calls: seq<Call>): set<nat> {
    set k: nat | k < |calls| && Activates(wasRunning, calls, k)
  }

  lemma {:induction false} ReplayKeepsConsistent(s: SchedulerState, calls: seq<Call>)
    requires Consistent(s)
    ensures Consistent(Replay(s, calls))
    decreases |calls|
  {
    if calls != [] {
      ReplayKeepsConsistent(s, calls[..|calls| - 1]);
    }
  }

  /** The flag after a sequence of calls is decided by the last call alone. */
  lemma ReplayFlag(s: SchedulerState, calls: seq<Call>)
    ensures Replay(s, calls).running ==
              if calls == [] then s.running else calls[|calls| - 1] == StartCall
  {
  }

  /** No sequence of calls ever removes a registration. */
  lemma {:induction false} ReplayNeverDeregisters(s: SchedulerState, calls: seq<Call>)
    ensures s.registered <= Replay(s, calls).registered
    decreases |calls|
  {
    if calls != [] {
      ReplayNeverDeregisters(s, calls[..|calls| - 1]);
    }
  }

  /** Appending one call adds its position to the activations exactly when it activates. */
  lemma ActivationsExtend(wasRunning: bool, calls: seq<Call>)
    requires calls != []
    ensures Activations(wasRunning, calls) ==
              Activations(wasRunning, calls[..|calls| - 1]) +
              (if Activates(wasRunning, calls, |calls| - 1) then {|calls| - 1} else {})
  {
    var prefix := calls[..|calls| - 1];
    forall k: nat | k < |prefix|
      ensures Activates(wasRunning, calls, k) == Activates(wasRunning, prefix, k)
    {
      assert calls[k] == prefix[k];
      if k > 0 { assert calls[k - 1] == prefix[k - 1]; }
    }
  }

  /**
   Every start made while stopped, and only those, registers two schedules. In
   particular a start that follows a stop registers the two cadences again.
   */
  lemma {:induction false} ReplayRegistrationCount(s: SchedulerState, calls: seq<Call>)
    ensures |Replay(s, calls).registered| == |s.registered| + 2 * |Activations(s.running, calls)|
    decreases |calls|
  {
    if calls == [] {
      assert Activations(s.running, calls) == {};
    } else {
      var n := |calls|;
      var prefix := calls[..n - 1];
      ReplayRegistrationCount(s, prefix);
      ReplayFlag(s, prefix);
      ActivationsExtend(s.running, calls);
      if n > 1 { assert calls[n - 2] == prefix[n - 2]; }
      var before := Activations(s.running, prefix);
      assert n - 1 !in before;
      // the flag just before the last call is down exactly when that call, if a start, activates
      assert Replay(s, prefix).running == if n == 1 then s.running else calls[n - 2] == StartCall;
    }
  }

  /** start, stop, start: the second start registers both cadences a second time. */
  lemma StartStopStartRegistersTwice(s: SchedulerState)
    requires !s.running
    ensures Replay(s, [StartCall, StopCall, StartCall]) ==
              SchedulerState(true, s.registered + [HalfHourly, EveryTwoHours, HalfHourly, EveryTwoHours])
  {
    var calls := [StartCall, StopCall, StartCall];
    assert calls[..2] == [StartCall, StopCall];
    assert calls[..2][..1] == [StartCall];
    assert calls[..2][..1][..0] == [];
    var s1 := Replay(s, [StartCall]);
    assert s1 == SchedulerState(true, s.registered + [HalfHourly, EveryTwoHours]);
    var s2 := Replay(s, [StartCall, StopCall]);
    assert s2 == SchedulerState(false, s1.registered);
    assert s.registered + [HalfHourly, EveryTwoHours] + [HalfHourly, EveryTwoHours] ==
           s.registered + [HalfHourly, EveryTwoHours, HalfHourly, EveryTwoHours];
  }

  /** The status report returned by `getSchedulerStatus` (without its timestamp). */
  datatype Status = Status(running: bool, nextRun: string)

  /**
   The job controller. `running` is the module-level flag of the source;
   `registered` stands for the schedules held by the cron library.
   */
  class FlightScheduler {
    var running: bool
    ghost var registered: seq<CronExpression>

    ghost function State(): SchedulerState
      reads this
    {
      SchedulerState(running, registered)
    }

    ghost predicate Valid()
      reads this
    {
      Consistent(State())
    }

    constructor ()
      ensures Valid() && State() == Initial
    {
      running := false;
      registered := [];
    }

    /** startFlightScheduler */
    method Start()
      requires Valid()
      modifies this
      ensures Valid()
      ensures State() == Step(old(State()), StartCall)
      ensures running
      ensures old(running) ==> registered == old(registered)
      ensures !old(running) ==> registered == old(registered) + [HalfHourly, EveryTwoHours]
    {
      if running {
        return;
      }
      registered := registered + [HalfHourly];
      registered := registered + [EveryTwoHours];
      running := true;
    }

    /** stopFlightScheduler: lowers the flag and leaves the schedules registered. */
    method Stop()
      requires Valid()
      modifies this
      ensures Valid()
      ensures State() == Step(old(State()), StopCall)
      ensures !running && registered == old(registered)
    {
      running := false;
    }

    /** getSchedulerStatus */
    function GetStatus(): (st: Status)
      reads this
      ensures st.running == running
      ensures st.nextRun == StoppedText <==> !running
      ensures running ==> st.nextRun == RunningCadence
    {
      Status(running, if running then RunningCadence else StoppedText)
    }
  }
}
