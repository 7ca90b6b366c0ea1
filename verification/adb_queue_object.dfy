/**
 * The queue object, one method per synchronous section. Each method is proved to be
 * the step of `AdbQueue` its name says, so what holds on every run holds of the object.
 */
module AdbQueueObject {
  import opened Options
  import opened AdbSemaphore
  import Q = AdbQueue

  class PerDeviceQueue {
    const sem: Semaphore
    var tasks: seq<Q.Task>
    var chains: map<Q.Serial, nat>
    var entries: seq<Q.Entry>
    var gate: nat
    var paused: bool
    var inFlight: int
    var idleWaiters: nat
    var idleFired: nat
    var log: seq<Q.TaskId>

    function State(): Q.Queue
      reads this, sem
    {
      Q.Queue(tasks, chains, entries, gate, paused, inFlight, idleWaiters, idleFired, sem.Now(), log)
    }

    constructor (sem: Semaphore)
      ensures this.sem == sem
      ensures State() == Q.Empty(sem.maxValue).(sem := sem.Now())
    {
      this.sem := sem;
      tasks, chains, entries, gate, paused := [], map[], [], 0, false;
      inFlight, idleWaiters, idleFired, log := 0, 0, 0, [];
    }

    method Pause()
      modifies this
      ensures State() == Q.Step(old(State()), Q.Pause)
    {
      if paused { return; }
      gate, paused := gate + 1, true;
    }

    method Resume()
      modifies this
      ensures State() == Q.Step(old(State()), Q.Resume)
    {
      paused := false;
    }

    /** True when nothing is in flight now; otherwise the caller waits to be fired. */
    method WaitIdle() returns (now: bool)
      modifies this
      ensures State() == Q.Step(old(State()), Q.WaitIdle) && now == (inFlight == 0)
    {
      now := inFlight == 0;
      if now { idleFired := idleFired + 1; } else { idleWaiters := idleWaiters + 1; }
    }

    /** Refuses a chain already at `maxDepth`, and then changes nothing. */
    method Run(serial: Q.Serial, maxDepth: nat, aborted: bool) returns (accepted: bool)
      modifies this
      ensures State() == Q.Step(old(State()), Q.Enqueue(serial, maxDepth, aborted))
      ensures accepted == (Q.Pending(old(State()), serial) < maxDepth)
      ensures !accepted ==> State() == old(State())
    {
      var known := serial in chains && chains[serial] < |entries|;
      var entry := if known then entries[chains[serial]] else Q.Entry(0, None);
      if entry.pending >= maxDepth { return false; }
      var at := if known then chains[serial] else |entries|;
      var answer := if aborted then Some(Q.GaveUpAnswer) else None;
      var linked := Q.Entry(entry.pending + 1, Some(|tasks|));
      tasks := tasks + [Q.Task(serial, at, entry.last, Q.Linked, aborted, false, false, answer)];
      entries := if known then entries[at := linked] else entries + [linked];
      chains := chains[serial := at];
      return true;
    }

    method SetPhase(t: Q.TaskId, phase: Q.Phase)
      requires t < |tasks|
      modifies this`tasks
      ensures tasks == old(tasks)[t := old(tasks)[t].(phase := phase)]
    {
      tasks := tasks[t := tasks[t].(phase := phase)];
    }

    /** The link's turn: it reads the gate that is current now. */
    method ReachTurn(t: Q.TaskId)
      requires Q.TurnEnabled(State(), t)
      modifies this
      ensures State() == Q.Step(old(State()), Q.Turn(t))
    {
      SetPhase(t, Q.AtGate(gate));
    }

    /** The gate the link read is open. */
    method PassGate(t: Q.TaskId)
      requires Q.PassEnabled(State(), t)
      modifies this, sem
      ensures State() == Q.Step(old(State()), Q.Pass(t))
    {
      if tasks[t].gaveUp {
        SetPhase(t, Q.Settled);
        return;
      }
      var got := sem.Acquire(t);
      tasks := tasks[t := tasks[t].(phase := if got then Q.Holding else Q.Acquiring, started := true)];
    }

    method TakeWakeUp(t: Q.TaskId)
      requires Q.Has(State(), t, Q.Acquiring) && t in sem.woken
      modifies this, sem
      ensures State() == Q.Step(old(State()), Q.Wake(t))
    {
      sem.ResumeWaiter(t);
      SetPhase(t, Q.Holding);
    }

    method BeginBody(t: Q.TaskId)
      requires Q.Has(State(), t, Q.Holding)
      modifies this
      ensures State() == Q.Step(old(State()), Q.Begin(t))
    {
      inFlight := inFlight + 1;
      tasks := tasks[t := tasks[t].(phase := Q.Running, ran := true)];
      log := log + [t];
    }

    /** The body settled: idle waiters first, then the slot. */
    method EndBody(t: Q.TaskId)
      requires Q.Has(State(), t, Q.Running)
      modifies this, sem
      ensures State() == Q.Step(old(State()), Q.End(t))
    {
      inFlight := inFlight - 1;
      if inFlight == 0 {
        idleFired, idleWaiters := idleFired + idleWaiters, 0;
      }
      sem.ReleaseSlot(t);
      var answer := if tasks[t].answer.Some? then tasks[t].answer else Some(Q.RanAnswer);
      tasks := tasks[t := tasks[t].(phase := Q.Settled, answer := answer)];
    }

    method RetireLink(t: Q.TaskId)
      requires Q.Has(State(), t, Q.Settled) && tasks[t].entry < |entries|
      modifies this
      ensures State() == Q.Step(old(State()), Q.Retire(t))
    {
      var at := tasks[t].entry;
      var entry := entries[at].(pending := entries[at].pending - 1);
      entries := entries[at := entry];
      if entry.pending == 0 { chains := chains - {tasks[t].serial}; }
      SetPhase(t, Q.Retired);
    }

    /** A timeout or an abort; too late for a task that started or has given up. */
    method GiveUp(t: Q.TaskId)
      requires t < |tasks|
      modifies this
      ensures State() == Q.Step(old(State()), Q.GiveUp(t))
    {
      if tasks[t].started || tasks[t].gaveUp { return; }
      tasks := tasks[t := tasks[t].(gaveUp := true, answer := Some(Q.GaveUpAnswer))];
    }

    method PendingOf(serial: Q.Serial) returns (n: int)
      ensures n == Q.Pending(State(), serial)
    {
      n := if serial in chains && chains[serial] < |entries| then entries[chains[serial]].pending else 0;
    }
  }
}
