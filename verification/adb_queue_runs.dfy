/** What holds on every run of the per-device queue. */
module AdbQueueRuns {
  import opened Options
  import S = AdbSemaphore
  import opened AdbQueue

  /** No caller asks for more than `depth` places in one chain. */
  predicate DepthAtMost(actions: seq<Action>, depth: nat) {
    forall a | a in actions :: a.Enqueue? ==> a.maxDepth <= depth
  }

  lemma {:induction false} ExecInv(q: Queue, actions: seq<Action>, depth: nat)
    requires Inv(q, depth) && DepthAtMost(actions, depth)
    ensures Inv(Exec(q, actions), depth)
    decreases |actions|
  {
    hide Inv;
    if actions != [] {
      ExecInv(q, actions[..|actions| - 1], depth);
      StepInv(Exec(q, actions[..|actions| - 1]), actions[|actions| - 1], depth);
    }
  }

  lemma RunInv(max: nat, actions: seq<Action>, depth: nat)
    requires max >= 1 && DepthAtMost(actions, depth)
    ensures Inv(Exec(Empty(max), actions), depth)
  {
    EmptyInv(max, depth);
    ExecInv(Empty(max), actions, depth);
  }

  // ------------------------------------------------------------------- safety

  /** At most one task of a serial is anywhere between its turn and its retirement. */
  lemma OneAtATime(max: nat, actions: seq<Action>, depth: nat, t: TaskId, u: TaskId)
    requires max >= 1 && DepthAtMost(actions, depth)
    ensures var q := Exec(Empty(max), actions);
      (t < |q.tasks| && u < |q.tasks| && q.tasks[t].serial == q.tasks[u].serial
       && q.tasks[t].phase !in {Linked, Retired} && q.tasks[u].phase !in {Linked, Retired}) ==> t == u
  {
    RunInv(max, actions, depth);
  }

  /** Bodies of one serial begin in enqueue order, each at most once. */
  lemma BodiesBeginInOrder(max: nat, actions: seq<Action>, depth: nat, i: nat, j: nat)
    requires max >= 1 && DepthAtMost(actions, depth)
    ensures var q := Exec(Empty(max), actions);
      i < j < |q.log| ==>
        && q.log[i] < |q.tasks| && q.log[j] < |q.tasks|
        && (q.tasks[q.log[i]].serial == q.tasks[q.log[j]].serial ==> q.log[i] < q.log[j])
  {
    RunInv(max, actions, depth);
    var q := Exec(Empty(max), actions);
    if i < j < |q.log| {
      assert q.log[i] in q.log && q.log[j] in q.log;
      assert SameSerial(q, q.log[i], q.log[j]) ==> q.log[i] < q.log[j];
    }
  }

  /** A task that gave up never runs its body, and one that started never answers with giving up. */
  lemma GaveUpOrStarted(max: nat, actions: seq<Action>, depth: nat, t: TaskId)
    requires max >= 1 && DepthAtMost(actions, depth)
    ensures var q := Exec(Empty(max), actions);
      t < |q.tasks| ==>
        && (q.tasks[t].gaveUp ==> t !in q.log && q.tasks[t].answer == Some(GaveUpAnswer))
        && (q.tasks[t].started ==> q.tasks[t].answer != Some(GaveUpAnswer))
        && (q.tasks[t].phase == Retired ==> q.tasks[t].answer.Some? && (t in q.log <==> q.tasks[t].answer == Some(RanAnswer)))
  {
    RunInv(max, actions, depth);
    var q := Exec(Empty(max), actions);
    if t < |q.tasks| { TaskIsOk(q, t); }
  }

  /** An answer, a start and a giving up are final, and tasks are never forgotten. */
  predicate Kept(q: Queue, q': Queue, t: TaskId) {
    t < |q.tasks| ==>
      && t < |q'.tasks|
      && q'.tasks[t].serial == q.tasks[t].serial
      && (q.tasks[t].answer.Some? ==> q'.tasks[t].answer == q.tasks[t].answer)
      && (q.tasks[t].started ==> q'.tasks[t].started)
      && (q.tasks[t].gaveUp ==> q'.tasks[t].gaveUp)
  }

  lemma {:induction false} AnswersAreFinal(q: Queue, actions: seq<Action>, depth: nat, t: TaskId)
    requires Inv(q, depth) && DepthAtMost(actions, depth)
    ensures Kept(q, Exec(q, actions), t)
    decreases |actions|
  {
    if actions != [] {
      var before := actions[..|actions| - 1];
      AnswersAreFinal(q, before, depth, t);
      ExecInv(q, before, depth);
      StepKeeps(Exec(q, before), actions[|actions| - 1], depth, t);
    }
  }

  lemma StepKeeps(q: Queue, a: Action, depth: nat, t: TaskId)
    requires Inv(q, depth)
    ensures Kept(q, Step(q, a), t)
  {
    hide SemOk, ChainsOk, LogOk, LinksOk, PrevOk, InOrder, CountOk, TasksOk;
    if t < |q.tasks| { TaskIsOk(q, t); }
  }

  /** The number of a serial's pending links is exact and capped; the map knows the serial exactly while it has some. */
  lemma PendingIsExact(max: nat, actions: seq<Action>, depth: nat, serial: Serial)
    requires max >= 1 && DepthAtMost(actions, depth)
    ensures var q := Exec(Empty(max), actions);
      && Pending(q, serial) == Open(q.tasks, serial) <= depth
      && (serial in q.chains <==> Pending(q, serial) > 0)
  {
    RunInv(max, actions, depth);
    var q := Exec(Empty(max), actions);
    if serial in q.chains {
      assert EntryOk(q, serial, depth);
    } else {
      NoChainNoLinks(q, serial, depth);
    }
  }

  predicate NoResume(actions: seq<Action>) {
    Resume !in actions
  }

  /** A task that reads the gate while the queue is paused stays there until a resume. */
  lemma {:induction false} PausedTaskWaits(q: Queue, actions: seq<Action>, t: TaskId)
    requires q.paused && Has(q, t, AtGate(q.gate)) && NoResume(actions)
    ensures var q' := Exec(q, actions); q'.paused && q'.gate == q.gate && Has(q', t, AtGate(q.gate))
    decreases |actions|
  {
    hide Step;
    if actions != [] {
      PausedTaskWaits(q, actions[..|actions| - 1], t);
      assert actions[|actions| - 1] in actions;
      PausedStep(Exec(q, actions[..|actions| - 1]), actions[|actions| - 1], t);
    }
  }

  lemma PausedStep(q: Queue, a: Action, t: TaskId)
    requires q.paused && Has(q, t, AtGate(q.gate)) && a != Resume
    ensures var q' := Step(q, a); q'.paused && q'.gate == q.gate && Has(q', t, AtGate(q.gate))
  {
  }

  /** The last pause or resume of the run was a pause. */
  predicate PausedBy(actions: seq<Action>) {
    actions != [] &&
    var a := actions[|actions| - 1];
    (a == Pause || (a != Resume && PausedBy(actions[..|actions| - 1])))
  }

  /** The gates made: one for each pause of a queue that was not paused. */
  function Gates(actions: seq<Action>): nat {
    if actions == [] then 0 else
    var before := actions[..|actions| - 1];
    Gates(before) + if actions[|actions| - 1] == Pause && !PausedBy(before) then 1 else 0
  }

  /** The queue is paused exactly when its run says so, at the gate of the last pause that closed it. */
  lemma {:induction false} PauseIsTracked(max: nat, actions: seq<Action>)
    ensures var q := Exec(Empty(max), actions); q.paused == PausedBy(actions) && q.gate == Gates(actions)
    decreases |actions|
  {
    hide Step;
    if actions != [] {
      var before, a := actions[..|actions| - 1], actions[|actions| - 1];
      PauseIsTracked(max, before);
      PauseStep(Exec(Empty(max), before), a);
    }
  }

  lemma PauseStep(q: Queue, a: Action)
    ensures var q' := Step(q, a);
      && q'.paused == (a == Pause || (a != Resume && q.paused))
      && q'.gate == q.gate + if a == Pause && !q.paused then 1 else 0
  {
  }

  /** What a pause stops: a task that has not come to its turn, or is at the gate that is closed. */
  predicate Stopped(q: Queue, t: TaskId) {
    t < |q.tasks| ==> !q.tasks[t].ran && (q.tasks[t].phase == Linked || q.tasks[t].phase == AtGate(q.gate))
  }

  /** What a step without a resume leaves stopped in a paused queue. */
  lemma StoppedStep(q: Queue, a: Action, t: TaskId)
    requires q.paused && Stopped(q, t) && t !in q.log && a != Resume
    ensures var q' := Step(q, a); q'.paused && q'.gate == q.gate && Stopped(q', t) && t !in q'.log
  {
  }

  lemma {:induction false} StoppedRun(q: Queue, actions: seq<Action>, t: TaskId)
    requires q.paused && Stopped(q, t) && t !in q.log && NoResume(actions)
    ensures var q' := Exec(q, actions); q'.paused && q'.gate == q.gate && Stopped(q', t) && t !in q'.log
    decreases |actions|
  {
    hide Step, Stopped;
    if actions != [] {
      var before := actions[..|actions| - 1];
      StoppedRun(q, before, t);
      StoppedStep(Exec(q, before), actions[|actions| - 1], t);
    }
  }

  lemma {:induction false} ExecAppend(q: Queue, a: seq<Action>, b: seq<Action>)
    ensures Exec(q, a + b) == Exec(Exec(q, a), b)
    decreases |b|
  {
    hide Step;
    if b == [] {
      assert a + b == a;
    } else {
      assert (a + b)[..|a + b| - 1] == a + b[..|b| - 1];
      ExecAppend(q, a, b[..|b| - 1]);
    }
  }

  lemma ExecAround(q: Queue, before: seq<Action>, a: Action, after: seq<Action>)
    ensures Exec(q, before + [a]) == Step(Exec(q, before), a)
    ensures Exec(q, before + [a] + after) == Exec(Step(Exec(q, before), a), after)
  {
    hide Step;
    ExecAppend(q, before + [a], after);
    assert (before + [a])[..|before|] == before;
  }

  /**
   * A pause pauses: on every run, a task whose body begins after a pause and before any
   * resume had passed its gate at the pause, or stood at one that was open. One that is
   * enqueued after the pause, or that comes to its turn after it, does not begin.
   */
  lemma PauseHolds(max: nat, before: seq<Action>, after: seq<Action>, depth: nat, t: TaskId)
    requires max >= 1 && DepthAtMost(before, depth) && NoResume(after)
    ensures var q, q' := Exec(Empty(max), before), Exec(Empty(max), before + [Pause] + after);
      t in q'.log && t !in q.log ==>
        && t < |q.tasks| && q.tasks[t].phase != Linked
        && (q.tasks[t].phase.AtGate? ==> q.tasks[t].phase.epoch < Gates(before + [Pause]))
    ensures PausedBy(before + [Pause] + after)
  {
    hide Inv;
    var q := Exec(Empty(max), before);
    RunInv(max, before, depth);
    ExecAround(Empty(max), before, Pause, after);
    var p := Step(q, Pause);
    PauseIsTracked(max, before + [Pause]);
    PauseIsTracked(max, before);
    StillPaused(max, before + [Pause], after);
    if t !in q.log && (t < |q.tasks| ==> q.tasks[t].phase == Linked || q.tasks[t].phase == AtGate(p.gate)) {
      if t < |q.tasks| { LogIsRan(q, depth, t); }
      StoppedRun(p, after, t);
    }
    if t < |q.tasks| && q.tasks[t].phase.AtGate? { GateIsPast(q, depth, t); }
  }

  lemma {:induction false} StillPaused(max: nat, actions: seq<Action>, after: seq<Action>)
    requires PausedBy(actions) && NoResume(after)
    ensures PausedBy(actions + after)
    decreases |after|
  {
    if after == [] {
      assert actions + after == actions;
    } else {
      StillPaused(max, actions, after[..|after| - 1]);
      assert (actions + after)[..|actions + after| - 1] == actions + after[..|after| - 1];
    }
  }

  lemma LogIsRan(q: Queue, depth: nat, t: TaskId)
    requires Inv(q, depth) && t < |q.tasks|
    ensures t in q.log <==> q.tasks[t].ran
  {
  }

  lemma GateIsPast(q: Queue, depth: nat, t: TaskId)
    requires Inv(q, depth) && t < |q.tasks| && q.tasks[t].phase.AtGate?
    ensures q.tasks[t].phase.epoch <= q.gate
  {
    TaskIsOk(q, t);
  }

  /**
   * A resume resumes: a task at its gate then can pass it at any later point, even if the
   * queue is paused again in between; and until a pause every task that comes to its gate can.
   */
  lemma ResumeOpens(max: nat, before: seq<Action>, after: seq<Action>, depth: nat, t: TaskId)
    requires max >= 1 && DepthAtMost(before, depth)
    ensures var q, q' := Exec(Empty(max), before), Exec(Empty(max), before + [Resume] + after);
      && (t < |q.tasks| && q.tasks[t].phase.AtGate? && t < |q'.tasks| && q'.tasks[t].phase.AtGate? ==> PassEnabled(q', t))
      && (Pause !in after && t < |q'.tasks| && q'.tasks[t].phase.AtGate? ==> PassEnabled(q', t))
  {
    hide Inv;
    var q := Exec(Empty(max), before);
    RunInv(max, before, depth);
    ExecAround(Empty(max), before, Resume, after);
    var r := Step(q, Resume);
    StepInv(q, Resume, depth);
    if t < |q.tasks| && q.tasks[t].phase.AtGate? {
      GateIsPast(q, depth, t);
      OpenedRun(r, after, t);
    }
    if Pause !in after { NeverPaused(r, after); }
  }

  /** A gate that is open, or has been replaced, stays so for the task that stands at it. */
  predicate Opened(q: Queue, t: TaskId, epoch: nat) {
    && t < |q.tasks| && (q.tasks[t].phase.AtGate? ==> q.tasks[t].phase.epoch == epoch)
    && q.tasks[t].phase != Linked && epoch <= q.gate && !(q.paused && q.gate == epoch)
  }

  lemma OpenedStep(q: Queue, a: Action, t: TaskId, epoch: nat)
    requires Opened(q, t, epoch)
    ensures Opened(Step(q, a), t, epoch)
  {
  }

  lemma {:induction false} OpenedRun(q: Queue, actions: seq<Action>, t: TaskId)
    requires t < |q.tasks| && q.tasks[t].phase.AtGate? && Opened(q, t, q.tasks[t].phase.epoch)
    ensures Opened(Exec(q, actions), t, q.tasks[t].phase.epoch)
    decreases |actions|
  {
    hide Step, Opened;
    if actions != [] {
      var before := actions[..|actions| - 1];
      OpenedRun(q, before, t);
      OpenedStep(Exec(q, before), actions[|actions| - 1], t, q.tasks[t].phase.epoch);
    }
  }

  lemma {:induction false} NeverPaused(q: Queue, actions: seq<Action>)
    requires !q.paused && Pause !in actions
    ensures !Exec(q, actions).paused
    decreases |actions|
  {
    if actions != [] { NeverPaused(q, actions[..|actions| - 1]); }
  }

  // ------------------------------------------------------- the queue's semaphore

  /** What a step asks of the semaphore. */
  function SemSteps(q: Queue, a: Action): seq<S.Action> {
    match a
    case Pass(t) => if PassEnabled(q, t) && !q.tasks[t].gaveUp then [S.DoEnter(t)] else []
    case Wake(t) => if Has(q, t, Acquiring) then [S.DoWake(t)] else []
    case End(t) => if Has(q, t, Running) then [S.DoRelease(t)] else []
    case Resize(max) => [S.DoResize(max)]
    case _ => []
  }

  /** The run of the semaphore that a run of the queue is. */
  function SemRun(q: Queue, actions: seq<Action>): seq<S.Action> {
    if actions == [] then [] else
    var before := actions[..|actions| - 1];
    SemRun(q, before) + SemSteps(Exec(q, before), actions[|actions| - 1])
  }

  /** The queue's slots are those of a run of the semaphore, so what holds on every run of that holds here. */
  lemma {:induction false} QueueRunsSemaphore(q: Queue, actions: seq<Action>)
    ensures Exec(q, actions).sem == S.Exec(q.sem, SemRun(q, actions))
    decreases |actions|
  {
    hide Step, SemSteps, S.Step;
    if actions != [] {
      var before, a := actions[..|actions| - 1], actions[|actions| - 1];
      QueueRunsSemaphore(q, before);
      SemStepIs(Exec(q, before), a);
      SemAppend(q.sem, SemRun(q, before), SemSteps(Exec(q, before), a));
    }
  }

  lemma SemStepIs(q: Queue, a: Action)
    ensures var steps := SemSteps(q, a);
      |steps| <= 1 && Step(q, a).sem == if steps == [] then q.sem else S.Step(q.sem, steps[0])
  {
    hide S.Without, S.WakeCount;
  }

  lemma SemAppend(s: S.Sem, before: seq<S.Action>, steps: seq<S.Action>)
    requires |steps| <= 1
    ensures S.Exec(s, before + steps) == if steps == [] then S.Exec(s, before) else S.Step(S.Exec(s, before), steps[0])
  {
    if steps == [] {
      assert before + steps == before;
    } else {
      assert steps == [steps[0]];
      S.ExecSnoc(s, before, steps[0]);
    }
  }

  // ------------------------------------------------------- giving up, and idling

  /** The task is at most at its gate, and has not given up. */
  predicate NotStarted(q: Queue, t: TaskId) {
    t < |q.tasks| && !q.tasks[t].started && !q.tasks[t].gaveUp
  }

  /**
   * A timeout or an abort before a task starts is its answer at once, and its body never
   * runs; after the start, or a second time, it changes nothing.
   */
  lemma GiveUpHolds(max: nat, before: seq<Action>, after: seq<Action>, depth: nat, t: TaskId)
    requires max >= 1 && DepthAtMost(before, depth) && DepthAtMost(after, depth)
    ensures var q := Exec(Empty(max), before);
      var given, q' := Exec(Empty(max), before + [GiveUp(t)]), Exec(Empty(max), before + [GiveUp(t)] + after);
      if NotStarted(q, t)
      then given.tasks[t].answer == Some(GaveUpAnswer) && t !in q'.log && t < |q'.tasks| && q'.tasks[t].answer == Some(GaveUpAnswer)
      else given == q
  {
    hide Inv;
    var q := Exec(Empty(max), before);
    RunInv(max, before, depth);
    ExecAround(Empty(max), before, GiveUp(t), after);
    var given := Step(q, GiveUp(t));
    StepInv(q, GiveUp(t), depth);
    if NotStarted(q, t) {
      AnswersAreFinal(given, after, depth, t);
      ExecInv(given, after, depth);
      var q' := Exec(given, after);
      TaskOfInv(q', depth, t);
      LogIsRan(q', depth, t);
    }
  }

  lemma TaskOfInv(q: Queue, depth: nat, t: TaskId)
    requires Inv(q, depth) && t < |q.tasks|
    ensures TaskOk(q, t)
  {
    TaskIsOk(q, t);
  }

  function CountWaits(actions: seq<Action>): nat {
    if actions == [] then 0 else
    CountWaits(actions[..|actions| - 1]) + if actions[|actions| - 1] == WaitIdle then 1 else 0
  }

  /**
   * Waiting for idle, on every run: every wait that was asked for has been fired or still
   * waits, none waits while nothing is in flight, and one is fired only when nothing is.
   */
  lemma {:induction false} IdleWaitersFire(max: nat, actions: seq<Action>, depth: nat)
    requires max >= 1 && DepthAtMost(actions, depth)
    ensures var q := Exec(Empty(max), actions);
      && q.idleFired + q.idleWaiters == CountWaits(actions)
      && (q.inFlight == 0 ==> q.idleWaiters == 0)
      && q.inFlight == RunningCount(q.tasks)
      && (actions != [] && q.idleFired != Exec(Empty(max), actions[..|actions| - 1]).idleFired ==> q.inFlight == 0)
    decreases |actions|
  {
    hide Inv, RunningCount;
    RunInv(max, actions, depth);
    CountOfInv(Exec(Empty(max), actions), depth);
    if actions != [] {
      var before, a := actions[..|actions| - 1], actions[|actions| - 1];
      IdleWaitersFire(max, before, depth);
      RunInv(max, before, depth);
      InFlightStep(Exec(Empty(max), before), a, depth);
    }
  }

  lemma CountOfInv(q: Queue, depth: nat)
    requires Inv(q, depth)
    ensures q.inFlight == RunningCount(q.tasks)
  {
  }

  /** One step of the books of the idle waiters. */
  lemma InFlightStep(q: Queue, a: Action, depth: nat)
    requires Inv(q, depth) && (q.inFlight == 0 ==> q.idleWaiters == 0)
    ensures var q' := Step(q, a);
      && q'.idleFired + q'.idleWaiters == q.idleFired + q.idleWaiters + (if a == WaitIdle then 1 else 0)
      && (q'.inFlight == 0 ==> q'.idleWaiters == 0)
      && (q'.idleFired != q.idleFired ==> q'.inFlight == 0)
  {
    hide TasksOk, PrevOk, LinksOk, InOrder, SemOk, ChainsOk, LogOk;
  }

  // ----------------------------------------------------------------- progress

  /** A section no caller asks for: the queue's own, or the settling of a body. */
  predicate Internal(a: Action) {
    a.Turn? || a.Pass? || a.Wake? || a.Begin? || a.End? || a.Retire?
  }

  function Rank(p: Phase): nat {
    match p
    case Linked => 6
    case AtGate(_) => 5
    case Acquiring => 4
    case Holding => 3
    case Running => 2
    case Settled => 1
    case Retired => 0
  }

  /** The sections still to run before every task is retired, at most. */
  function Work(tasks: seq<Task>): nat {
    if tasks == [] then 0 else Work(tasks[..|tasks| - 1]) + Rank(tasks[|tasks| - 1].phase)
  }

  lemma {:induction false} WorkUpdate(tasks: seq<Task>, t: TaskId, task: Task)
    requires t < |tasks|
    ensures Work(tasks[t := task]) == Work(tasks) - Rank(tasks[t].phase) + Rank(task.phase)
  {
    var n := |tasks| - 1;
    if t == n {
      assert tasks[t := task][..n] == tasks[..n];
    } else {
      assert tasks[t := task][..n] == tasks[..n][t := task];
      WorkUpdate(tasks[..n], t, task);
    }
  }

  /** The first task of the queue that is not retired. */
  lemma {:induction false} FirstOpen(tasks: seq<Task>) returns (t: TaskId)
    requires exists u: TaskId :: u < |tasks| && tasks[u].phase != Retired
    ensures t < |tasks| && tasks[t].phase != Retired && forall u: TaskId | u < t :: tasks[u].phase == Retired
  {
    var n := |tasks| - 1;
    if exists u: TaskId :: u < n && tasks[..n][u].phase != Retired {
      t := FirstOpen(tasks[..n]);
    } else {
      t := n;
      assert forall u: TaskId | u < n :: tasks[u] == tasks[..n][u];
    }
  }

  /** While a task waits for a slot, some task has one or has been promised one. */
  lemma SlotSomewhere(q: Queue, t: TaskId) returns (u: TaskId)
    requires SemOk(q) && Has(q, t, Acquiring)
    ensures u in q.sem.woken || Has(q, u, Holding) || Has(q, u, Running)
    ensures u in q.sem.woken ==> Has(q, u, Acquiring)
  {
    assert InLine(q.sem, t) == 1;
    if q.sem.woken != [] {
      u := q.sem.woken[0];
      assert InLine(q.sem, u) > 0;
    } else {
      assert t in q.sem.waiters;
      assert |q.sem.held| >= 1;
      u :| u in q.sem.held;
    }
  }

  /** A section of the queue's own that is ready to run. */
  ghost predicate Ready(q: Queue, a: Action) {
    match a
    case Turn(t) => TurnEnabled(q, t)
    case Pass(t) => PassEnabled(q, t)
    case Wake(t) => Has(q, t, Acquiring) && t in q.sem.woken
    case Begin(t) => Has(q, t, Holding)
    case End(t) => Has(q, t, Running)
    case Retire(t) => Has(q, t, Settled) && q.tasks[t].entry < |q.entries|
    case _ => false
  }

  /** Running a ready section leaves less to do. */
  lemma ReadyDecreases(q: Queue, a: Action)
    requires Ready(q, a)
    ensures Internal(a) && Work(Step(q, a).tasks) < Work(q.tasks) && Step(q, a).paused == q.paused
  {
    var q' := Step(q, a);
    hide Work;
    WorkUpdate(q.tasks, a.t, q'.tasks[a.t]);
    assert q'.tasks == q.tasks[a.t := q'.tasks[a.t]];
  }

  /** Nothing is ever stuck: while a task is not retired and the queue is not paused, some section is ready. */
  lemma SomethingIsReady(q: Queue, depth: nat) returns (a: Action)
    requires Inv(q, depth) && !q.paused && exists t: TaskId :: t < |q.tasks| && q.tasks[t].phase != Retired
    ensures Ready(q, a)
  {
    hide TasksOk, PrevOk, LinksOk, InOrder, SemOk, CountOk, ChainsOk, LogOk;
    var t := FirstOpen(q.tasks);
    FirstHasPrev(q, t);
    HasEntry(q, t, depth);
    var u := t;
    if q.tasks[t].phase == Acquiring { u := SlotSomewhere(q, t); }
    hide Inv;
    match q.tasks[t].phase
    case Linked => a := Turn(t);
    case AtGate(_) => a := Pass(t);
    case Acquiring => a := if u in q.sem.woken then Wake(u) else if Has(q, u, Holding) then Begin(u) else End(u);
    case Holding => a := Begin(t);
    case Running => a := End(t);
    case Settled => a := Retire(t);
  }

  lemma FirstHasPrev(q: Queue, t: TaskId)
    requires PrevOk(q.tasks) && t < |q.tasks| && forall u: TaskId | u < t :: q.tasks[u].phase == Retired
    ensures q.tasks[t].phase == Linked ==> TurnEnabled(q, t)
  {
  }

  /** Every task retired, no chain left, no slot held and nobody waiting for one. */
  ghost predicate Drained(q: Queue) {
    && (forall t: TaskId | t < |q.tasks| :: q.tasks[t].phase == Retired && q.tasks[t].answer.Some?)
    && q.chains == map[] && q.sem.inFlight == 0 && q.sem.waiters == [] && q.sem.woken == []
  }

  /** A ready section, the settling of a body only when a body runs, and what it leaves. */
  lemma NextSection(q: Queue, depth: nat) returns (a: Action)
    requires Inv(q, depth) && !q.paused && exists t: TaskId :: t < |q.tasks| && q.tasks[t].phase != Retired
    ensures Internal(a) && (a.End? ==> Has(q, a.t, Running))
    ensures Inv(Step(q, a), depth) && !Step(q, a).paused && Work(Step(q, a).tasks) < Work(q.tasks)
  {
    hide Inv, Step, Work;
    a := SomethingIsReady(q, depth);
    ReadyDecreases(q, a);
    StepInv(q, a, depth);
  }

  lemma ExecNothing(q: Queue)
    ensures Exec(q, []) == q
  {
  }

  /**
   * The queue itself is never what is waited for: from any state of an unpaused queue its
   * own sections alone, no body settling, drain it or reach a body that is running.
   */
  lemma {:induction false} OnlyBodiesAreWaitedFor(q: Queue, depth: nat) returns (actions: seq<Action>)
    requires Inv(q, depth) && !q.paused
    ensures |actions| <= Work(q.tasks) && forall a | a in actions :: Internal(a) && !a.End?
    ensures Drained(Exec(q, actions)) || exists t: TaskId :: Has(Exec(q, actions), t, Running)
    decreases Work(q.tasks)
  {
    hide Inv, Step, Drained, Work, Exec;
    ExecNothing(q);
    actions := [];
    if t: TaskId :| Has(q, t, Running) {
      assert Has(Exec(q, []), t, Running);
    } else if exists t: TaskId :: t < |q.tasks| && q.tasks[t].phase != Retired {
      var a := NextSection(q, depth);
      var rest := OnlyBodiesAreWaitedFor(Step(q, a), depth);
      actions := [a] + rest;
      ExecCons(q, a, rest);
    } else {
      AllRetiredIsDrained(q, depth);
    }
  }

  /**
   * If every body settles when it runs, an unpaused queue drains from any state: by its
   * own sections and those settlings, in at most `Work` of them.
   */
  lemma {:induction false} QueueDrains(q: Queue, depth: nat) returns (actions: seq<Action>)
    requires Inv(q, depth) && !q.paused
    ensures |actions| <= Work(q.tasks) && forall a | a in actions :: Internal(a)
    ensures Drained(Exec(q, actions))
    decreases Work(q.tasks)
  {
    hide Inv, Step, Drained, Work, Exec;
    ExecNothing(q);
    if exists t: TaskId :: t < |q.tasks| && q.tasks[t].phase != Retired {
      var a := NextSection(q, depth);
      var rest := QueueDrains(Step(q, a), depth);
      actions := [a] + rest;
      ExecCons(q, a, rest);
    } else {
      actions := [];
      AllRetiredIsDrained(q, depth);
    }
  }

  lemma {:induction false} ExecCons(q: Queue, a: Action, rest: seq<Action>)
    ensures Exec(q, [a] + rest) == Exec(Step(q, a), rest)
    decreases |rest|
  {
    hide Step;
    var all := [a] + rest;
    if rest == [] {
      assert all[..0] == [] && all[0] == a;
    } else {
      ExecCons(q, a, rest[..|rest| - 1]);
      assert all[..|all| - 1] == [a] + rest[..|rest| - 1];
    }
  }

  lemma SomeoneInLine(s: S.Sem)
    ensures s.waiters != [] ==> InLine(s, s.waiters[0]) > 0
    ensures s.woken != [] ==> InLine(s, s.woken[0]) > 0
  {
  }

  lemma AllRetiredIsDrained(q: Queue, depth: nat)
    requires Inv(q, depth) && forall t: TaskId | t < |q.tasks| :: q.tasks[t].phase == Retired
    ensures Drained(q)
  {
    if s :| s in q.chains {
      assert EntryOk(q, s, depth);
      var t := OpenWitness(q.tasks, s);
      assert false;
    }
    SomeoneInLine(q.sem);
    if t :| t in q.sem.held { assert false; }
    forall t: TaskId | t < |q.tasks|
      ensures q.tasks[t].answer.Some?
    {
      TaskIsOk(q, t);
    }
  }

  // ---------------------------------------------------------- paused and idle

  /** A task that may still begin without a resume: past the gate, or at one that was opened since. */
  predicate PastGate(q: Queue, t: TaskId) {
    t < |q.tasks|
    && (q.tasks[t].phase == Acquiring || q.tasks[t].phase == Holding
        || (q.tasks[t].phase.AtGate? && q.tasks[t].phase.epoch != q.gate && !q.tasks[t].gaveUp))
  }

  lemma {:induction false} RunningIsCounted(tasks: seq<Task>, t: TaskId)
    requires t < |tasks| && tasks[t].phase == Running
    ensures RunningCount(tasks) > 0
  {
    if t < |tasks| - 1 {
      RunningIsCounted(tasks[..|tasks| - 1], t);
    }
  }

  /** Paused, with nothing past the gate and nothing running: the state a pause is waited for. */
  ghost predicate Quiet(q: Queue) {
    q.paused && (forall t: TaskId | t < |q.tasks| :: !PastGate(q, t) && q.tasks[t].phase != Running)
  }

  lemma QuietStep(q: Queue, a: Action)
    requires Quiet(q) && a != Resume
    ensures Quiet(Step(q, a)) && Step(q, a).log == q.log
  {
    var q' := Step(q, a);
    forall t: TaskId | t < |q'.tasks|
      ensures !PastGate(q', t) && q'.tasks[t].phase != Running
    {
      if t < |q.tasks| { assert !PastGate(q, t); }
      if !a.Enqueue? && !a.Pause? && !a.Resize? && !a.WaitIdle? && a.t < |q.tasks| { assert !PastGate(q, a.t); }
    }
    if !a.Enqueue? && !a.Pause? && !a.Resize? && !a.WaitIdle? && a.t < |q.tasks| { assert !PastGate(q, a.t); }
  }

  lemma {:induction false} QuietRun(q: Queue, actions: seq<Action>)
    requires Quiet(q) && NoResume(actions)
    ensures Quiet(Exec(q, actions)) && Exec(q, actions).log == q.log
    decreases |actions|
  {
    if actions != [] {
      QuietRun(q, actions[..|actions| - 1]);
      QuietStep(Exec(q, actions[..|actions| - 1]), actions[|actions| - 1]);
    }
  }

  /** A run of `q` without a resume in which a body begins. */
  ghost predicate Begins(q: Queue, actions: seq<Action>) {
    NoResume(actions) && |Exec(q, actions).log| > |q.log|
  }

  lemma BeginNow(q: Queue, t: TaskId)
    requires Has(q, t, Holding)
    ensures Begins(q, [Begin(t)])
  {
    ExecCons(q, Begin(t), []);
    assert [Begin(t)] + [] == [Begin(t)];
  }

  /** A step that begins nothing, then a run that does. */
  lemma BeginAfter(q: Queue, a: Action, rest: seq<Action>)
    requires a != Resume && Step(q, a).log == q.log && Begins(Step(q, a), rest)
    ensures Begins(q, [a] + rest)
  {
    ExecCons(q, a, rest);
  }

  /** With no body running, a task inside `acquire` or holding a slot means some body can begin. */
  lemma SlotBegins(q: Queue, t: TaskId) returns (actions: seq<Action>)
    requires SemOk(q) && (Has(q, t, Acquiring) || Has(q, t, Holding))
    requires forall u: TaskId :: !Has(q, u, Running)
    ensures Begins(q, actions)
  {
    var u := t;
    if Has(q, t, Acquiring) { u := SlotSomewhere(q, t); }
    hide SemOk;
    if Has(q, u, Holding) {
      BeginNow(q, u);
      actions := [Begin(u)];
    } else {
      var q' := Step(q, Wake(u));
      BeginNow(q', u);
      BeginAfter(q, Wake(u), [Begin(u)]);
      actions := [Wake(u)] + [Begin(u)];
    }
  }

  /** A task past the gate of an idle queue lets some body begin. */
  lemma PastGateBegins(q: Queue, depth: nat, t: TaskId) returns (actions: seq<Action>)
    requires Inv(q, depth) && PastGate(q, t) && forall u: TaskId :: !Has(q, u, Running)
    ensures Begins(q, actions)
  {
    hide TasksOk, PrevOk, LinksOk, InOrder, SemOk, CountOk, ChainsOk, LogOk;
    SemOfInv(q, depth);
    if q.tasks[t].phase.AtGate? {
      var q' := Step(q, Pass(t));
      StepInv(q, Pass(t), depth);
      SemOfInv(q', depth);
      hide Inv;
      assert forall u: TaskId :: Has(q', u, Running) ==> Has(q, u, Running);
      var rest := SlotBegins(q', t);
      BeginAfter(q, Pass(t), rest);
      actions := [Pass(t)] + rest;
    } else {
      actions := SlotBegins(q, t);
    }
  }

  /**
   * "Paused and idle" promises that no body begins before a resume if and only if no
   * task is past the gate: neither in `acquire`, nor holding a slot it has not used,
   * nor at a gate that was resumed before this pause.
   */
  lemma IdleIsQuietIff(q: Queue, depth: nat)
    requires Inv(q, depth) && q.paused && q.inFlight == 0
    ensures (exists actions :: Begins(q, actions)) <==> exists t: TaskId :: PastGate(q, t)
  {
    NothingRuns(q, depth);
    hide Inv;
    if t: TaskId :| PastGate(q, t) {
      var actions := PastGateBegins(q, depth, t);
      assert Begins(q, actions);
    } else {
      assert Quiet(q) by {
        forall t: TaskId | t < |q.tasks|
          ensures !PastGate(q, t) && q.tasks[t].phase != Running
        {
          assert !Has(q, t, Running);
        }
      }
      forall actions | NoResume(actions)
        ensures !Begins(q, actions)
      {
        QuietRun(q, actions);
      }
    }
  }

  lemma NothingRuns(q: Queue, depth: nat)
    requires Inv(q, depth) && q.inFlight == 0
    ensures forall u: TaskId :: !Has(q, u, Running)
  {
    forall u: TaskId
      ensures !Has(q, u, Running)
    {
      if Has(q, u, Running) { RunningIsCounted(q.tasks, u); }
    }
  }

  lemma SemOfInv(q: Queue, depth: nat)
    requires Inv(q, depth)
    ensures SemOk(q)
  {
  }
}
