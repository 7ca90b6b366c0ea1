/**
 * The per-device queue as a step system. A step is one synchronous section of the
 * source: everything between two suspensions happens at once, and any interleaving
 * of sections is a run. A step that is not enabled changes nothing.
 */
module AdbQueue {
  import opened Options
  import S = AdbSemaphore

  type Serial = string
  type TaskId = nat

  /**
   * Where a task's link of its chain stands: behind the link before it; at the pause
   * gate that was current at its turn; inside `acquire`; counted by the semaphore;
   * running its body; settled; and taken out of its chain.
   */
  datatype Phase = Linked | AtGate(epoch: nat) | Acquiring | Holding | Running | Settled | Retired

  /** How the caller's promise settled: by giving up, or as the body did. */
  datatype Answer = GaveUpAnswer | RanAnswer

  datatype Task = Task(serial: Serial, entry: nat, prev: Option<TaskId>, phase: Phase,
                       gaveUp: bool, started: bool, ran: bool, answer: Option<Answer>)

  /** A chain: how many of its links are not retired, and the last one's task. */
  datatype Entry = Entry(pending: int, last: Option<TaskId>)

  /** `log` records the bodies in the order they began. */
  datatype Queue = Queue(tasks: seq<Task>, chains: map<Serial, nat>, entries: seq<Entry>,
                         gate: nat, paused: bool, inFlight: int, idleWaiters: nat, idleFired: nat,
                         sem: S.Sem, log: seq<TaskId>)

  function Empty(max: nat): Queue {
    Queue([], map[], [], 0, false, 0, 0, 0, S.Sem(0, max, [], [], {}), [])
  }

  datatype Action =
    | Enqueue(serial: Serial, maxDepth: nat, aborted: bool)
    | Turn(t: TaskId) | Pass(t: TaskId) | Wake(t: TaskId) | Begin(t: TaskId) | End(t: TaskId) | Retire(t: TaskId)
    | GiveUp(t: TaskId)
    | Pause | Resume | Resize(max: nat) | WaitIdle

  // -------------------------------------------------------------------- steps

  function ChainOf(q: Queue, serial: Serial): Entry {
    if serial in q.chains && q.chains[serial] < |q.entries| then q.entries[q.chains[serial]] else Entry(0, None)
  }

  /** `pending(serial)`. */
  function Pending(q: Queue, serial: Serial): int {
    ChainOf(q, serial).pending
  }

  /** `run`, up to building the chain: refused at the depth cap, before anything changes. */
  function EnqueueStep(q: Queue, serial: Serial, maxDepth: nat, aborted: bool): Queue {
    var e := ChainOf(q, serial);
    if e.pending >= maxDepth then q else
    var known := serial in q.chains && q.chains[serial] < |q.entries|;
    var at := if known then q.chains[serial] else |q.entries|;
    var e' := Entry(e.pending + 1, Some(|q.tasks|));
    q.(tasks := q.tasks + [Task(serial, at, e.last, Linked, aborted, false, false, if aborted then Some(GaveUpAnswer) else None)],
       entries := if known then q.entries[at := e'] else q.entries + [e'],
       chains := q.chains[serial := at])
  }

  predicate Has(q: Queue, t: TaskId, phase: Phase) {
    t < |q.tasks| && q.tasks[t].phase == phase
  }

  predicate TurnEnabled(q: Queue, t: TaskId) {
    && Has(q, t, Linked)
    && match q.tasks[t].prev case None => true case Some(p) => Has(q, p, Retired)
  }

  /** The gate of `epoch` is resolved unless it is the current one and the queue is paused. */
  predicate GateOpen(q: Queue, epoch: nat) {
    !(q.paused && epoch == q.gate)
  }

  predicate PassEnabled(q: Queue, t: TaskId) {
    t < |q.tasks| && q.tasks[t].phase.AtGate? && GateOpen(q, q.tasks[t].phase.epoch)
  }

  function SetPhase(q: Queue, t: TaskId, phase: Phase): Queue
    requires t < |q.tasks|
  {
    q.(tasks := q.tasks[t := q.tasks[t].(phase := phase)])
  }

  /** Past the gate: a task that gave up settles, any other starts and asks for a slot. */
  function PassStep(q: Queue, t: TaskId): Queue
    requires t < |q.tasks|
  {
    if q.tasks[t].gaveUp then SetPhase(q, t, Settled) else
    var phase := if q.sem.inFlight < q.sem.max then Holding else Acquiring;
    q.(tasks := q.tasks[t := q.tasks[t].(phase := phase, started := true)], sem := S.Enter(q.sem, t))
  }

  function BeginStep(q: Queue, t: TaskId): Queue
    requires t < |q.tasks|
  {
    q.(tasks := q.tasks[t := q.tasks[t].(phase := Running, ran := true)],
       inFlight := q.inFlight + 1, log := q.log + [t])
  }

  /** The body is over: the idle waiters fire before the slot is released. */
  function EndStep(q: Queue, t: TaskId): Queue
    requires t < |q.tasks|
  {
    var answer := if q.tasks[t].answer.Some? then q.tasks[t].answer else Some(RanAnswer);
    var idle := q.inFlight - 1 == 0;
    q.(tasks := q.tasks[t := q.tasks[t].(phase := Settled, answer := answer)],
       inFlight := q.inFlight - 1,
       idleFired := if idle then q.idleFired + q.idleWaiters else q.idleFired,
       idleWaiters := if idle then 0 else q.idleWaiters,
       sem := S.Release(q.sem, t))
  }

  /** The link leaves its chain; the last one takes the chain's map entry with it. */
  function RetireStep(q: Queue, t: TaskId): Queue
    requires t < |q.tasks| && q.tasks[t].entry < |q.entries|
  {
    var task := q.tasks[t];
    var e := q.entries[task.entry];
    q.(tasks := q.tasks[t := task.(phase := Retired)],
       entries := q.entries[task.entry := e.(pending := e.pending - 1)],
       chains := if e.pending - 1 == 0 then q.chains - {task.serial} else q.chains)
  }

  /** A timeout or an abort: too late once the task has started, or has given up before. */
  function GiveUpStep(q: Queue, t: TaskId): Queue
    requires t < |q.tasks|
  {
    var task := q.tasks[t];
    if task.started || task.gaveUp then q else
    q.(tasks := q.tasks[t := task.(gaveUp := true, answer := Some(GaveUpAnswer))])
  }

  function Step(q: Queue, a: Action): Queue {
    match a
    case Enqueue(serial, maxDepth, aborted) => EnqueueStep(q, serial, maxDepth, aborted)
    case Turn(t) => if TurnEnabled(q, t) then SetPhase(q, t, AtGate(q.gate)) else q
    case Pass(t) => if PassEnabled(q, t) then PassStep(q, t) else q
    case Wake(t) =>
      if Has(q, t, Acquiring) && t in q.sem.woken
      then SetPhase(q, t, Holding).(sem := S.TakeWake(q.sem, t)) else q
    case Begin(t) => if Has(q, t, Holding) then BeginStep(q, t) else q
    case End(t) => if Has(q, t, Running) then EndStep(q, t) else q
    case Retire(t) => if Has(q, t, Settled) && q.tasks[t].entry < |q.entries| then RetireStep(q, t) else q
    case GiveUp(t) => if t < |q.tasks| then GiveUpStep(q, t) else q
    case Pause => if q.paused then q else q.(paused := true, gate := q.gate + 1)
    case Resume => q.(paused := false)
    case Resize(max) => q.(sem := S.Resize(q.sem, max))
    case WaitIdle => if q.inFlight == 0 then q.(idleFired := q.idleFired + 1) else q.(idleWaiters := q.idleWaiters + 1)
  }

  function Exec(q: Queue, actions: seq<Action>): Queue {
    if actions == [] then q else Step(Exec(q, actions[..|actions| - 1]), actions[|actions| - 1])
  }

  // ---------------------------------------------------------------- invariant

  /** The links of `serial` that are not retired. */
  function Open(tasks: seq<Task>, serial: Serial): nat {
    if tasks == [] then 0 else
    Open(tasks[..|tasks| - 1], serial) + Counts(tasks[|tasks| - 1], serial)
  }

  function Counts(t: Task, serial: Serial): nat {
    if t.serial == serial && t.phase != Retired then 1 else 0
  }

  function RunningCount(tasks: seq<Task>): nat {
    if tasks == [] then 0 else
    RunningCount(tasks[..|tasks| - 1]) + if tasks[|tasks| - 1].phase == Running then 1 else 0
  }

  predicate SlotPhase(p: Phase) { p == Holding || p == Running }

  /** What a task's own flags and answer say in each phase. */
  predicate TaskOk(q: Queue, t: TaskId)
    requires t < |q.tasks|
  {
    var k := q.tasks[t];
    && (k.phase.AtGate? ==> k.phase.epoch <= q.gate)
    && (k.phase == Linked || k.phase.AtGate? ==> !k.started)
    && (k.phase == Acquiring || k.phase == Holding ==> k.started && !k.ran)
    && (k.phase == Running ==> k.started && k.ran)
    && (k.phase == Settled || k.phase == Retired ==> k.ran != k.gaveUp)
    && (k.ran ==> k.started) && (k.started ==> !k.gaveUp)
    && (k.gaveUp ==> k.answer == Some(GaveUpAnswer))
    && (!k.gaveUp ==> k.answer == if k.phase == Settled || k.phase == Retired then Some(RanAnswer) else None)
  }

  ghost predicate TasksOk(q: Queue) {
    forall t: TaskId | t < |q.tasks| :: TaskOk(q, t)
  }

  /** A task's predecessor is the latest earlier task of its serial; without one, all of those are retired. */
  ghost predicate LinksOk(tasks: seq<Task>) {
    forall u: TaskId, t: TaskId | u < t < |tasks| && tasks[u].serial == tasks[t].serial ::
      match tasks[t].prev
      case None => tasks[u].phase == Retired
      case Some(p) => u <= p < t && tasks[p].serial == tasks[t].serial
  }

  ghost predicate PrevOk(tasks: seq<Task>) {
    forall t: TaskId | t < |tasks| && tasks[t].prev.Some? ::
      tasks[t].prev.value < t && tasks[tasks[t].prev.value].serial == tasks[t].serial
  }

  /** A link moves only when every earlier link of its serial is retired. */
  ghost predicate InOrder(tasks: seq<Task>) {
    forall u: TaskId, t: TaskId | u < t < |tasks| && tasks[u].serial == tasks[t].serial && tasks[t].phase != Linked ::
      tasks[u].phase == Retired
  }

  /** How often `t` stands in the semaphore's waiting line or among its woken tickets. */
  function InLine(s: S.Sem, t: S.Ticket): nat {
    multiset(s.waiters)[t] + multiset(s.woken)[t]
  }

  /** The semaphore's tickets are the tasks inside `acquire` and the tasks with a slot. */
  ghost predicate SemOk(q: Queue) {
    && q.sem.max >= 1
    && S.NoLostWakeUp(q.sem)
    && q.sem.inFlight == |q.sem.held|
    && (forall t: TaskId :: t in q.sem.held <==> t < |q.tasks| && SlotPhase(q.tasks[t].phase))
    && (forall t: TaskId :: InLine(q.sem, t) == if Has(q, t, Acquiring) then 1 else 0)
  }

  ghost predicate CountOk(q: Queue) {
    q.inFlight == RunningCount(q.tasks)
  }

  ghost predicate EntryOk(q: Queue, serial: Serial, depth: nat)
    requires serial in q.chains
  {
    var at := q.chains[serial];
    && at < |q.entries|
    && q.entries[at].pending == Open(q.tasks, serial)
    && 0 < q.entries[at].pending <= depth
    && match q.entries[at].last
       case None => false
       case Some(p) =>
         && p < |q.tasks| && q.tasks[p].serial == serial
         && forall u: TaskId | p < u < |q.tasks| :: q.tasks[u].serial != serial
  }

  /** A serial is in the map exactly while it has an unretired link, under the entry those links hold. */
  ghost predicate ChainsOk(q: Queue, depth: nat) {
    && (forall t: TaskId | t < |q.tasks| && q.tasks[t].phase != Retired ::
          q.tasks[t].serial in q.chains && q.chains[q.tasks[t].serial] == q.tasks[t].entry)
    && (forall s: Serial | s in q.chains :: EntryOk(q, s, depth))
    && (forall s: Serial, r: Serial | s in q.chains && r in q.chains && s != r :: q.chains[s] != q.chains[r])
  }

  predicate SameSerial(q: Queue, t: TaskId, u: TaskId) {
    t < |q.tasks| && u < |q.tasks| && q.tasks[t].serial == q.tasks[u].serial
  }

  /** The log holds the tasks that ran, each serial's in enqueue order. */
  ghost predicate LogOk(q: Queue) {
    && (forall t: TaskId :: t in q.log <==> t < |q.tasks| && q.tasks[t].ran)
    && (forall i, j | 0 <= i < j < |q.log| && SameSerial(q, q.log[i], q.log[j]) :: q.log[i] < q.log[j])
  }

  ghost predicate Inv(q: Queue, depth: nat) {
    && TasksOk(q) && PrevOk(q.tasks) && LinksOk(q.tasks) && InOrder(q.tasks)
    && SemOk(q) && CountOk(q) && ChainsOk(q, depth) && LogOk(q)
  }

  lemma EmptyInv(max: nat, depth: nat)
    requires max >= 1
    ensures Inv(Empty(max), depth)
  {
  }

  // ------------------------------------------------------------- preservation

  lemma {:induction false} OpenUpdate(tasks: seq<Task>, t: TaskId, task: Task, serial: Serial)
    requires t < |tasks|
    ensures Open(tasks[t := task], serial) == Open(tasks, serial) - Counts(tasks[t], serial) + Counts(task, serial)
  {
    var n := |tasks| - 1;
    if t == n {
      assert tasks[t := task][..n] == tasks[..n];
    } else {
      assert tasks[t := task][..n] == tasks[..n][t := task];
      OpenUpdate(tasks[..n], t, task, serial);
    }
  }

  lemma {:induction false} RunningUpdate(tasks: seq<Task>, t: TaskId, task: Task)
    requires t < |tasks|
    ensures RunningCount(tasks[t := task]) == RunningCount(tasks)
      - (if tasks[t].phase == Running then 1 else 0) + (if task.phase == Running then 1 else 0)
  {
    var n := |tasks| - 1;
    if t == n {
      assert tasks[t := task][..n] == tasks[..n];
    } else {
      assert tasks[t := task][..n] == tasks[..n][t := task];
      RunningUpdate(tasks[..n], t, task);
    }
  }

  lemma {:induction false} OpenPositive(tasks: seq<Task>, t: TaskId)
    requires t < |tasks| && tasks[t].phase != Retired
    ensures Open(tasks, tasks[t].serial) > 0
  {
    if t < |tasks| - 1 {
      OpenPositive(tasks[..|tasks| - 1], t);
    }
  }

  lemma {:induction false} OpenWitness(tasks: seq<Task>, serial: Serial) returns (t: TaskId)
    requires Open(tasks, serial) > 0
    ensures t < |tasks| && tasks[t].serial == serial && tasks[t].phase != Retired
  {
    var n := |tasks| - 1;
    if Counts(tasks[n], serial) == 1 {
      t := n;
    } else {
      t := OpenWitness(tasks[..n], serial);
    }
  }

  /** `q'` differs from `q` in one task, which keeps its serial, entry and predecessor. */
  predicate OneTask(q: Queue, q': Queue, t: TaskId) {
    && t < |q.tasks| && |q'.tasks| == |q.tasks|
    && q'.tasks == q.tasks[t := q'.tasks[t]]
    && q'.tasks[t].serial == q.tasks[t].serial && q'.tasks[t].entry == q.tasks[t].entry
    && q'.tasks[t].prev == q.tasks[t].prev
  }

  /** Order survives a task that moves on, when all before it are retired or it was moving already. */
  lemma OneTaskOrder(q: Queue, q': Queue, t: TaskId)
    requires OneTask(q, q', t) && PrevOk(q.tasks) && LinksOk(q.tasks) && InOrder(q.tasks)
    requires q.tasks[t].phase != Retired
    requires q.tasks[t].phase != Linked || TurnEnabled(q, t) || q'.tasks[t].phase == Linked
    ensures PrevOk(q'.tasks) && LinksOk(q'.tasks) && InOrder(q'.tasks)
  {
    var p := q.tasks[t].prev;
    forall u: TaskId | u < t && q.tasks[u].serial == q.tasks[t].serial && q'.tasks[t].phase != Linked
      ensures q.tasks[u].phase == Retired
    {
      if q.tasks[t].phase == Linked && p.Some? && u < p.value {
        assert q.tasks[p.value].phase == Retired;
      }
    }
  }

  /** The chains survive a task that moves on without retiring. */
  lemma OneTaskChains(q: Queue, q': Queue, t: TaskId, depth: nat)
    requires OneTask(q, q', t) && ChainsOk(q, depth)
    requires q.tasks[t].phase != Retired && q'.tasks[t].phase != Retired
    requires q'.chains == q.chains && q'.entries == q.entries
    ensures ChainsOk(q', depth)
  {
    hide EntryOk;
    forall s: Serial | s in q'.chains
      ensures EntryOk(q', s, depth)
    {
      OneTaskEntry(q, q', t, depth, s);
    }
  }

  lemma OneTaskEntry(q: Queue, q': Queue, t: TaskId, depth: nat, s: Serial)
    requires OneTask(q, q', t) && s in q.chains && EntryOk(q, s, depth)
    requires q.tasks[t].phase != Retired && q'.tasks[t].phase != Retired
    requires q'.chains == q.chains && q'.entries == q.entries
    ensures EntryOk(q', s, depth)
  {
    hide Open;
    OpenUpdate(q.tasks, t, q'.tasks[t], s);
  }

  // The semaphore's part, for each operation on it.

  lemma WithoutCounts(ts: seq<S.Ticket>, t: S.Ticket)
    requires t in ts
    ensures multiset(S.Without(ts, t)) == multiset(ts) - multiset{t}
  {
    assert ts == [ts[0]] + ts[1..];
    if ts[0] != t {
      WithoutCounts(ts[1..], t);
    }
  }

  lemma EnterLine(s: S.Sem, t: S.Ticket, x: S.Ticket)
    ensures InLine(S.Enter(s, t), x) == InLine(s, x) + if x == t && s.inFlight >= s.max then 1 else 0
  {
  }

  lemma TakeWakeLine(s: S.Sem, t: S.Ticket, x: S.Ticket)
    requires t in s.woken
    ensures InLine(S.TakeWake(s, t), x) == InLine(s, x) - if x == t then 1 else 0
  {
    WithoutCounts(s.woken, t);
  }

  lemma ReleaseLine(s: S.Sem, t: S.Ticket, x: S.Ticket)
    ensures InLine(S.Release(s, t), x) == InLine(s, x)
  {
    if s.waiters != [] {
      assert s.waiters == [s.waiters[0]] + s.waiters[1..];
    }
  }

  lemma ResizeLine(s: S.Sem, max: nat, x: S.Ticket)
    ensures InLine(S.Resize(s, max), x) == InLine(s, x)
  {
    var k := S.WakeCount(s, max);
    assert s.waiters == s.waiters[..k] + s.waiters[k..];
  }

  // Each step keeps the invariant.

  lemma TaskIsOk(q: Queue, t: TaskId)
    requires TasksOk(q) && t < |q.tasks|
    ensures TaskOk(q, t)
  {
  }

  /** One task changed: it must be fine itself, and be counted if it began or stopped running. */
  lemma OneTaskFlags(q: Queue, q': Queue, t: TaskId)
    requires OneTask(q, q', t) && TasksOk(q) && CountOk(q) && TaskOk(q', t) && q'.gate == q.gate
    requires q'.inFlight == q.inFlight
      - (if q.tasks[t].phase == Running then 1 else 0) + (if q'.tasks[t].phase == Running then 1 else 0)
    ensures TasksOk(q') && CountOk(q')
  {
    RunningUpdate(q.tasks, t, q'.tasks[t]);
    forall u: TaskId | u < |q'.tasks|
      ensures TaskOk(q', u)
    {
      assert TaskOk(q, u);
    }
  }

  lemma KeepTurn(q: Queue, t: TaskId, depth: nat)
    requires Inv(q, depth) && TurnEnabled(q, t)
    ensures Inv(SetPhase(q, t, AtGate(q.gate)), depth)
  {
    hide TasksOk, PrevOk, LinksOk, InOrder, SemOk, CountOk, ChainsOk, LogOk, RunningCount, Open;
    var q' := SetPhase(q, t, AtGate(q.gate));
    TaskIsOk(q, t);
    OneTaskFlags(q, q', t);
    OneTaskOrder(q, q', t);
    OneTaskChains(q, q', t, depth);
    SamePhases(q, q', t);
  }

  /** A step of one task that the semaphore and the log do not see. */
  lemma SamePhases(q: Queue, q': Queue, t: TaskId)
    requires OneTask(q, q', t) && SemOk(q) && LogOk(q) && q'.sem == q.sem && q'.log == q.log
    requires SlotPhase(q'.tasks[t].phase) == SlotPhase(q.tasks[t].phase)
    requires q'.tasks[t].phase == Acquiring <==> q.tasks[t].phase == Acquiring
    requires q'.tasks[t].ran == q.tasks[t].ran
    ensures SemOk(q') && LogOk(q')
  {
    forall x: TaskId
      ensures InLine(q'.sem, x) == if Has(q', x, Acquiring) then 1 else 0
    {
      assert InLine(q.sem, x) == if Has(q, x, Acquiring) then 1 else 0;
    }
    SameLog(q, q', t);
  }

  lemma SameLog(q: Queue, q': Queue, t: TaskId)
    requires OneTask(q, q', t) && LogOk(q) && q'.log == q.log && q'.tasks[t].ran == q.tasks[t].ran
    ensures LogOk(q')
  {
    forall i, j | 0 <= i < j < |q'.log| && SameSerial(q', q'.log[i], q'.log[j])
      ensures q'.log[i] < q'.log[j]
    {
      assert SameSerial(q, q.log[i], q.log[j]);
    }
  }

  lemma KeepGiveUp(q: Queue, t: TaskId, depth: nat)
    requires Inv(q, depth) && t < |q.tasks|
    ensures Inv(GiveUpStep(q, t), depth)
  {
    hide TasksOk, PrevOk, LinksOk, InOrder, SemOk, CountOk, ChainsOk, LogOk, RunningCount, Open;
    var task := q.tasks[t];
    if !task.started && !task.gaveUp {
      var q' := GiveUpStep(q, t);
      TaskIsOk(q, t);
      OneTaskFlags(q, q', t);
      OneTaskOrder(q, q', t);
      OneTaskChains(q, q', t, depth);
      SamePhases(q, q', t);
    }
  }

  lemma KeepPass(q: Queue, t: TaskId, depth: nat)
    requires Inv(q, depth) && PassEnabled(q, t)
    ensures Inv(PassStep(q, t), depth)
  {
    hide TasksOk, PrevOk, LinksOk, InOrder, SemOk, CountOk, ChainsOk, LogOk, RunningCount, Open;
    var q' := PassStep(q, t);
    TaskIsOk(q, t);
    OneTaskFlags(q, q', t);
    OneTaskOrder(q, q', t);
    OneTaskChains(q, q', t, depth);
    if q.tasks[t].gaveUp {
      SamePhases(q, q', t);
    } else {
      SameLog(q, q', t);
      KeepEnter(q, q', t);
    }
  }

  lemma KeepEnter(q: Queue, q': Queue, t: TaskId)
    requires OneTask(q, q', t) && SemOk(q) && q.tasks[t].phase.AtGate? && q'.sem == S.Enter(q.sem, t)
    requires q'.tasks[t].phase == if q.sem.inFlight < q.sem.max then Holding else Acquiring
    ensures SemOk(q')
  {
    hide InLine, S.NoLostWakeUp;
    forall x: TaskId
      ensures InLine(q'.sem, x) == if Has(q', x, Acquiring) then 1 else 0
    {
      EnterLine(q.sem, t, x);
      assert InLine(q.sem, x) == if Has(q, x, Acquiring) then 1 else 0;
    }
    S.StepLosesNoWakeUp(q.sem, S.DoEnter(t));
    EnterHolds(q, q', t);
  }

  /** Holding a slot and being held go together over an acquire. */
  lemma EnterHolds(q: Queue, q': Queue, t: TaskId)
    requires OneTask(q, q', t) && q.tasks[t].phase.AtGate? && q'.sem == S.Enter(q.sem, t)
    requires q'.tasks[t].phase == if q.sem.inFlight < q.sem.max then Holding else Acquiring
    requires q.sem.inFlight == |q.sem.held|
    requires forall x: TaskId :: x in q.sem.held <==> x < |q.tasks| && SlotPhase(q.tasks[x].phase)
    ensures q'.sem.inFlight == |q'.sem.held| && q'.sem.max == q.sem.max
    ensures forall x: TaskId :: x in q'.sem.held <==> x < |q'.tasks| && SlotPhase(q'.tasks[x].phase)
  {
    assert t !in q.sem.held;
  }

  lemma KeepWake(q: Queue, t: TaskId, depth: nat)
    requires Inv(q, depth) && Has(q, t, Acquiring) && t in q.sem.woken
    ensures Inv(SetPhase(q, t, Holding).(sem := S.TakeWake(q.sem, t)), depth)
  {
    hide TasksOk, PrevOk, LinksOk, InOrder, SemOk, CountOk, ChainsOk, LogOk, RunningCount, Open;
    var q' := SetPhase(q, t, Holding).(sem := S.TakeWake(q.sem, t));
    TaskIsOk(q, t);
    OneTaskFlags(q, q', t);
    OneTaskOrder(q, q', t);
    OneTaskChains(q, q', t, depth);
    SameLog(q, q', t);
    KeepTakeWake(q, q', t);
  }

  lemma KeepTakeWake(q: Queue, q': Queue, t: TaskId)
    requires OneTask(q, q', t) && SemOk(q) && Has(q, t, Acquiring) && t in q.sem.woken
    requires q'.tasks[t].phase == Holding && q'.sem == S.TakeWake(q.sem, t)
    ensures SemOk(q')
  {
    forall x: TaskId
      ensures InLine(q'.sem, x) == if Has(q', x, Acquiring) then 1 else 0
    {
      TakeWakeLine(q.sem, t, x);
      assert InLine(q.sem, x) == if Has(q, x, Acquiring) then 1 else 0;
    }
    S.StepLosesNoWakeUp(q.sem, S.DoWake(t));
  }

  lemma KeepBegin(q: Queue, t: TaskId, depth: nat)
    requires Inv(q, depth) && Has(q, t, Holding)
    ensures Inv(BeginStep(q, t), depth)
  {
    hide TasksOk, PrevOk, LinksOk, InOrder, SemOk, CountOk, ChainsOk, LogOk, RunningCount, Open;
    var q' := BeginStep(q, t);
    TaskIsOk(q, t);
    OneTaskFlags(q, q', t);
    OneTaskOrder(q, q', t);
    OneTaskChains(q, q', t, depth);
    KeepSlot(q, q', t);
    BeginsInOrder(q, q', t);
  }

  lemma KeepSlot(q: Queue, q': Queue, t: TaskId)
    requires OneTask(q, q', t) && SemOk(q) && Has(q, t, Holding)
    requires q'.tasks[t].phase == Running && q'.sem == q.sem
    ensures SemOk(q')
  {
    forall x: TaskId
      ensures InLine(q'.sem, x) == if Has(q', x, Acquiring) then 1 else 0
    {
      assert InLine(q.sem, x) == if Has(q, x, Acquiring) then 1 else 0;
    }
  }

  /** A body that begins is later than every body of its serial that has. */
  lemma BeginsInOrder(q: Queue, q': Queue, t: TaskId)
    requires TasksOk(q) && InOrder(q.tasks) && LogOk(q) && Has(q, t, Holding)
    requires OneTask(q, q', t) && q'.tasks[t].ran && q'.log == q.log + [t]
    ensures LogOk(q')
  {
    assert TaskOk(q, t);
    forall i, j | 0 <= i < j < |q'.log| && SameSerial(q', q'.log[i], q'.log[j])
      ensures q'.log[i] < q'.log[j]
    {
      var u := q'.log[i];
      assert u in q.log;
      if j < |q.log| {
        assert SameSerial(q, q.log[i], q.log[j]);
      } else {
        assert q.tasks[u].ran && TaskOk(q, u);
      }
    }
  }

  lemma KeepEnd(q: Queue, t: TaskId, depth: nat)
    requires Inv(q, depth) && Has(q, t, Running)
    ensures Inv(EndStep(q, t), depth)
  {
    hide TasksOk, PrevOk, LinksOk, InOrder, SemOk, CountOk, ChainsOk, LogOk, RunningCount, Open;
    var q' := EndStep(q, t);
    TaskIsOk(q, t);
    OneTaskFlags(q, q', t);
    OneTaskOrder(q, q', t);
    OneTaskChains(q, q', t, depth);
    SameLog(q, q', t);
    KeepRelease(q, q', t);
  }

  lemma KeepRelease(q: Queue, q': Queue, t: TaskId)
    requires OneTask(q, q', t) && SemOk(q) && Has(q, t, Running)
    requires q'.tasks[t].phase == Settled && q'.sem == S.Release(q.sem, t)
    ensures SemOk(q')
  {
    forall x: TaskId
      ensures InLine(q'.sem, x) == if Has(q', x, Acquiring) then 1 else 0
    {
      ReleaseLine(q.sem, t, x);
      assert InLine(q.sem, x) == if Has(q, x, Acquiring) then 1 else 0;
    }
    S.StepLosesNoWakeUp(q.sem, S.DoRelease(t));
  }

  lemma KeepResize(q: Queue, max: nat, depth: nat)
    requires Inv(q, depth)
    ensures Inv(q.(sem := S.Resize(q.sem, max)), depth)
  {
    var q' := q.(sem := S.Resize(q.sem, max));
    forall x: TaskId
      ensures InLine(q'.sem, x) == if Has(q', x, Acquiring) then 1 else 0
    {
      ResizeLine(q.sem, max, x);
      assert InLine(q.sem, x) == if Has(q, x, Acquiring) then 1 else 0;
    }
    S.StepLosesNoWakeUp(q.sem, S.DoResize(max));
    SameBooks(q, q', depth);
  }

  /** A step that leaves tasks, chains and log alone and closes no gate behind a task. */
  lemma SameBooks(q: Queue, q': Queue, depth: nat)
    requires Inv(q, depth) && q'.tasks == q.tasks && q'.chains == q.chains && q'.entries == q.entries
    requires q'.log == q.log && q'.gate >= q.gate && q'.inFlight == q.inFlight
    ensures TasksOk(q') && PrevOk(q'.tasks) && LinksOk(q'.tasks) && InOrder(q'.tasks)
    ensures CountOk(q') && ChainsOk(q', depth) && LogOk(q')
    ensures q'.sem == q.sem ==> SemOk(q')
  {
    forall t: TaskId | t < |q'.tasks|
      ensures TaskOk(q', t)
    {
      assert TaskOk(q, t);
    }
    forall s: Serial | s in q'.chains
      ensures EntryOk(q', s, depth)
    {
      assert EntryOk(q, s, depth);
    }
    forall i, j | 0 <= i < j < |q'.log| && SameSerial(q', q'.log[i], q'.log[j])
      ensures q'.log[i] < q'.log[j]
    {
      assert SameSerial(q, q.log[i], q.log[j]);
    }
    if q'.sem == q.sem {
      forall x: TaskId
        ensures InLine(q'.sem, x) == if Has(q', x, Acquiring) then 1 else 0
      {
        assert InLine(q.sem, x) == if Has(q, x, Acquiring) then 1 else 0;
      }
    }
  }

  lemma KeepRetire(q: Queue, t: TaskId, depth: nat)
    requires Inv(q, depth) && Has(q, t, Settled)
    ensures q.tasks[t].entry < |q.entries| && Inv(RetireStep(q, t), depth)
  {
    hide TasksOk, PrevOk, LinksOk, InOrder, SemOk, CountOk, LogOk, RunningCount, Open;
    HasEntry(q, t, depth);
    hide ChainsOk;
    var q' := RetireStep(q, t);
    TaskIsOk(q, t);
    OneTaskFlags(q, q', t);
    RetireOrder(q, q', t);
    RetireChains(q, t, depth);
    SamePhases(q, q', t);
  }

  lemma HasEntry(q: Queue, t: TaskId, depth: nat)
    requires ChainsOk(q, depth) && t < |q.tasks| && q.tasks[t].phase != Retired
    ensures q.tasks[t].entry < |q.entries|
  {
    assert EntryOk(q, q.tasks[t].serial, depth);
  }

  lemma RetireOrder(q: Queue, q': Queue, t: TaskId)
    requires OneTask(q, q', t) && PrevOk(q.tasks) && LinksOk(q.tasks) && InOrder(q.tasks)
    requires q.tasks[t].phase == Settled && q'.tasks[t].phase == Retired
    ensures PrevOk(q'.tasks) && LinksOk(q'.tasks) && InOrder(q'.tasks)
  {
  }

  lemma RetireChains(q: Queue, t: TaskId, depth: nat)
    requires ChainsOk(q, depth) && Has(q, t, Settled) && q.tasks[t].entry < |q.entries|
    ensures ChainsOk(RetireStep(q, t), depth)
  {
    hide EntryOk;
    var q' := RetireStep(q, t);
    forall u: TaskId | u < |q'.tasks| && q'.tasks[u].phase != Retired
      ensures q'.tasks[u].serial in q'.chains && q'.chains[q'.tasks[u].serial] == q'.tasks[u].entry
    {
      RetireLinked(q, t, depth, u);
    }
    forall s: Serial | s in q'.chains
      ensures EntryOk(q', s, depth)
    {
      RetireEntry(q, t, depth, s);
    }
  }

  /** A task still open keeps its chain: the count of its chain stays positive. */
  lemma RetireLinked(q: Queue, t: TaskId, depth: nat, u: TaskId)
    requires ChainsOk(q, depth) && Has(q, t, Settled) && q.tasks[t].entry < |q.entries|
    requires u < |q.tasks| && RetireStep(q, t).tasks[u].phase != Retired
    ensures var q' := RetireStep(q, t);
      q'.tasks[u].serial in q'.chains && q'.chains[q'.tasks[u].serial] == q'.tasks[u].entry
  {
    hide Open;
    var q' := RetireStep(q, t);
    var serial := q.tasks[t].serial;
    assert EntryOk(q, serial, depth);
    OpenUpdate(q.tasks, t, q'.tasks[t], serial);
    if q.tasks[u].serial == serial { OpenPositive(q'.tasks, u); }
  }

  lemma RetireEntry(q: Queue, t: TaskId, depth: nat, s: Serial)
    requires ChainsOk(q, depth) && Has(q, t, Settled) && q.tasks[t].entry < |q.entries|
    requires s in RetireStep(q, t).chains
    ensures EntryOk(RetireStep(q, t), s, depth)
  {
    hide Open;
    var q' := RetireStep(q, t);
    assert EntryOk(q, s, depth);
    OpenUpdate(q.tasks, t, q'.tasks[t], s);
  }

  lemma OpenAppend(tasks: seq<Task>, task: Task, serial: Serial)
    ensures Open(tasks + [task], serial) == Open(tasks, serial) + Counts(task, serial)
  {
    assert (tasks + [task])[..|tasks|] == tasks;
  }

  lemma KeepEnqueue(q: Queue, serial: Serial, maxDepth: nat, aborted: bool, depth: nat)
    requires Inv(q, depth) && maxDepth <= depth
    ensures Inv(EnqueueStep(q, serial, maxDepth, aborted), depth)
  {
    var q' := EnqueueStep(q, serial, maxDepth, aborted);
    if ChainOf(q, serial).pending < maxDepth {
      EnqueueChains(q, serial, maxDepth, aborted, depth);
      EnqueueOrder(q, serial, maxDepth, aborted, depth);
      EnqueueRest(q, serial, maxDepth, aborted, depth);
    }
  }

  lemma EnqueueRest(q: Queue, serial: Serial, maxDepth: nat, aborted: bool, depth: nat)
    requires Inv(q, depth) && ChainOf(q, serial).pending < maxDepth
    ensures var q' := EnqueueStep(q, serial, maxDepth, aborted); TasksOk(q') && SemOk(q') && CountOk(q') && LogOk(q')
  {
    var q' := EnqueueStep(q, serial, maxDepth, aborted);
    assert q'.tasks[..|q.tasks|] == q.tasks;
    EnqueueTasks(q, serial, maxDepth, aborted);
    EnqueueSem(q, q');
    EnqueueLog(q, q');
  }

  lemma EnqueueTasks(q: Queue, serial: Serial, maxDepth: nat, aborted: bool)
    requires TasksOk(q) && ChainOf(q, serial).pending < maxDepth
    ensures TasksOk(EnqueueStep(q, serial, maxDepth, aborted))
  {
    var q' := EnqueueStep(q, serial, maxDepth, aborted);
    forall t: TaskId | t < |q'.tasks|
      ensures TaskOk(q', t)
    {
      if t < |q.tasks| { assert TaskOk(q, t); }
    }
  }

  lemma EnqueueSem(q: Queue, q': Queue)
    requires SemOk(q) && q'.sem == q.sem && |q'.tasks| == |q.tasks| + 1 && q'.tasks[..|q.tasks|] == q.tasks
    requires q'.tasks[|q.tasks|].phase == Linked
    ensures SemOk(q')
  {
    hide InLine, S.NoLostWakeUp;
    forall x: TaskId
      ensures InLine(q'.sem, x) == if Has(q', x, Acquiring) then 1 else 0
      ensures x in q'.sem.held <==> x < |q'.tasks| && SlotPhase(q'.tasks[x].phase)
    {
      assert InLine(q.sem, x) == if Has(q, x, Acquiring) then 1 else 0;
      assert x in q.sem.held <==> x < |q.tasks| && SlotPhase(q.tasks[x].phase);
      if x < |q.tasks| { assert q'.tasks[x] == q'.tasks[..|q.tasks|][x]; }
    }
  }

  lemma EnqueueLog(q: Queue, q': Queue)
    requires LogOk(q) && |q'.tasks| == |q.tasks| + 1 && q'.tasks[..|q.tasks|] == q.tasks && q'.log == q.log
    requires !q'.tasks[|q.tasks|].ran
    ensures LogOk(q')
  {
    assert forall t: TaskId | t < |q.tasks| :: q'.tasks[t] == q'.tasks[..|q.tasks|][t];
    forall i, j | 0 <= i < j < |q'.log| && SameSerial(q', q'.log[i], q'.log[j])
      ensures q'.log[i] < q'.log[j]
    {
      assert q.log[i] in q.log && q.log[j] in q.log;
      assert SameSerial(q, q.log[i], q.log[j]);
    }
  }

  /** The chain's last task is the latest of its serial; without a chain, all of those are retired. */
  lemma LastOfChain(q: Queue, serial: Serial, depth: nat)
    requires ChainsOk(q, depth)
    ensures match ChainOf(q, serial).last
      case None => (forall u: TaskId | u < |q.tasks| && q.tasks[u].serial == serial :: q.tasks[u].phase == Retired)
      case Some(p) => p < |q.tasks| && q.tasks[p].serial == serial
                      && forall u: TaskId | p < u < |q.tasks| :: q.tasks[u].serial != serial
  {
    if serial in q.chains { assert EntryOk(q, serial, depth); }
  }

  lemma EnqueueOrder(q: Queue, serial: Serial, maxDepth: nat, aborted: bool, depth: nat)
    requires ChainsOk(q, depth) && PrevOk(q.tasks) && LinksOk(q.tasks) && InOrder(q.tasks)
    requires ChainOf(q, serial).pending < maxDepth
    ensures var ts := EnqueueStep(q, serial, maxDepth, aborted).tasks; PrevOk(ts) && LinksOk(ts) && InOrder(ts)
  {
    LastOfChain(q, serial, depth);
    var ts := EnqueueStep(q, serial, maxDepth, aborted).tasks;
    var n := |q.tasks|;
    assert ts[n].prev == ChainOf(q, serial).last && ts[n].serial == serial && ts[n].phase == Linked;
    assert ts == q.tasks + [ts[n]];
    hide ChainsOk, ChainOf, EnqueueStep, PrevOk, LinksOk, InOrder;
    AppendPrev(q.tasks, ts[n]);
    AppendLinks(q.tasks, ts[n]);
    AppendInOrder(q.tasks, ts[n]);
  }

  lemma AppendPrev(tasks: seq<Task>, task: Task)
    requires PrevOk(tasks)
    requires task.prev.Some? ==> task.prev.value < |tasks| && tasks[task.prev.value].serial == task.serial
    ensures PrevOk(tasks + [task])
  {
  }

  /** `task` links behind the latest task of its serial. */
  lemma AppendLinks(tasks: seq<Task>, task: Task)
    requires LinksOk(tasks)
    requires match task.prev
      case None => (forall u: TaskId | u < |tasks| && tasks[u].serial == task.serial :: tasks[u].phase == Retired)
      case Some(p) => p < |tasks| && tasks[p].serial == task.serial
                      && forall u: TaskId | p < u < |tasks| :: tasks[u].serial != task.serial
    ensures LinksOk(tasks + [task])
  {
  }

  lemma AppendInOrder(tasks: seq<Task>, task: Task)
    requires InOrder(tasks) && task.phase == Linked
    ensures InOrder(tasks + [task])
  {
  }

  lemma NoChainNoLinks(q: Queue, serial: Serial, depth: nat)
    requires ChainsOk(q, depth) && serial !in q.chains
    ensures Open(q.tasks, serial) == 0
  {
    if Open(q.tasks, serial) > 0 {
      var t := OpenWitness(q.tasks, serial);
      assert false;
    }
  }

  lemma EnqueueChains(q: Queue, serial: Serial, maxDepth: nat, aborted: bool, depth: nat)
    requires ChainsOk(q, depth) && ChainOf(q, serial).pending < maxDepth <= depth
    ensures ChainsOk(EnqueueStep(q, serial, maxDepth, aborted), depth)
  {
    var q' := EnqueueStep(q, serial, maxDepth, aborted);
    EnqueueEntries(q, serial, maxDepth, aborted, depth);
    EnqueueLinks(q, serial, maxDepth, aborted, depth);
  }

  lemma EnqueueEntries(q: Queue, serial: Serial, maxDepth: nat, aborted: bool, depth: nat)
    requires ChainsOk(q, depth) && ChainOf(q, serial).pending < maxDepth <= depth
    ensures var q' := EnqueueStep(q, serial, maxDepth, aborted);
      forall s: Serial | s in q'.chains :: EntryOk(q', s, depth)
  {
    var q' := EnqueueStep(q, serial, maxDepth, aborted);
    if serial in q.chains {
      assert EntryOk(q, serial, depth);
    } else {
      NoChainNoLinks(q, serial, depth);
    }
    forall s: Serial | s in q'.chains
      ensures EntryOk(q', s, depth)
    {
      OpenAppend(q.tasks, q'.tasks[|q.tasks|], s);
      if s != serial { assert EntryOk(q, s, depth); }
    }
  }

  lemma EnqueueLinks(q: Queue, serial: Serial, maxDepth: nat, aborted: bool, depth: nat)
    requires ChainsOk(q, depth) && ChainOf(q, serial).pending < maxDepth <= depth
    ensures var q' := EnqueueStep(q, serial, maxDepth, aborted);
      && (forall t: TaskId | t < |q'.tasks| && q'.tasks[t].phase != Retired ::
            q'.tasks[t].serial in q'.chains && q'.chains[q'.tasks[t].serial] == q'.tasks[t].entry)
      && (forall s: Serial, r: Serial | s in q'.chains && r in q'.chains && s != r :: q'.chains[s] != q'.chains[r])
  {
    var q' := EnqueueStep(q, serial, maxDepth, aborted);
    forall s: Serial | s in q.chains
      ensures q.chains[s] < |q.entries|
    {
      assert EntryOk(q, s, depth);
    }
    hide EntryOk, Open;
    assert forall t: TaskId | t < |q.tasks| :: q'.tasks[t] == q.tasks[t];
  }

  lemma KeepRest(q: Queue, q': Queue, depth: nat)
    requires Inv(q, depth) && q'.tasks == q.tasks && q'.chains == q.chains && q'.entries == q.entries
    requires q'.log == q.log && q'.gate >= q.gate && q'.inFlight == q.inFlight && q'.sem == q.sem
    ensures Inv(q', depth)
  {
    SameBooks(q, q', depth);
  }

  /** Every step keeps the invariant, if no caller asks for more than `depth` places in a chain. */
  lemma StepInv(q: Queue, a: Action, depth: nat)
    requires Inv(q, depth) && (a.Enqueue? ==> a.maxDepth <= depth)
    ensures Inv(Step(q, a), depth)
  {
    hide Inv, EnqueueStep, PassStep, BeginStep, EndStep, RetireStep, GiveUpStep, TurnEnabled, PassEnabled;
    match a
    case Enqueue(serial, maxDepth, aborted) => KeepEnqueue(q, serial, maxDepth, aborted, depth);
    case Turn(t) => if TurnEnabled(q, t) { KeepTurn(q, t, depth); }
    case Pass(t) => if PassEnabled(q, t) { KeepPass(q, t, depth); }
    case Wake(t) => if Has(q, t, Acquiring) && t in q.sem.woken { KeepWake(q, t, depth); }
    case Begin(t) => if Has(q, t, Holding) { KeepBegin(q, t, depth); }
    case End(t) => if Has(q, t, Running) { KeepEnd(q, t, depth); }
    case Retire(t) => if Has(q, t, Settled) { KeepRetire(q, t, depth); }
    case GiveUp(t) => if t < |q.tasks| { KeepGiveUp(q, t, depth); }
    case Resize(max) => KeepResize(q, max, depth);
    case Pause => KeepRest(q, Step(q, a), depth);
    case Resume => KeepRest(q, Step(q, a), depth);
    case WaitIdle => KeepRest(q, Step(q, a), depth);
  }
}
