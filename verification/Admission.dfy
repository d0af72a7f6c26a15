/**
 * Admission of request attempts: a shared start-slot schedule and a semaphore, used by any number of
 * interleaved tasks on one nanosecond clock. Timers are exact: the clock never passes the moment at
 * which a waiting task must wake.
 */
module Admission {
  import opened Prelude

  type TaskId = nat

  datatype Config = Config(interval: Option<nat>, qpsWait: nat, concurrencyWait: nat, maxConcurrency: nat)

  ghost predicate ValidConfig(c: Config) {
    && (c.interval.Some? ==> c.interval.value > 0)
    && c.qpsWait > 0 && c.concurrencyWait > 0 && c.maxConcurrency > 0
  }

  datatype Phase = ConcurrencyPermit | QpsAdmission

  /**
   * Where a task stands in the admission loop. `startedAt` is the call, `loops` counts the slots lost
   * after a permit was in hand, and `lost` is the index of the start that took the last one.
   */
  datatype Task =
    | Reading(startedAt: nat, loops: nat, lost: nat)
    | Sleeping(startedAt: nat, loops: nat, lost: nat, until: nat)
    | WantPermit(startedAt: nat, loops: nat, lost: nat, permitBy: nat)
    | Committing(startedAt: nat, loops: nat, lost: nat, commitBy: nat)
    | Admitted(startedAt: nat, loops: nat)
    | Failed(phase: Phase)
    | Finished

  /** `starts` lists the committed start slots; `holders` is the set of tasks with a permit. */
  datatype Gate = Gate(
    clock: nat,
    nextStart: Option<nat>,
    free: nat,
    holders: set<TaskId>,
    tasks: map<TaskId, Task>,
    starts: seq<nat>)

  datatype Action =
    | Call(task: TaskId)
    | ReadSlot(task: TaskId)
    | Wake(task: TaskId)
    | Acquire(task: TaskId)
    | Commit(task: TaskId)
    | TimeOut(task: TaskId)
    | Release(task: TaskId)
    | Tick(ns: nat)

  function Initial(c: Config): Gate {
    Gate(0, None, c.maxConcurrency, {}, map[], [])
  }

  function QpsDeadline(c: Config, task: Task): nat
    requires !task.Failed? && !task.Finished?
  {
    task.startedAt + c.qpsWait
  }

  predicate Waiting(task: Task) {
    task.Reading? || task.Sleeping? || task.WantPermit? || task.Committing?
  }

  /** The last moment a waiting task can stay where it is. */
  function Due(c: Config, task: Task): nat
    requires Waiting(task)
  {
    match task
    case Reading(_, _, _) => QpsDeadline(c, task)
    case Sleeping(_, _, _, until) => Min(until, QpsDeadline(c, task))
    case WantPermit(_, _, _, permitBy) => permitBy
    case Committing(_, _, _, commitBy) => commitBy
  }

  function Put(g: Gate, id: TaskId, task: Task): Gate {
    g.(tasks := g.tasks[id := task])
  }

  function GivePermitBack(g: Gate, id: TaskId): Gate {
    g.(free := g.free + 1, holders := g.holders - {id})
  }

  function TakePermit(g: Gate, id: TaskId): Gate
    requires g.free > 0
  {
    g.(free := g.free - 1, holders := g.holders + {id})
  }

  // ---------------------------------------------------------------- the atomic sections

  function CallStep(c: Config, g: Gate, id: TaskId): Option<Gate> {
    if id in g.tasks then None
    else if c.interval.None? then Some(Put(g, id, WantPermit(g.clock, 0, 0, g.clock + c.concurrencyWait)))
    else Some(Put(g, id, Reading(g.clock, 0, 0)))
  }

  /** Reads the shared slot under the lock, then decides whether to sleep. No permit is held. */
  function ReadStep(c: Config, g: Gate, id: TaskId): Option<Gate> {
    if id !in g.tasks || !g.tasks[id].Reading? then None
    else
      var t := g.tasks[id];
      if g.nextStart.Some? && g.nextStart.value > g.clock then
        Some(Put(g, id, Sleeping(t.startedAt, t.loops, t.lost, g.nextStart.value)))
      else Some(Put(g, id, WantPermit(t.startedAt, t.loops, t.lost, g.clock + c.concurrencyWait)))
  }

  function WakeStep(c: Config, g: Gate, id: TaskId): Option<Gate> {
    if id !in g.tasks || !g.tasks[id].Sleeping? || g.tasks[id].until > g.clock then None
    else
      var t := g.tasks[id];
      Some(Put(g, id, WantPermit(t.startedAt, t.loops, t.lost, g.clock + c.concurrencyWait)))
  }

  function AcquireStep(c: Config, g: Gate, id: TaskId): Option<Gate> {
    if id !in g.tasks || !g.tasks[id].WantPermit? || g.free == 0 then None
    else
      var t := g.tasks[id];
      if c.interval.None? then Some(Put(TakePermit(g, id), id, Admitted(t.startedAt, t.loops)))
      else Some(Put(TakePermit(g, id), id,
        Committing(t.startedAt, t.loops, t.lost, Max(g.clock, QpsDeadline(c, t)))))
  }

  /** Re-checks the schedule under the lock: commits the slot, or drops the permit and starts over. */
  function CommitStep(c: Config, g: Gate, id: TaskId): Option<Gate> {
    if id !in g.tasks || !g.tasks[id].Committing? || c.interval.None? then None
    else
      var t := g.tasks[id];
      if g.nextStart.Some? && g.nextStart.value > g.clock then
        if g.clock >= QpsDeadline(c, t) then Some(Put(GivePermitBack(g, id), id, Failed(QpsAdmission)))
        else Some(Put(GivePermitBack(g, id), id,
          Reading(t.startedAt, t.loops + 1, if g.starts == [] then 0 else |g.starts| - 1)))
      else
        Some(Put(g, id, Admitted(t.startedAt, t.loops)).(
          nextStart := Some(g.clock + c.interval.value), starts := g.starts + [g.clock]))
  }

  /** The timers of the four waits; a failed commit wait drops its permit. */
  function TimeOutStep(c: Config, g: Gate, id: TaskId): Option<Gate> {
    if id !in g.tasks then None
    else match g.tasks[id]
    case Reading(_, _, _) =>
      if g.clock >= QpsDeadline(c, g.tasks[id]) then Some(Put(g, id, Failed(QpsAdmission))) else None
    case Sleeping(_, _, _, until) =>
      if g.clock >= QpsDeadline(c, g.tasks[id]) && until > g.clock then Some(Put(g, id, Failed(QpsAdmission)))
      else None
    case WantPermit(_, _, _, permitBy) =>
      if g.clock >= permitBy then Some(Put(g, id, Failed(ConcurrencyPermit))) else None
    case Committing(_, _, _, _) =>
      if g.clock >= QpsDeadline(c, g.tasks[id]) then
        Some(Put(GivePermitBack(g, id), id, Failed(QpsAdmission)))
      else None
    case _ => None
  }

  /** The end of an attempt, or a caller dropping the future anywhere: a held permit is released. */
  function ReleaseStep(g: Gate, id: TaskId): Option<Gate> {
    if id !in g.tasks then None
    else match g.tasks[id]
    case Admitted(_, _) => Some(Put(GivePermitBack(g, id), id, Finished))
    case Committing(_, _, _, _) => Some(Put(GivePermitBack(g, id), id, Finished))
    case _ => Some(Put(g, id, Finished))
  }

  ghost predicate MayTick(c: Config, g: Gate, ns: nat) {
    forall id :: id in g.tasks && Waiting(g.tasks[id]) ==> g.clock + ns <= Due(c, g.tasks[id])
  }

  ghost function Next(c: Config, g: Gate, action: Action): Option<Gate> {
    match action
    case Call(id) => CallStep(c, g, id)
    case ReadSlot(id) => ReadStep(c, g, id)
    case Wake(id) => WakeStep(c, g, id)
    case Acquire(id) => AcquireStep(c, g, id)
    case Commit(id) => CommitStep(c, g, id)
    case TimeOut(id) => TimeOutStep(c, g, id)
    case Release(id) => ReleaseStep(g, id)
    case Tick(ns) => if MayTick(c, g, ns) then Some(g.(clock := g.clock + ns)) else None
  }

  ghost function Run(c: Config, actions: seq<Action>): Option<Gate> {
    if actions == [] then Some(Initial(c))
    else
      var before := Run(c, actions[..|actions| - 1]);
      if before.None? then None else Next(c, before.value, actions[|actions| - 1])
  }

  // ---------------------------------------------------------------- the invariant

  /** Start slots are an interval apart, and the shared slot is one interval after the last of them. */
  ghost predicate ScheduleInv(c: Config, g: Gate) {
    && (forall i, j :: 0 <= i < j < |g.starts| ==> g.starts[i] + IntervalOf(c) <= g.starts[j])
    && (forall i :: 0 <= i < |g.starts| ==> g.starts[i] <= g.clock)
    && (g.starts == [] ==> g.nextStart.None?)
    && (g.starts != [] ==> c.interval.Some? && g.nextStart == Some(g.starts[|g.starts| - 1] + c.interval.value))
  }

  function IntervalOf(c: Config): nat {
    if c.interval.Some? then c.interval.value else 0
  }

  /** Permits are conserved, and exactly the committing and admitted tasks hold one. */
  ghost predicate PermitInv(c: Config, g: Gate) {
    && g.free + |g.holders| == c.maxConcurrency
    && forall id :: id in g.holders <==> Holding(g, id)
  }

  predicate Holding(g: Gate, id: TaskId) {
    id in g.tasks && (g.tasks[id].Committing? || g.tasks[id].Admitted?)
  }

  /** The two timeouts of an admission; without a schedule there is nothing to wait for but a permit. */
  function Longest(c: Config): nat {
    (if c.interval.Some? then c.qpsWait else 0) + c.concurrencyWait
  }

  /** No waiting task is past its due time, and every due time is within the two timeouts. */
  ghost predicate TimeInv(c: Config, g: Gate) {
    forall id :: id in g.tasks && Waiting(g.tasks[id]) ==> TaskOnTime(c, g, g.tasks[id])
  }

  ghost predicate TaskOnTime(c: Config, g: Gate, t: Task)
    requires Waiting(t)
  {
    && t.startedAt <= g.clock <= Due(c, t)
    && Due(c, t) <= t.startedAt + Longest(c)
    && (c.interval.None? ==> t.WantPermit?)
  }

  /** Each lost slot was taken by a later start than the one before it. */
  ghost predicate LoopInv(c: Config, g: Gate) {
    forall id :: id in g.tasks && Waiting(g.tasks[id]) ==> TaskProgress(c, g, g.tasks[id])
  }

  ghost predicate TaskProgress(c: Config, g: Gate, t: Task)
    requires Waiting(t)
  {
    t.loops > 0 ==>
      && t.lost < |g.starts|
      && g.starts[t.lost] + IntervalOf(c) > t.startedAt + (t.loops - 1) * IntervalOf(c)
      && (t.loops >= 2 ==> (t.loops - 2) * IntervalOf(c) < c.qpsWait)
      && (t.Sleeping? ==> t.until >= g.starts[t.lost] + IntervalOf(c))
      && (t.WantPermit? || t.Committing? ==> g.clock >= g.starts[t.lost] + IntervalOf(c))
  }

  ghost predicate Inv(c: Config, g: Gate) {
    ScheduleInv(c, g) && PermitInv(c, g) && TimeInv(c, g) && LoopInv(c, g)
  }
}
