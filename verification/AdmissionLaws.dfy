/** Safety, bounded retries and bounded delay of admission, over every interleaving. */
module AdmissionLaws {
  import opened Prelude
  import opened Admission
  import opened Delays

  // ---------------------------------------------------------------- every step keeps the invariant

  lemma StepKeeps(c: Config, g: Gate, action: Action)
    requires ValidConfig(c) && Inv(c, g) && Next(c, g, action).Some?
    ensures Inv(c, Next(c, g, action).value)
  {
    hide ScheduleInv, PermitInv, TimeInv, LoopInv;
    ScheduleKept(c, g, action);
    PermitsKept(c, g, action);
    TimesKept(c, g, action);
    LoopsKept(c, g, action);
  }

  /** A step other than a tick moves one task and leaves the clock and all other tasks alone. */
  ghost predicate MovesOne(g: Gate, g': Gate, id: TaskId) {
    && g'.clock == g.clock && id in g'.tasks
    && (forall other :: other != id ==> (other in g.tasks <==> other in g'.tasks))
    && (forall other :: other != id && other in g.tasks ==> g'.tasks[other] == g.tasks[other])
  }

  lemma StepMovesOne(c: Config, g: Gate, action: Action)
    requires Next(c, g, action).Some? && !action.Tick?
    ensures MovesOne(g, Next(c, g, action).value, action.task)
  {
  }

  /** How a step treats permits: it keeps them, takes one for a task without, or gives one back. */
  ghost predicate Transfers(g: Gate, g': Gate, id: TaskId) {
    || (g'.free == g.free && g'.holders == g.holders && Holding(g', id) == Holding(g, id))
    || (g'.free == g.free - 1 && g'.holders == g.holders + {id} && !Holding(g, id) && Holding(g', id))
    || (g'.free == g.free + 1 && g'.holders == g.holders - {id} && Holding(g, id) && !Holding(g', id))
  }

  lemma StepTransfers(c: Config, g: Gate, action: Action)
    requires Next(c, g, action).Some? && !action.Tick?
    ensures Transfers(g, Next(c, g, action).value, action.task)
  {
    hide Due, QpsDeadline;
  }

  lemma TransferKeeps(c: Config, g: Gate, g': Gate, id: TaskId)
    requires PermitInv(c, g) && MovesOne(g, g', id) && Transfers(g, g', id)
    ensures PermitInv(c, g')
  {
    assert Holding(g, id) <==> id in g.holders;
    forall other ensures other in g'.holders <==> Holding(g', other) {
      assert other != id ==> (Holding(g', other) <==> Holding(g, other));
    }
  }

  lemma PermitsKept(c: Config, g: Gate, action: Action)
    requires PermitInv(c, g) && Next(c, g, action).Some?
    ensures PermitInv(c, Next(c, g, action).value)
  {
    if !action.Tick? {
      hide Next, Transfers, MovesOne, PermitInv;
      StepMovesOne(c, g, action);
      StepTransfers(c, g, action);
      TransferKeeps(c, g, Next(c, g, action).value, action.task);
    }
  }

  /** A step keeps the start list, or a commit appends the current time after an interval's gap. */
  lemma StepStarts(c: Config, g: Gate, action: Action)
    requires ScheduleInv(c, g) && Next(c, g, action).Some?
    ensures var g' := Next(c, g, action).value;
      || (g'.starts == g.starts && g'.nextStart == g.nextStart && g'.clock >= g.clock)
      || (c.interval.Some? && g'.starts == g.starts + [g.clock] && g'.clock == g.clock
          && g'.nextStart == Some(g.clock + c.interval.value)
          && (g.nextStart.None? || g.nextStart.value <= g.clock))
  {
    hide ScheduleInv, Due, QpsDeadline;
  }

  lemma ScheduleKept(c: Config, g: Gate, action: Action)
    requires ScheduleInv(c, g) && Next(c, g, action).Some?
    ensures ScheduleInv(c, Next(c, g, action).value)
  {
    hide Next;
    StepStarts(c, g, action);
    forall i | 0 <= i < |g.starts| && g.nextStart.value <= g.clock ensures g.starts[i] + IntervalOf(c) <= g.clock {
      assert i < |g.starts| - 1 ==> g.starts[i] + IntervalOf(c) <= g.starts[|g.starts| - 1];
    }
  }

  lemma TimesKept(c: Config, g: Gate, action: Action)
    requires ValidConfig(c) && TimeInv(c, g) && Next(c, g, action).Some?
    ensures TimeInv(c, Next(c, g, action).value)
  {
    if !action.Tick? {
      StepMovesOne(c, g, action);
      MoverOnTime(c, g, action);
      hide Next, TaskOnTime;
    } else {
      hide TaskOnTime;
      forall id | id in g.tasks && Waiting(g.tasks[id]) ensures TaskOnTime(c, Next(c, g, action).value, g.tasks[id]) {
        TickOnTime(c, g, g.tasks[id], action.ns);
      }
    }
  }

  lemma TickOnTime(c: Config, g: Gate, t: Task, ns: nat)
    requires Waiting(t) && TaskOnTime(c, g, t) && g.clock + ns <= Due(c, t)
    ensures TaskOnTime(c, g.(clock := g.clock + ns), t)
  {
  }

  lemma MoverOnTime(c: Config, g: Gate, action: Action)
    requires ValidConfig(c) && TimeInv(c, g) && !action.Tick? && Next(c, g, action).Some?
    ensures var g' := Next(c, g, action).value;
      action.task in g'.tasks && (Waiting(g'.tasks[action.task]) ==> TaskOnTime(c, g', g'.tasks[action.task]))
  {
    assert action.task in g.tasks && Waiting(g.tasks[action.task]) ==> TaskOnTime(c, g, g.tasks[action.task]);
    hide TimeInv;
  }

  lemma LoopsKept(c: Config, g: Gate, action: Action)
    requires ValidConfig(c) && ScheduleInv(c, g) && TimeInv(c, g) && LoopInv(c, g) && Next(c, g, action).Some?
    ensures LoopInv(c, Next(c, g, action).value)
  {
    var g' := Next(c, g, action).value;
    StepStarts(c, g, action);
    if action.Tick? {
      hide Next, ScheduleInv, TimeInv;
      TickProgress(c, g, action.ns);
    } else {
      StepMovesOne(c, g, action);
      hide Next, ScheduleInv, TimeInv;
      forall id | id in g'.tasks && Waiting(g'.tasks[id]) ensures TaskProgress(c, g', g'.tasks[id]) {
        if id == action.task {
          MoverProgress(c, g, action);
        } else {
          assert TaskProgress(c, g, g.tasks[id]);
        }
      }
    }
  }

  lemma TickProgress(c: Config, g: Gate, ns: nat)
    requires LoopInv(c, g)
    ensures Next(c, g, Tick(ns)).Some? ==> LoopInv(c, Next(c, g, Tick(ns)).value)
  {
    hide MayTick;
    if Next(c, g, Tick(ns)).Some? {
      var g' := g.(clock := g.clock + ns);
      forall id | id in g.tasks && Waiting(g.tasks[id]) ensures TaskProgress(c, g', g.tasks[id]) {
        assert TaskProgress(c, g, g.tasks[id]);
      }
    }
  }

  lemma MoverProgress(c: Config, g: Gate, action: Action)
    requires ValidConfig(c) && ScheduleInv(c, g) && TimeInv(c, g) && LoopInv(c, g)
    requires !action.Tick? && Next(c, g, action).Some?
    requires action.task in Next(c, g, action).value.tasks && Waiting(Next(c, g, action).value.tasks[action.task])
    ensures TaskProgress(c, Next(c, g, action).value, Next(c, g, action).value.tasks[action.task])
  {
    if action.Commit? {
      CommitProgress(c, g, action.task);
    } else if action.task in g.tasks {
      var t := g.tasks[action.task];
      assert TaskProgress(c, g, t);
      if t.loops > 0 && t.lost < |g.starts| - 1 {
        assert g.starts[t.lost] + IntervalOf(c) <= g.starts[|g.starts| - 1];
      }
      assert g.starts != [] ==> g.nextStart == Some(g.starts[|g.starts| - 1] + IntervalOf(c));
      hide LoopInv, TimeInv, ScheduleInv, CommitStep;
    }
  }

  /**
   * A task that loses the slot again lost it to a later start, one interval or more after the start it
   * lost to before: the slot it observes has moved by at least an interval.
   */
  lemma CommitProgress(c: Config, g: Gate, id: TaskId)
    requires ValidConfig(c) && ScheduleInv(c, g) && TimeInv(c, g) && LoopInv(c, g)
    requires CommitStep(c, g, id).Some? && CommitStep(c, g, id).value.tasks[id].Reading?
    ensures var t, g' := g.tasks[id], CommitStep(c, g, id).value;
      var t' := g'.tasks[id];
      && TaskProgress(c, g', t')
      && t'.loops == t.loops + 1 && t'.lost < |g.starts|
      && (t.loops > 0 ==> t.lost < |g.starts| && g.starts[t'.lost] >= g.starts[t.lost] + IntervalOf(c))
  {
    var g' := CommitStep(c, g, id).value;
    var t, t' := g.tasks[id], g'.tasks[id];
    var i := c.interval.value;
    assert TaskOnTime(c, g, t) && TaskProgress(c, g, t);
    assert g.starts[t'.lost] + i > g.clock;
    if t.loops > 0 {
      assert t.lost < t'.lost;
      assert (t.loops - 1) * i + i == t.loops * i;
    }
  }

  lemma {:induction false} RunKeeps(c: Config, actions: seq<Action>)
    requires ValidConfig(c) && Run(c, actions).Some?
    ensures Inv(c, Run(c, actions).value)
  {
    hide Inv, Next;
    if actions == [] {
      InitialInv(c);
    } else {
      RunKeeps(c, actions[..|actions| - 1]);
      StepKeeps(c, Run(c, actions[..|actions| - 1]).value, actions[|actions| - 1]);
    }
  }

  lemma InitialInv(c: Config)
    ensures Inv(c, Initial(c))
  {
  }

  // ---------------------------------------------------------------- the promises

  /** Any two committed start slots are at least an interval apart, in commit order. */
  lemma StartsAreSpaced(c: Config, actions: seq<Action>, i: nat, j: nat)
    requires ValidConfig(c) && Run(c, actions).Some? && i < j < |Run(c, actions).value.starts|
    ensures Run(c, actions).value.starts[i] + IntervalOf(c) <= Run(c, actions).value.starts[j]
  {
    RunKeeps(c, actions);
  }

  /** How many of the starts fall into the closed window from `from` to `to`. */
  function StartsIn(starts: seq<nat>, from: nat, to: nat): nat {
    if starts == [] then 0
    else
      var last := starts[|starts| - 1];
      StartsIn(starts[..|starts| - 1], from, to) + if from <= last <= to then 1 else 0
  }

  /** Any window of length `w` holds at most `1 + w / interval` starts. */
  lemma WindowBound(c: Config, actions: seq<Action>, from: nat, w: nat)
    requires ValidConfig(c) && c.interval.Some? && Run(c, actions).Some?
    ensures StartsIn(Run(c, actions).value.starts, from, from + w) <= 1 + w / c.interval.value
  {
    RunKeeps(c, actions);
    hide Run, Next;
    WindowBoundAt(c, Run(c, actions).value, from, w);
  }

  lemma WindowBoundAt(c: Config, g: Gate, from: nat, w: nat)
    requires ValidConfig(c) && c.interval.Some? && ScheduleInv(c, g)
    ensures StartsIn(g.starts, from, from + w) <= 1 + w / c.interval.value
  {
    var starts := g.starts;
    var n := StartsIn(starts, from, from + w);
    if n > 0 {
      var i := LatestIn(starts, IntervalOf(c), from, from + w);
      QuotientAtLeast(n - 1, c.interval.value, w);
    }
  }

  /** Spaced starts push the latest start of a window away from the window's beginning. */
  lemma {:induction false} LatestIn(starts: seq<nat>, interval: nat, from: nat, to: nat) returns (i: nat)
    requires forall a, b :: 0 <= a < b < |starts| ==> starts[a] + interval <= starts[b]
    requires StartsIn(starts, from, to) > 0
    ensures i < |starts| && starts[i] <= to
    ensures from + (StartsIn(starts, from, to) - 1) * interval <= starts[i]
  {
    var front, n := starts[..|starts| - 1], StartsIn(starts[..|starts| - 1], from, to);
    i := |starts| - 1;
    if n > 0 {
      var j := LatestIn(front, interval, from, to);
      if from <= starts[i] <= to {
        assert starts[j] + interval <= starts[i];
        assert (n - 1) * interval + interval == n * interval;
      } else {
        i := j;
      }
    }
  }

  /** Free and held permits always add up, and a task waiting for a slot or a permit holds none. */
  lemma PermitsConserved(c: Config, actions: seq<Action>)
    requires ValidConfig(c) && Run(c, actions).Some?
    ensures var g := Run(c, actions).value;
      && g.free + |g.holders| == c.maxConcurrency
      && forall id :: id in g.tasks && (g.tasks[id].Reading? || g.tasks[id].Sleeping? || g.tasks[id].WantPermit?) ==>
        id !in g.holders
  {
    RunKeeps(c, actions);
  }

  /** However often the loop restarts, it restarts at most `2 + qpsWait / interval` times. */
  lemma RestartsBounded(c: Config, actions: seq<Action>, id: TaskId)
    requires ValidConfig(c) && c.interval.Some? && Run(c, actions).Some?
    requires id in Run(c, actions).value.tasks && Waiting(Run(c, actions).value.tasks[id])
    ensures Run(c, actions).value.tasks[id].loops <= 2 + c.qpsWait / c.interval.value
  {
    assert c.interval.value > 0;
    hide *;
    RunKeeps(c, actions);
    ProgressBound(c, Run(c, actions).value, id);
  }

  lemma ProgressBound(c: Config, g: Gate, id: TaskId)
    requires Inv(c, g) && id in g.tasks && Waiting(g.tasks[id]) && c.interval.Some? && c.interval.value > 0
    ensures g.tasks[id].loops <= 2 + c.qpsWait / c.interval.value
  {
    hide ScheduleInv, PermitInv, TimeInv;
    assert TaskProgress(c, g, g.tasks[id]);
    RestartBound(g.tasks[id].loops, c.interval.value, c.qpsWait);
  }

  lemma RestartBound(loops: nat, interval: nat, wait: nat)
    requires interval > 0 && (loops >= 2 ==> (loops - 2) * interval < wait)
    ensures loops <= 2 + wait / interval
  {
    if loops >= 2 {
      QuotientAtLeast(loops - 2, interval, wait);
    }
  }

  /** A task waits for admission no longer than its two timeouts together, however often it restarts. */
  lemma AdmissionDelayBounded(c: Config, actions: seq<Action>, id: TaskId)
    requires ValidConfig(c) && Run(c, actions).Some?
    requires id in Run(c, actions).value.tasks && Waiting(Run(c, actions).value.tasks[id])
    ensures Run(c, actions).value.clock <= Run(c, actions).value.tasks[id].startedAt + Longest(c)
  {
    RunKeeps(c, actions);
    hide Run;
    assert TaskOnTime(c, Run(c, actions).value, Run(c, actions).value.tasks[id]);
  }

  /** The step that ends the wait, admitted or not, comes within the same bound. */
  lemma AdmissionEndsInTime(c: Config, actions: seq<Action>, action: Action, id: TaskId)
    requires ValidConfig(c) && Run(c, actions + [action]).Some? && Run(c, actions).Some?
    requires id in Run(c, actions).value.tasks && Waiting(Run(c, actions).value.tasks[id])
    requires id in Run(c, actions + [action]).value.tasks && !Waiting(Run(c, actions + [action]).value.tasks[id])
    ensures var before, after := Run(c, actions).value, Run(c, actions + [action]).value;
      && after.clock <= before.tasks[id].startedAt + Longest(c)
      && (after.tasks[id].Admitted? ==>
            after.tasks[id].startedAt == before.tasks[id].startedAt && id in after.holders)
  {
    hide Run;
    AdmissionDelayBounded(c, actions, id);
    RunSnoc(c, actions, action);
    EndKeepsClock(c, Run(c, actions).value, action, id);
    RunKeeps(c, actions + [action]);
  }

  lemma EndKeepsClock(c: Config, g: Gate, action: Action, id: TaskId)
    requires Next(c, g, action).Some? && id in g.tasks && Waiting(g.tasks[id])
    requires id in Next(c, g, action).value.tasks && !Waiting(Next(c, g, action).value.tasks[id])
    ensures var g' := Next(c, g, action).value;
      g'.clock == g.clock && (g'.tasks[id].Admitted? ==> g'.tasks[id].startedAt == g.tasks[id].startedAt)
  {
  }

  /** A task that queues for a permit has its whole permit timeout before it. */
  ghost predicate PermitWaitIsFull(c: Config, g: Gate) {
    forall id :: id in g.tasks && g.tasks[id].WantPermit? ==>
      g.tasks[id].permitBy >= g.tasks[id].startedAt + c.concurrencyWait
  }

  lemma {:induction false} PermitWaits(c: Config, actions: seq<Action>)
    requires ValidConfig(c) && Run(c, actions).Some?
    ensures PermitWaitIsFull(c, Run(c, actions).value)
  {
    hide Next, Inv, Due;
    if actions != [] {
      var front, last := actions[..|actions| - 1], actions[|actions| - 1];
      PermitWaits(c, front);
      RunKeeps(c, front);
      PermitWaitKept(c, Run(c, front).value, last);
    }
  }

  lemma PermitWaitKept(c: Config, g: Gate, action: Action)
    requires Inv(c, g) && PermitWaitIsFull(c, g) && Next(c, g, action).Some?
    ensures PermitWaitIsFull(c, Next(c, g, action).value)
  {
    if !action.Tick? {
      StepMovesOne(c, g, action);
      assert action.task in g.tasks && Waiting(g.tasks[action.task]) ==> TaskOnTime(c, g, g.tasks[action.task]);
    }
  }

  /**
   * A failed admission names the wait that ran out: the permit wait exactly if the task was queueing for
   * a permit, and then not before its timeout had passed since the call, and otherwise the wait for a slot,
   * once the slot timeout had passed since the call.
   */
  lemma FailureNamesItsWait(c: Config, actions: seq<Action>, action: Action, id: TaskId)
    requires ValidConfig(c) && Run(c, actions).Some? && Run(c, actions + [action]).Some?
    requires id in Run(c, actions).value.tasks && Waiting(Run(c, actions).value.tasks[id])
    requires id in Run(c, actions + [action]).value.tasks && Run(c, actions + [action]).value.tasks[id].Failed?
    ensures var before, after := Run(c, actions).value, Run(c, actions + [action]).value;
      var t := before.tasks[id];
      && (after.tasks[id].phase == ConcurrencyPermit <==> t.WantPermit?)
      && after.clock >= t.startedAt + if t.WantPermit? then c.concurrencyWait else c.qpsWait
  {
    RunSnoc(c, actions, action);
    PermitWaits(c, actions);
    FailedStep(c, Run(c, actions).value, action, id);
    hide Run, Next;
  }

  lemma FailedStep(c: Config, g: Gate, action: Action, id: TaskId)
    requires Next(c, g, action).Some? && id in g.tasks && Waiting(g.tasks[id])
    requires id in Next(c, g, action).value.tasks && Next(c, g, action).value.tasks[id].Failed?
    ensures var t, g' := g.tasks[id], Next(c, g, action).value;
      && g'.clock == g.clock && (g'.tasks[id].phase == ConcurrencyPermit <==> t.WantPermit?)
      && (if t.WantPermit? then g.clock >= t.permitBy else g.clock >= t.startedAt + c.qpsWait)
  {
  }

  /** Exact timers never block time: a task that has reached its due time can always take a step. */
  lemma DueTaskCanMove(c: Config, actions: seq<Action>, id: TaskId)
    requires ValidConfig(c) && Run(c, actions).Some?
    requires id in Run(c, actions).value.tasks && Waiting(Run(c, actions).value.tasks[id])
    requires Run(c, actions).value.clock == Due(c, Run(c, actions).value.tasks[id])
    ensures var g := Run(c, actions).value;
      Next(c, g, TimeOut(id)).Some? || Next(c, g, Wake(id)).Some? || Next(c, g, Commit(id)).Some?
  {
    RunKeeps(c, actions);
    hide Run;
    assert TaskOnTime(c, Run(c, actions).value, Run(c, actions).value.tasks[id]);
  }

  // ---------------------------------------------------------------- the rate bound is attained

  /** All calls are over and the next one would find a free slot at time `at`. */
  ghost predicate Quiescent(c: Config, g: Gate, at: nat) {
    && (forall id :: id in g.tasks ==> g.tasks[id].Finished?)
    && g.free == c.maxConcurrency && g.holders == {} && g.clock <= at
    && (g.nextStart.Some? ==> g.nextStart.value <= at)
  }

  lemma RunSnoc(c: Config, actions: seq<Action>, action: Action)
    requires Run(c, actions).Some?
    ensures Run(c, actions + [action]) == Next(c, Run(c, actions).value, action)
  {
    hide Next;
    assert (actions + [action])[..|actions|] == actions;
  }

  /** One call served from start to finish at time `at`. */
  lemma Serve(c: Config, actions: seq<Action>, id: TaskId, at: nat) returns (longer: seq<Action>)
    requires ValidConfig(c) && c.interval.Some? && Run(c, actions).Some?
    requires Quiescent(c, Run(c, actions).value, at) && id !in Run(c, actions).value.tasks
    ensures Run(c, longer).Some?
    ensures var g, g' := Run(c, actions).value, Run(c, longer).value;
      && g'.clock == at && g'.starts == g.starts + [at] && g'.nextStart == Some(at + c.interval.value)
      && g'.tasks == g.tasks[id := Finished] && g'.free == c.maxConcurrency && g'.holders == {}
  {
    hide Run;
    var g := Run(c, actions).value;
    var steps := [Tick(at - g.clock), Call(id), ReadSlot(id), Acquire(id), Commit(id), Release(id)];
    RunSnoc(c, actions, steps[0]);
    var g1 := g.(clock := at);
    assert MayTick(c, g, at - g.clock);
    RunSnoc(c, actions + [steps[0]], steps[1]);
    var a1 := actions + [steps[0]] + [steps[1]];
    RunSnoc(c, a1, steps[2]);
    RunSnoc(c, a1 + [steps[2]], steps[3]);
    RunSnoc(c, a1 + [steps[2]] + [steps[3]], steps[4]);
    RunSnoc(c, a1 + [steps[2]] + [steps[3]] + [steps[4]], steps[5]);
    longer := a1 + [steps[2]] + [steps[3]] + [steps[4]] + [steps[5]];
  }

  /** For every `n` some run commits `n` starts exactly one interval apart, beginning at time 0. */
  lemma {:induction false} StartsCanBeTight(c: Config, n: nat) returns (actions: seq<Action>)
    requires ValidConfig(c) && c.interval.Some?
    ensures Run(c, actions).Some?
    ensures Run(c, actions).value.starts == seq(n, i requires i >= 0 => i * c.interval.value)
    ensures Quiescent(c, Run(c, actions).value, n * c.interval.value)
    ensures forall id :: id in Run(c, actions).value.tasks ==> id < n
  {
    hide Next;
    if n == 0 {
      actions := [];
    } else {
      var before := StartsCanBeTight(c, n - 1);
      actions := Serve(c, before, n - 1, (n - 1) * c.interval.value);
      assert (n - 1) * c.interval.value + c.interval.value == n * c.interval.value;
    }
  }

  /** The bound is attained: for every configuration some run admits a call exactly that long after it was made. */
  lemma LongestIsAttained(c: Config) returns (actions: seq<Action>)
    requires ValidConfig(c)
    ensures Run(c, actions).Some?
    ensures var g := Run(c, actions).value;
      0 in g.tasks && g.tasks[0] == Admitted(0, 0) && g.clock == Longest(c)
  {
    hide Run;
    assert Run(c, []) == Some(Initial(c)) by {
      RunOfNothing(c);
    }
    actions := [] + [Call(0)];
    RunSnoc(c, [], Call(0));
    if c.interval.Some? {
      RunSnoc(c, actions, Tick(c.qpsWait));
      actions := actions + [Tick(c.qpsWait)];
      RunSnoc(c, actions, ReadSlot(0));
      actions := actions + [ReadSlot(0)];
    }
    RunSnoc(c, actions, Tick(c.concurrencyWait));
    actions := actions + [Tick(c.concurrencyWait)];
    RunSnoc(c, actions, Acquire(0));
    actions := actions + [Acquire(0)];
    if c.interval.Some? {
      RunSnoc(c, actions, Commit(0));
      actions := actions + [Commit(0)];
    }
  }

  /** The wait for the lock before a commit lasts up to the slot deadline: some run commits only then. */
  lemma CommitMayComeLast(c: Config) returns (actions: seq<Action>)
    requires ValidConfig(c) && c.interval.Some?
    ensures Run(c, actions).Some?
    ensures var g := Run(c, actions).value;
      0 in g.tasks && g.tasks[0] == Admitted(0, 0) && g.clock == c.qpsWait && g.starts == [c.qpsWait]
  {
    hide Run;
    RunOfNothing(c);
    actions := [] + [Call(0)];
    RunSnoc(c, [], Call(0));
    RunSnoc(c, actions, ReadSlot(0));
    actions := actions + [ReadSlot(0)];
    RunSnoc(c, actions, Acquire(0));
    actions := actions + [Acquire(0)];
    RunSnoc(c, actions, Tick(c.qpsWait));
    actions := actions + [Tick(c.qpsWait)];
    RunSnoc(c, actions, Commit(0));
    actions := actions + [Commit(0)];
  }

  lemma RunOfNothing(c: Config)
    ensures Run(c, []) == Some(Initial(c))
  {
  }

  // ---------------------------------------------------------------- when a rate per second is kept

  const SECOND: nat := 1_000_000_000

  function StartsInSecond(starts: seq<nat>, from: nat): nat {
    StartsIn(starts, from, from + SECOND - 1)
  }

  /** No run starts more than `n` requests within any one second, wherever that second begins. */
  ghost predicate RateKept(c: Config, n: nat) {
    forall actions, from: nat :: Run(c, actions).Some? ==>
      StartsInSecond(Run(c, actions).value.starts, from) <= n
  }

  /** Evenly spaced starts from time 0 that end within a window all lie in it. */
  lemma {:induction false} AllStartsIn(interval: nat, n: nat, to: nat)
    requires n > 0 ==> (n - 1) * interval <= to
    ensures StartsIn(seq(n, i requires i >= 0 => i * interval), 0, to) == n
  {
    if n > 0 {
      assert n > 1 ==> (n - 2) * interval <= (n - 1) * interval;
      AllStartsIn(interval, n - 1, to);
      var starts := seq(n, i requires i >= 0 => i * interval);
      assert starts[..n - 1] == seq(n - 1, i requires i >= 0 => i * interval);
    }
  }

  lemma SpacedRunsKeepRate(c: Config, n: nat, actions: seq<Action>, from: nat)
    requires ValidConfig(c) && c.interval.Some? && Run(c, actions).Some?
    requires n * c.interval.value >= SECOND
    ensures StartsInSecond(Run(c, actions).value.starts, from) <= n
  {
    hide Run, StartsIn;
    var interval := c.interval.value;
    WindowBound(c, actions, from, SECOND - 1);
    QuotientAtLeast(n, interval, SECOND - 1);
  }

  /**
   * `n` requests a second are kept in every run exactly when `n` intervals fill the second, that is
   * when rounding the interval to whole nanoseconds did not round it down.
   */
  lemma RateKeptIff(c: Config, n: nat)
    requires ValidConfig(c) && c.interval.Some?
    ensures RateKept(c, n) <==> n * c.interval.value >= SECOND
  {
    hide Run, StartsIn;
    if n * c.interval.value >= SECOND {
      forall actions, from: nat | Run(c, actions).Some?
        ensures StartsInSecond(Run(c, actions).value.starts, from) <= n
      {
        SpacedRunsKeepRate(c, n, actions, from);
      }
    } else {
      var actions := StartsCanBeTight(c, n + 1);
      AllStartsIn(c.interval.value, n + 1, SECOND - 1);
      assert StartsInSecond(Run(c, actions).value.starts, 0) == n + 1;
    }
  }

  /** At three requests a second the interval is rounded down, and four starts fit into one second. */
  lemma FourStartsInOneSecond(c: Config) returns (actions: seq<Action>)
    requires ValidConfig(c) && c.interval == Some(333_333_333)
    ensures !RateKept(c, 3) && RateKept(c, 4)
    ensures Run(c, actions).Some?
    ensures StartsInSecond(Run(c, actions).value.starts, 0) == 4
  {
    hide Run, StartsIn, RateKept;
    RateKeptIff(c, 3);
    RateKeptIff(c, 4);
    actions := StartsCanBeTight(c, 4);
    AllStartsIn(333_333_333, 4, SECOND - 1);
  }
}
