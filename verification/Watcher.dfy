/** The bounded watcher that reports new and changed active orders one at a time. */
module Watcher {
  import opened Prelude
  import opened Delays
  import opened Snapshots
  import P = Polling

  datatype ActiveReply = Orders(orders: seq<ActiveOrder>) | RateLimited(retryAfter: Option<nat>) | Failure(error: nat)

  /** One poll: how late the sleep before it ends, its reply and duration, and the draw for the delay after it. */
  datatype Poll = Poll(overslept: nat, reply: ActiveReply, took: nat, lag: nat, drawn: nat)

  datatype WatchOutcome =
    | Event(order: ActiveOrder)
    | Stopped(why: P.StopReason, lastObserved: Option<ActiveOrder>)
    | ClientError(error: nat)
    | TrackingLimitExceeded(limit: nat, observed: nat)
    | Running

  function RetryAfter(reply: ActiveReply): Option<nat> {
    if reply.RateLimited? then reply.retryAfter else None
  }

  function AcceptedOf(reply: ActiveReply, limit: nat): seq<Snapshot> {
    if reply.Orders? && |Unique(reply.orders)| <= limit then [Unique(reply.orders)] else []
  }

  /** The snapshots among the replies of these polls that stay within the tracking limit. */
  function Accepted(polls: seq<Poll>, limit: nat): (r: seq<Snapshot>)
    ensures forall now :: now in r ==> KeyedById(now) && |now| <= limit
  {
    if polls == [] then []
    else
      Accepted(polls[..|polls| - 1], limit) + AcceptedOf(polls[|polls| - 1].reply, limit)
  }

  function ToOption(shown: seq<ActiveOrder>): Option<ActiveOrder> {
    if shown == [] then None else Some(shown[0])
  }

  class ActiveOrdersWatcher {
    const options: P.PollOptions
    const maxTrackedOrders: nat
    var fingerprints: map<int, Face>
    var pending: seq<ActiveOrder>
    var nextPollAt: Option<nat>
    var interval: nat
    var lastObserved: Option<ActiveOrder>

    /** The snapshots accepted so far, the events handed out, and the number of scheduled polls. */
    ghost var history: seq<Snapshot>
    ghost var returned: seq<ActiveOrder>
    ghost var scheduled: nat

    /** The fields are what the history of accepted snapshots says they should be. */
    ghost predicate Consistent()
      reads this
    {
      && P.ValidOptions(options) && maxTrackedOrders > 0
      && interval == P.IntervalAfter(options, scheduled)
      && (forall now :: now in history ==> KeyedById(now) && |now| <= maxTrackedOrders)
      && fingerprints == Faces(Latest(history))
      && lastObserved == ToOption(LastShown(history))
      && returned + pending == AllChanges(history)
    }

    ghost predicate Valid()
      reads this
    {
      Consistent() && |pending| <= maxTrackedOrders && |fingerprints| <= maxTrackedOrders
    }

    constructor (options: P.PollOptions, maxTrackedOrders: nat)
      requires P.ValidOptions(options) && maxTrackedOrders > 0
      ensures Valid() && history == [] && returned == []
      ensures this.options == options && this.maxTrackedOrders == maxTrackedOrders && nextPollAt == None
    {
      this.options := options;
      this.maxTrackedOrders := maxTrackedOrders;
      fingerprints, pending, nextPollAt, lastObserved := map[], [], None, None;
      interval := options.baseInterval;
      history, returned, scheduled := [], [], 0;
      new;
      assert Pow2(0) == 1;
    }

    /** Takes a snapshot in, or refuses one with too many orders and keeps everything. */
    method RecordSnapshot(orders: seq<ActiveOrder>) returns (excess: Option<nat>)
      requires Consistent()
      modifies this`fingerprints, this`pending, this`lastObserved, this`history
      ensures Consistent()
      ensures excess == if |Unique(orders)| > maxTrackedOrders then Some(|Unique(orders)|) else None
      ensures excess.Some? ==> fingerprints == old(fingerprints) && lastObserved == old(lastObserved)
      ensures excess.Some? ==> pending == old(pending) && history == old(history)
      ensures excess.None? ==> history == old(history) + [Unique(orders)]
      ensures excess.None? ==> pending == old(pending) + Changes(old(fingerprints), Unique(orders))
    {
      hide Unique, AllChanges, LastShown, Changes, Faces, Latest, KeyedById, P.IntervalAfter;
      var unique := KeepLast(orders);
      if |unique| > maxTrackedOrders {
        return Some(|unique|);
      }
      HistoryExtends(history, unique);
      TakeIn(unique);
      history := history + [unique];
      return None;
    }

    /** The loop of `record_snapshot`: compares order by order, queues changes, and keeps the new faces. */
    method TakeIn(unique: Snapshot)
      requires KeyedById(unique)
      modifies this`fingerprints, this`pending, this`lastObserved
      ensures fingerprints == Faces(unique)
      ensures pending == old(pending) + Changes(old(fingerprints), unique)
      ensures lastObserved == if unique == map[] then old(lastObserved) else Some(unique[GreatestKey(unique)])
    {
      hide Changes, IsChange, Overlaid, Faces;
      ghost var before := fingerprints;
      fingerprints := map id | id in fingerprints && id in unique :: fingerprints[id];
      var remaining := unique.Keys;
      ghost var seen: Snapshot := map[];
      OverlaidEnds(before, unique);
      while remaining != {}
        invariant remaining <= unique.Keys && seen == unique - remaining
        invariant forall i, j :: i in seen && j in remaining ==> i < j
        invariant fingerprints == Overlaid(before, unique, seen)
        invariant pending == old(pending) + Changes(before, seen)
        invariant lastObserved == if seen == map[] then old(lastObserved) else Some(seen[GreatestKey(seen)])
        decreases remaining
      {
        var id := LeastOf(remaining);
        var order := unique[id];
        TakeInStep(before, unique, remaining, seen, id);
        if id !in fingerprints || fingerprints[id] != order.face {
          pending := pending + [order];
        }
        fingerprints := fingerprints[id := order.face];
        lastObserved := Some(order);
        remaining := remaining - {id};
        seen := seen[id := order];
      }
      assert seen == unique;
    }

    method ScheduleNext(now: nat, retryAfter: Option<nat>, drawn: nat)
      requires Consistent() && P.Drawable(options, interval, retryAfter, drawn)
      modifies this`interval, this`nextPollAt, this`scheduled
      ensures Consistent() && scheduled == old(scheduled) + 1
      ensures nextPollAt == Some(Min(now + P.PollingDelay(options, old(interval), retryAfter, drawn), options.deadline))
    {
      P.IntervalDoubles(options, scheduled);
      var normal := interval;
      interval := P.AdvanceInterval(interval, options.maxInterval);
      scheduled := scheduled + 1;
      nextPollAt := Some(P.CappedWakeAt(now, P.PollingDelay(options, normal, retryAfter, drawn), options.deadline));
    }

    /** `next`: hands out one event, or says why not. `Running` means the given polls were all silent. */
    method Next(began: nat, polls: seq<Poll>)
      returns (outcome: WatchOutcome, polledAt: seq<nat>, answered: nat, ended: nat)
      requires Valid() && ValidPolls(options, scheduled, polls)
      modifies this
      ensures Valid()
      ensures returned == old(returned) + if outcome.Event? then [outcome.order] else []
      ensures !outcome.Event? ==> pending == old(pending)
      ensures answered <= |polls| && history == old(history) + Accepted(polls[..answered], maxTrackedOrders)
      ensures scheduled == old(scheduled) + answered - if Refused(outcome) then 1 else 0
      ensures outcome.Stopped? ==> outcome.lastObserved == lastObserved
      ensures P.StopAt(options, began).None? && old(pending) != [] ==>
        outcome == Event(old(pending)[0]) && polledAt == [] && answered == 0
      ensures P.StopAt(options, began).Some? || old(pending) == [] ==>
        Call(options, began, old(scheduled), old(nextPollAt), polls).RunsTo(
          old(history), maxTrackedOrders, outcome, polledAt, answered, ended)
    {
      hide P.StopAt, P.PollingDelay, P.IntervalAfter, P.Drawable, PolledAt, Accepted, AllChanges, LastShown, Faces,
        Changes;
      assert Accepted(polls[..0], maxTrackedOrders) == [] by {
        NothingAccepted(polls, maxTrackedOrders);
      }
      if P.StopAt(options, began).Some? {
        return Stopped(P.StopAt(options, began).value, lastObserved), [], 0, began;
      }
      if pending != [] {
        var event := PopFront();
        return Event(event), [], 0, began;
      }
      outcome, polledAt, answered, ended := PollUntilChange(began, polls);
    }

    /** The polling loop of `next`, entered with nothing queued. */
    method PollUntilChange(began: nat, polls: seq<Poll>)
      returns (outcome: WatchOutcome, polledAt: seq<nat>, answered: nat, ended: nat)
      requires Valid() && pending == [] && ValidPolls(options, scheduled, polls) && P.StopAt(options, began).None?
      modifies this
      ensures Valid()
      ensures returned == old(returned) + if outcome.Event? then [outcome.order] else []
      ensures !outcome.Event? ==> pending == []
      ensures answered <= |polls| && history == old(history) + Accepted(polls[..answered], maxTrackedOrders)
      ensures scheduled == old(scheduled) + answered - if Refused(outcome) then 1 else 0
      ensures outcome.Stopped? ==> outcome.lastObserved == lastObserved
      ensures Call(options, began, old(scheduled), old(nextPollAt), polls).RunsTo(
        old(history), maxTrackedOrders, outcome, polledAt, answered, ended)
    {
      hide P.StopAt, P.PollingDelay, P.IntervalAfter, P.Resumes, P.Drawable, PolledAt, RepliedAt, ScheduledFor,
        QuietFor, Call.LooksAt, Call.RunsTo, KeyedById, ToOption, Latest, Accepted, AcceptedOf, AllChanges, LastShown,
        Faces, Changes, Unique;
      ghost var call := Call(options, began, scheduled, nextPollAt, polls);
      ghost var before := history;
      answered, polledAt := 0, [];
      NothingAccepted(polls, maxTrackedOrders);
      CallStarts(call);
      QuietSoFar(before, polls, maxTrackedOrders);
      var now: nat := began;
      while answered < |polls|
        invariant 0 <= answered <= |polls| && |polledAt| == answered
        invariant Valid() && pending == [] && returned == old(returned)
        invariant history == before + Accepted(polls[..answered], maxTrackedOrders)
        invariant scheduled == call.first + answered
        invariant call.OnSchedule(polledAt, answered) && QuietFor(before, polls, maxTrackedOrders, answered)
        invariant nextPollAt == ScheduledFor(call, answered) && now == LookedAt(call, answered)
        invariant answered > 0 ==> P.StopAt(options, now).None?
        invariant AllChanges(history) == AllChanges(before)
      {
        var poll := polls[answered];
        PolledAtIs(call, answered);
        RepliedAtIs(call, answered);
        var stop, polled, repliedAt := Ask(now, poll);
        polledAt := polledAt + polled;
        if stop.Some? {
          StopEndsCall(call, before, maxTrackedOrders, stop.value, lastObserved, polledAt, answered, repliedAt);
          return Stopped(stop.value, lastObserved), polledAt, answered, repliedAt;
        }
        AcceptedStep(polls, answered, maxTrackedOrders);
        ScheduledForIs(call, answered);
        var end := TakeReply(repliedAt, poll.reply, poll.drawn);
        answered := answered + 1;
        assert history == before + Accepted(polls[..answered], maxTrackedOrders);
        ReplyEndsOrGoesOn(call, before, maxTrackedOrders, end, polledAt, answered - 1);
        if end.Some? {
          return end.value, polledAt, answered, repliedAt;
        }
        now := repliedAt;
      }
      PollsUsedUp(call, before, maxTrackedOrders, polledAt);
      return Running, polledAt, answered, now;
    }

    /** Waits for the next poll and makes it; a stop on the way leaves `polled` empty or the poll unanswered. */
    method Ask(now: nat, poll: Poll) returns (stop: Option<P.StopReason>, polled: seq<nat>, at: nat)
      ensures stop == P.StopAt(options, at)
      ensures var woken := if P.StopAt(options, now).Some? || nextPollAt.None? then now
          else P.Resumes(options, Max(now, nextPollAt.value), poll.overslept);
        if P.StopAt(options, woken).Some? then polled == [] && at == woken
        else polled == [woken] && at == P.Resumes(options, woken + poll.took, poll.lag)
    {
      hide P.StopAt, P.Resumes;
      stop, at := WaitUntilNextPoll(now, poll.overslept);
      polled := [];
      if stop.None? {
        polled := [at];
        at := P.Resumes(options, at + poll.took, poll.lag);
        stop := P.StopAt(options, at);
      }
    }

    method WaitUntilNextPoll(now: nat, overslept: nat) returns (stop: Option<P.StopReason>, wokenAt: nat)
      ensures stop == P.StopAt(options, wokenAt)
      ensures wokenAt == if P.StopAt(options, now).Some? || nextPollAt.None? then now
        else P.Resumes(options, Max(now, nextPollAt.value), overslept)
    {
      wokenAt := now;
      if P.StopAt(options, now).None? && nextPollAt.Some? {
        wokenAt := P.Resumes(options, Max(now, nextPollAt.value), overslept);
      }
      stop := P.StopAt(options, wokenAt);
    }

    /** The part of `next` after a reply has come in: None if there is nothing to hand out yet. */
    method TakeReply(repliedAt: nat, reply: ActiveReply, drawn: nat) returns (end: Option<WatchOutcome>)
      requires Valid() && pending == [] && P.Drawable(options, interval, RetryAfter(reply), drawn)
      modifies this
      ensures Valid()
      ensures history == old(history) + AcceptedOf(reply, maxTrackedOrders)
      ensures RefusalOf(reply, maxTrackedOrders).Running? ==> scheduled == old(scheduled) + 1 && nextPollAt == Some(
        Min(repliedAt + P.PollingDelay(options, old(interval), RetryAfter(reply), drawn), options.deadline))
      ensures !RefusalOf(reply, maxTrackedOrders).Running? ==>
        && end == Some(RefusalOf(reply, maxTrackedOrders)) && pending == [] && returned == old(returned)
        && scheduled == old(scheduled) && nextPollAt == old(nextPollAt)
      ensures end.None? ==> pending == [] && returned == old(returned)
      ensures end.Some? && RefusalOf(reply, maxTrackedOrders).Running? ==>
        end.value.Event? && returned == old(returned) + [end.value.order]
      ensures RefusalOf(reply, maxTrackedOrders).Running? ==>
        (end.None? <==> AllChanges(history) == AllChanges(old(history)))
    {
      hide P.PollingDelay, P.IntervalAfter, P.Drawable, AllChanges, LastShown, Faces, Changes, Unique;
      match reply {
        case RateLimited(retryAfter) =>
          ScheduleNext(repliedAt, retryAfter, drawn);
          return None;
        case Failure(error) =>
          return Some(ClientError(error));
        case Orders(orders) =>
          SnapshotBounds(fingerprints, Unique(orders));
          var excess := RecordSnapshot(orders);
          if excess.Some? {
            return Some(TrackingLimitExceeded(maxTrackedOrders, excess.value));
          }
          ScheduleNext(repliedAt, None, drawn);
          if pending == [] {
            return None;
          }
          var event := PopFront();
          return Some(Event(event));
      }
    }

    method PopFront() returns (event: ActiveOrder)
      requires Consistent() && pending != []
      modifies this`pending, this`returned
      ensures Consistent() && pending == old(pending)[1..]
      ensures event == old(pending)[0] && returned == old(returned) + [event]
    {
      event := pending[0];
      assert returned + pending == (returned + [event]) + pending[1..];
      returned, pending := returned + [event], pending[1..];
    }
  }

  /** A poll that ended the call with an error: it schedules nothing, so the next call may poll at once. */
  predicate Refused(outcome: WatchOutcome) {
    outcome.ClientError? || outcome.TrackingLimitExceeded?
  }

  function RefusalOf(reply: ActiveReply, limit: nat): WatchOutcome {
    match reply
    case Failure(error) => ClientError(error)
    case Orders(orders) => if |Unique(orders)| > limit then TrackingLimitExceeded(limit, |Unique(orders)|) else Running
    case RateLimited(_) => Running
  }

  predicate ValidPolls(o: P.PollOptions, first: nat, polls: seq<Poll>)
    requires P.ValidOptions(o)
  {
    forall i :: 0 <= i < |polls| ==>
      P.Drawable(o, P.IntervalAfter(o, first + i), RetryAfter(polls[i].reply), polls[i].drawn)
  }

  // ---------------------------------------------------------------- the moments of one call

  /** What a call of `next` starts from: the polls scheduled before it, and when the next one is due. */
  datatype Call = Call(options: P.PollOptions, began: nat, first: nat, due: Option<nat>, polls: seq<Poll>) {
    /** The polls made: none after a look that finds a stop. */
    predicate OnSchedule(polledAt: seq<nat>, answered: nat) {
      && answered <= |polledAt| <= |polls| && |polledAt| <= answered + 1
      && (|polledAt| > 0 ==> P.StopAt(options, began).None?)
      && (forall i :: 0 <= i < |polledAt| ==>
            polledAt[i] == PolledAt(this, i) && P.StopAt(options, polledAt[i]).None?)
      && (forall i :: 0 <= i < answered ==> P.StopAt(options, RepliedAt(this, i)).None?)
    }

    /** The look that ends the call: at its beginning, at a poll in flight, or at the end of a wait. */
    predicate LooksAt(polledAt: seq<nat>, answered: nat, at: nat) {
      if |polledAt| > answered then answered < |polls| && at == RepliedAt(this, answered)
      else if P.StopAt(options, began).Some? then at == began
      else answered < |polls| && at == PolledAt(this, answered)
    }

    /**
     * A run of the loop: it ends at the first look that finds a stop, the first refused reply, the
     * first snapshot with a change, or when the polls are used up.
     */
    ghost predicate RunsTo(
        history: seq<Snapshot>, limit: nat, outcome: WatchOutcome, polledAt: seq<nat>, answered: nat, ended: nat)
    {
      && OnSchedule(polledAt, answered)
      && match outcome
         case Stopped(why, _) =>
           && QuietFor(history, polls, limit, answered)
           && P.StopAt(options, ended) == Some(why) && LooksAt(polledAt, answered, ended)
         case Running =>
           && P.StopAt(options, began).None? && QuietFor(history, polls, limit, answered)
           && answered == |polledAt| == |polls| && ended == LookedAt(this, answered)
         case _ =>
           && answered == |polledAt| > 0 && ended == RepliedAt(this, answered - 1)
           && QuietFor(history, polls, limit, answered - 1)
           && (if Refused(outcome) then outcome == RefusalOf(polls[answered - 1].reply, limit)
               else
                 RefusalOf(polls[answered - 1].reply, limit).Running?
                 && AllChanges(history + Accepted(polls[..answered], limit)) != AllChanges(history))
    }
  }

  /** The first `n` replies are not refused and change nothing that a consumer has to be told. */
  ghost predicate QuietFor(history: seq<Snapshot>, polls: seq<Poll>, limit: nat, n: nat)
    requires n <= |polls|
  {
    forall i :: 0 <= i < n ==>
      && RefusalOf(polls[i].reply, limit).Running?
      && AllChanges(history + Accepted(polls[..i + 1], limit)) == AllChanges(history)
  }

  /** When the loop comes round to poll `i`: at once, or with the reply to the poll before. */
  function LookedAt(c: Call, i: nat): nat
    requires i <= |c.polls|
    decreases i, 0
  {
    if i == 0 then c.began else RepliedAt(c, i - 1)
  }

  /** What the schedule says then: the due time found at the beginning, or a full delay after that reply. */
  function ScheduledFor(c: Call, i: nat): Option<nat>
    requires i <= |c.polls|
    decreases i, 1
  {
    if i == 0 then c.due
    else
      var reply := c.polls[i - 1].reply;
      var delay := P.PollingDelay(
        c.options, P.IntervalAfter(c.options, c.first + i - 1), RetryAfter(reply), c.polls[i - 1].drawn);
      Some(P.CappedWakeAt(RepliedAt(c, i - 1), delay, c.options.deadline))
  }

  /** When poll `i` starts, unless a stop is found. */
  function PolledAt(c: Call, i: nat): nat
    requires i < |c.polls|
    decreases i, 2
  {
    var due := ScheduledFor(c, i);
    if due.None? then LookedAt(c, i)
    else P.Resumes(c.options, Max(LookedAt(c, i), due.value), c.polls[i].overslept)
  }

  function RepliedAt(c: Call, i: nat): nat
    requires i < |c.polls|
    decreases i, 3
  {
    P.Resumes(c.options, PolledAt(c, i) + c.polls[i].took, c.polls[i].lag)
  }

  /** The contract leaves no choice: two runs of one call make the same polls and end at the same moment. */
  lemma CallHasOneRun(
      c: Call, history: seq<Snapshot>, limit: nat,
      out1: WatchOutcome, p1: seq<nat>, n1: nat, e1: nat, out2: WatchOutcome, p2: seq<nat>, n2: nat, e2: nat)
    requires c.RunsTo(history, limit, out1, p1, n1, e1) && c.RunsTo(history, limit, out2, p2, n2, e2)
    ensures n1 == n2 && p1 == p2 && e1 == e2
    ensures (out1.Event? <==> out2.Event?) && (out1.Stopped? <==> out2.Stopped?)
    ensures out1.Stopped? ==> out1.why == out2.why
    ensures Refused(out1) ==> out1 == out2
  {
    hide PolledAt, RepliedAt, P.StopAt, AllChanges, Accepted, P.Resumes;
    AnswersAsMany(c, history, limit, out1, p1, n1, e1, out2, p2, n2, e2);
    AnswersAsMany(c, history, limit, out2, p2, n2, e2, out1, p1, n1, e1);
    assert p1 == p2;
  }

  lemma AnswersAsMany(
      c: Call, history: seq<Snapshot>, limit: nat,
      out1: WatchOutcome, p1: seq<nat>, n1: nat, e1: nat, out2: WatchOutcome, p2: seq<nat>, n2: nat, e2: nat)
    requires c.RunsTo(history, limit, out1, p1, n1, e1) && c.RunsTo(history, limit, out2, p2, n2, e2)
    ensures n1 <= n2 && (n1 == n2 ==> |p1| <= |p2|)
  {
    hide PolledAt, RepliedAt, P.StopAt, AllChanges, Accepted, P.Resumes;
  }

  /** Polls are paced: not before their time, and a full pause after the reply to the one before. */
  lemma PollsArePaced(c: Call, polledAt: seq<nat>, answered: nat, i: nat)
    requires P.ValidOptions(c.options) && ValidPolls(c.options, c.first, c.polls)
    requires c.OnSchedule(polledAt, answered) && i < |polledAt|
    ensures polledAt[i] < P.FirstStop(c.options)
    ensures i == 0 && c.due.Some? ==> polledAt[0] >= c.due.value
    ensures i > 0 ==> polledAt[i] >= polledAt[i - 1] + c.polls[i - 1].took + LeastPause(c, i - 1)
  {
    hide P.PollingDelay, P.IntervalAfter, P.Drawable, JitterMin, P.Resumes, PolledAt, RepliedAt, ScheduledFor;
    CallStarts(c);
    PolledAtIs(c, i);
    if i == 0 {
      if c.due.Some? {
        P.ResumesOnTime(c.options, Max(c.began, c.due.value), c.polls[0].overslept);
      }
    } else {
      var delay := P.PollingDelay(
        c.options, P.IntervalAfter(c.options, c.first + i - 1), RetryAfter(c.polls[i - 1].reply), c.polls[i - 1].drawn);
      P.DelayBounds(c.options, c.first + i - 1, RetryAfter(c.polls[i - 1].reply), c.polls[i - 1].drawn);
      RepliedAtIs(c, i - 1);
      P.ResumesOnTime(c.options, polledAt[i - 1] + c.polls[i - 1].took, c.polls[i - 1].lag);
      ScheduledForIs(c, i - 1);
      var due := Min(RepliedAt(c, i - 1) + delay, c.options.deadline);
      P.WokeBeforeDeadline(c.options, Max(LookedAt(c, i), due), c.polls[i].overslept);
    }
  }

  /** The least pause after poll `i`: what the server asked for and the jittered interval. */
  function LeastPause(c: Call, i: nat): nat
    requires P.ValidOptions(c.options) && i < |c.polls|
  {
    Max(P.Floor(RetryAfter(c.polls[i].reply)), JitterMin(c.options.jitter, P.IntervalAfter(c.options, c.first + i)))
  }

  lemma HistoryExtends(history: seq<Snapshot>, now: Snapshot)
    ensures Latest(history + [now]) == now
    ensures AllChanges(history + [now]) == AllChanges(history) + Changes(Faces(Latest(history)), now)
    ensures LastShown(history + [now]) == if now == map[] then LastShown(history) else [now[GreatestKey(now)]]
  {
    assert (history + [now])[..|history + [now]| - 1] == history;
  }

  method KeepLast(orders: seq<ActiveOrder>) returns (unique: Snapshot)
    ensures unique == Unique(orders)
  {
    unique := map[];
    for i := 0 to |orders|
      invariant unique == Unique(orders[..i])
    {
      assert orders[..i + 1][..i] == orders[..i];
      unique := unique[orders[i].id := orders[i]];
    }
    assert orders[..|orders|] == orders;
  }

  /** The fingerprint map half way through a snapshot: survivors of the old one under what was seen. */
  ghost function Overlaid(before: map<int, Face>, unique: Snapshot, seen: Snapshot): map<int, Face> {
    (map id | id in before && id in unique :: before[id]) + Faces(seen)
  }

  lemma OverlaidEnds(before: map<int, Face>, unique: Snapshot)
    ensures Overlaid(before, unique, map[]) == map id | id in before && id in unique :: before[id]
    ensures Overlaid(before, unique, unique) == Faces(unique)
    ensures Changes(before, map[]) == []
  {
  }

  lemma OverlaidStep(before: map<int, Face>, unique: Snapshot, seen: Snapshot, order: ActiveOrder)
    requires order.id in unique && order.id !in seen
    ensures Overlaid(before, unique, seen[order.id := order]) == Overlaid(before, unique, seen)[order.id := order.face]
    ensures IsChange(before, order) <==>
      order.id !in Overlaid(before, unique, seen) || Overlaid(before, unique, seen)[order.id] != order.face
  {
  }

  /** Handling the least remaining order adds exactly its change, and it is the greatest seen so far. */
  lemma TakeInStep(before: map<int, Face>, unique: Snapshot, remaining: set<int>, seen: Snapshot, id: int)
    requires KeyedById(unique) && id in remaining && remaining <= unique.Keys && seen == unique - remaining
    requires forall i, j :: i in seen && j in remaining ==> i < j
    requires forall j :: j in remaining ==> id <= j
    ensures var order := unique[id];
      var now := seen[id := order];
      var faces := Overlaid(before, unique, seen);
      && now == unique - (remaining - {id}) && now != map[] && GreatestKey(now) == id
      && Overlaid(before, unique, now) == faces[id := order.face]
      && Changes(before, now)
        == Changes(before, seen) + if id !in faces || faces[id] != order.face then [order] else []
  {
    var order := unique[id];
    ChangesStep(before, seen, order);
    OverlaidStep(before, unique, seen, order);
    GreatestOfExtended(seen, order);
  }

  lemma GreatestOfExtended(seen: Snapshot, order: ActiveOrder)
    requires forall id :: id in seen ==> id < order.id
    ensures var now := seen[order.id := order]; now != map[] && GreatestKey(now) == order.id
  {
    var now := seen[order.id := order];
    assert order.id in now;
    assert GreatestKey(now) in now;
  }

  lemma {:induction false} SomeLeast(ids: set<int>)
    requires ids != {}
    ensures exists k :: k in ids && forall j :: j in ids ==> k <= j
    decreases |ids|
  {
    assert (forall k :: k !in ids) ==> ids == {};
    var k :| k in ids;
    var others := ids - {k};
    assert forall j :: j in ids && j != k ==> j in others;
    if others != {} {
      SomeLeast(others);
      var m :| m in others && forall j :: j in others ==> m <= j;
      LeastOfTwo(ids, k, m);
    }
  }

  lemma LeastOfTwo(ids: set<int>, k: int, m: int)
    requires k in ids && m in ids && forall j :: j in ids && j != k ==> m <= j
    ensures exists least :: least in ids && forall j :: j in ids ==> least <= j
  {
    var least := if m <= k then m else k;
    assert least in ids;
  }

  method LeastOf(ids: set<int>) returns (k: int)
    requires ids != {}
    ensures k in ids && forall j :: j in ids ==> k <= j
  {
    SomeLeast(ids);
    k :| k in ids && forall j :: j in ids ==> k <= j;
  }

  lemma NothingAccepted(polls: seq<Poll>, limit: nat)
    ensures polls[..0] == [] && Accepted(polls[..0], limit) == []
  {
  }

  lemma SnapshotBounds(before: map<int, Face>, now: Snapshot)
    requires KeyedById(now)
    ensures |Faces(now)| == |now| && |Changes(before, now)| <= |now|
  {
    ChangesAscend(before, now);
    assert Faces(now).Keys == now.Keys;
    assert |Faces(now).Keys| == |now.Keys|;
  }

  lemma AcceptedStep(polls: seq<Poll>, n: nat, limit: nat)
    requires n < |polls|
    ensures Accepted(polls[..n + 1], limit) == Accepted(polls[..n], limit) + AcceptedOf(polls[n].reply, limit)
  {
    assert polls[..n + 1][..n] == polls[..n];
  }

  lemma QuietSoFar(history: seq<Snapshot>, polls: seq<Poll>, limit: nat)
    ensures QuietFor(history, polls, limit, 0)
  {
  }

  lemma StopEndsCall(
      c: Call, history: seq<Snapshot>, limit: nat, why: P.StopReason, last: Option<ActiveOrder>, polledAt: seq<nat>,
      answered: nat, at: nat)
    requires c.OnSchedule(polledAt, answered) && answered < |c.polls| && QuietFor(history, c.polls, limit, answered)
    requires P.StopAt(c.options, at) == Some(why)
    requires if |polledAt| > answered then at == RepliedAt(c, answered)
      else if answered == 0 && P.StopAt(c.options, c.began).Some? then at == c.began
      else at == PolledAt(c, answered)
    ensures c.RunsTo(history, limit, Stopped(why, last), polledAt, answered, at)
  {
    hide PolledAt, RepliedAt, QuietFor, P.StopAt;
  }

  lemma ReplyEndsOrGoesOn(
      c: Call, history: seq<Snapshot>, limit: nat, end: Option<WatchOutcome>, polledAt: seq<nat>, n: nat)
    requires n < |polledAt| && c.OnSchedule(polledAt, n) && QuietFor(history, c.polls, limit, n)
    requires P.StopAt(c.options, RepliedAt(c, n)).None?
    requires var refusal := RefusalOf(c.polls[n].reply, limit);
      if !refusal.Running? then end == Some(refusal)
      else if end.None? then AllChanges(history + Accepted(c.polls[..n + 1], limit)) == AllChanges(history)
      else end.value.Event? && AllChanges(history + Accepted(c.polls[..n + 1], limit)) != AllChanges(history)
    ensures c.OnSchedule(polledAt, n + 1)
    ensures if end.Some? then c.RunsTo(history, limit, end.value, polledAt, n + 1, RepliedAt(c, n))
      else QuietFor(history, c.polls, limit, n + 1)
  {
    hide PolledAt, RepliedAt, P.StopAt, AllChanges, Accepted, RefusalOf, QuietFor;
    AnsweredOnSchedule(c, polledAt, n);
    if end.None? {
      QuietExtends(history, c.polls, limit, n);
    } else if RefusalOf(c.polls[n].reply, limit).Running? {
      assert c.RunsTo(history, limit, Event(end.value.order), polledAt, n + 1, RepliedAt(c, n));
    } else {
      RefusalsAreRefused(c.polls[n].reply, limit);
      RefusalEndsCall(c, history, limit, polledAt, n);
    }
  }

  lemma AnsweredOnSchedule(c: Call, polledAt: seq<nat>, n: nat)
    requires n < |polledAt| && c.OnSchedule(polledAt, n) && P.StopAt(c.options, RepliedAt(c, n)).None?
    ensures |polledAt| == n + 1 && c.OnSchedule(polledAt, n + 1)
  {
    hide PolledAt, RepliedAt, P.StopAt;
  }

  lemma QuietExtends(history: seq<Snapshot>, polls: seq<Poll>, limit: nat, n: nat)
    requires n < |polls| && QuietFor(history, polls, limit, n) && RefusalOf(polls[n].reply, limit).Running?
    requires AllChanges(history + Accepted(polls[..n + 1], limit)) == AllChanges(history)
    ensures QuietFor(history, polls, limit, n + 1)
  {
    hide AllChanges, Accepted, RefusalOf;
  }

  lemma RefusalsAreRefused(reply: ActiveReply, limit: nat)
    requires !RefusalOf(reply, limit).Running?
    ensures Refused(RefusalOf(reply, limit))
  {
    hide Unique;
  }

  lemma RefusalEndsCall(c: Call, history: seq<Snapshot>, limit: nat, polledAt: seq<nat>, n: nat)
    requires |polledAt| == n + 1 && c.OnSchedule(polledAt, n + 1) && QuietFor(history, c.polls, limit, n)
    requires Refused(RefusalOf(c.polls[n].reply, limit))
    ensures c.RunsTo(history, limit, RefusalOf(c.polls[n].reply, limit), polledAt, n + 1, RepliedAt(c, n))
  {
    hide PolledAt, RepliedAt, P.StopAt, AllChanges, Accepted, RefusalOf, QuietFor;
  }

  lemma PollsUsedUp(c: Call, history: seq<Snapshot>, limit: nat, polledAt: seq<nat>)
    requires |polledAt| == |c.polls| && c.OnSchedule(polledAt, |polledAt|)
    requires QuietFor(history, c.polls, limit, |polledAt|) && P.StopAt(c.options, c.began).None?
    ensures c.RunsTo(history, limit, Running, polledAt, |polledAt|, LookedAt(c, |polledAt|))
  {
    hide PolledAt, RepliedAt, QuietFor, P.StopAt;
  }

  lemma CallStarts(c: Call)
    ensures ScheduledFor(c, 0) == c.due && LookedAt(c, 0) == c.began
  {
  }

  lemma PolledAtIs(c: Call, i: nat)
    requires i < |c.polls|
    ensures var due := ScheduledFor(c, i);
      PolledAt(c, i) == if due.None? then LookedAt(c, i)
        else P.Resumes(c.options, Max(LookedAt(c, i), due.value), c.polls[i].overslept)
  {
  }

  lemma RepliedAtIs(c: Call, i: nat)
    requires i < |c.polls|
    ensures RepliedAt(c, i) == P.Resumes(c.options, PolledAt(c, i) + c.polls[i].took, c.polls[i].lag)
  {
  }

  lemma ScheduledForIs(c: Call, i: nat)
    requires i < |c.polls|
    ensures LookedAt(c, i + 1) == RepliedAt(c, i)
    ensures var delay := P.PollingDelay(
        c.options, P.IntervalAfter(c.options, c.first + i), RetryAfter(c.polls[i].reply), c.polls[i].drawn);
      ScheduledFor(c, i + 1) == Some(Min(RepliedAt(c, i) + delay, c.options.deadline))
  {
  }
}
