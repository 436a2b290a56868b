/** The webhook outbox: a table of events, retried with exponential backoff by a worker
    that takes the fifty oldest due events per tick. */
module Outbox {

  datatype Status = Pending | Processing | Retrying | Delivered | Dead

  datatype Event = Event(config: nat, status: Status, attempts: nat, maxAttempts: nat, nextAttempt: int)

  /** How the handling of one selected event ends. */
  datatype Outcome = Blocked | Unbuildable | Accepted | Refused

  /** An outcome and the time of the closing update. */
  datatype Answer = Answer(outcome: Outcome, at: int)

  const BATCH_SIZE: nat := 50
  const MAX_ATTEMPTS: nat := 8

  // ---- row updates ------------------------------------------------------

  function Pow2(n: nat): (p: nat)
    ensures p >= 1
  {
    if n == 0 then 1 else 2 * Pow2(n - 1)
  }

  function Backoff(attempt: nat): int
    requires attempt > 0
  {
    var d := 5000 * Pow2(attempt - 1);
    if d < 600000 then d else 600000
  }

  function Queued(config: nat, now: int): Event {
    Event(config, Pending, 0, MAX_ATTEMPTS, now)
  }

  function Retried(e: Event, now: int): Event {
    e.(status := Pending, attempts := 0, nextAttempt := now)
  }

  function MarkProcessing(e: Event): Event {
    e.(status := Processing, attempts := e.attempts + 1)
  }

  /** The update after a failed delivery; attempts and maximum are those read with the batch. */
  function AfterFailure(e: Event, attempts: nat, maxAttempts: nat, now: int): Event {
    if attempts + 1 >= maxAttempts then e.(status := Dead)
    else e.(status := Retrying, nextAttempt := now + Backoff(attempts + 1))
  }

  /** All updates of one event that nothing else touches meanwhile. */
  function Handled(e: Event, answer: Answer): Event {
    match answer.outcome
    case Blocked => e.(status := Dead)
    case Unbuildable => MarkProcessing(e)
    case Accepted => MarkProcessing(e).(status := Delivered)
    case Refused => AfterFailure(MarkProcessing(e), e.attempts, e.maxAttempts, answer.at)
  }

  // ---- selection --------------------------------------------------------

  predicate Due(e: Event, active: set<nat>, now: int) {
    (e.status == Pending || e.status == Retrying) && e.nextAttempt <= now && e.config in active
  }

  /** The first positions below n that satisfy a condition, at most `room`. */
  function Select(due: nat -> bool, n: nat, from: nat, room: nat): seq<nat>
    requires from <= n
    decreases n - from
  {
    if from == n || room == 0 then []
    else if due(from) then [from] + Select(due, n, from + 1, room - 1)
    else Select(due, n, from + 1, room)
  }

  function DueAt(events: seq<Event>, active: set<nat>, now: int): nat -> bool {
    (i: nat) => i < |events| && Due(events[i], active, now)
  }

  /** The batch of a tick; events stand in order of creation, so it is the oldest due ones. */
  function Batch(events: seq<Event>, active: set<nat>, now: int): seq<nat> {
    Select(DueAt(events, active, now), |events|, 0, BATCH_SIZE)
  }

  /** Selected positions satisfy the condition, increase, and are never more than there
      is room for; a position is left out only for a full selection of smaller ones. */
  lemma {:induction false} SelectFacts(due: nat -> bool, n: nat, from: nat, room: nat)
    requires from <= n
    ensures var b := Select(due, n, from, room);
            && |b| <= room
            && (forall k :: 0 <= k < |b| ==> from <= b[k] < n && due(b[k]))
            && (forall k, l :: 0 <= k < l < |b| ==> b[k] < b[l])
            && (forall i :: from <= i < n && due(i) && i !in b ==> |b| == room && forall k :: 0 <= k < |b| ==> b[k] < i)
    decreases n - from
  {
    if from < n && room > 0 {
      if due(from) {
        SelectFacts(due, n, from + 1, room - 1);
        var rest := Select(due, n, from + 1, room - 1);
        assert forall i :: i in [from] + rest <==> i == from || i in rest;
      } else {
        SelectFacts(due, n, from + 1, room);
      }
    }
  }

  // ---- one tick ---------------------------------------------------------

  /** The table after one tick of the worker. */
  function Tick(events: seq<Event>, active: set<nat>, now: int, answers: nat -> Answer): (t: seq<Event>)
    ensures |t| == |events|
  {
    var batch := Batch(events, active, now);
    seq(|events|, i requires 0 <= i < |events| => if i in batch then Handled(events[i], answers(i)) else events[i])
  }

  /** How many positions of a stretch satisfy a condition. */
  function Count(due: nat -> bool, from: nat, end: nat): nat
    requires from <= end
    decreases end - from
  {
    if from == end then 0 else (if due(from) then 1 else 0) + Count(due, from + 1, end)
  }

  lemma {:induction false} SelectIff(due: nat -> bool, n: nat, from: nat, room: nat, i: nat)
    requires from <= n
    ensures i in Select(due, n, from, room) <==> from <= i < n && due(i) && Count(due, from, i) < room
    decreases n - from
  {
    if from == n {
    } else if room == 0 {
    } else if due(from) {
      SelectIff(due, n, from + 1, room - 1, i);
      SelectFacts(due, n, from + 1, room - 1);
      var rest := Select(due, n, from + 1, room - 1);
      assert i in [from] + rest <==> i == from || i in rest;
    } else {
      SelectIff(due, n, from + 1, room, i);
    }
  }

  /** The number of events older than the given one that are pending or retrying, due by
      the clock and of an active configuration. */
  function OlderDue(events: seq<Event>, active: set<nat>, now: int, i: nat): nat
    requires i <= |events|
  {
    if i == 0 then 0
    else
      var e := events[i - 1];
      OlderDue(events, active, now, i - 1) +
      (if (e.status == Pending || e.status == Retrying) && e.nextAttempt <= now && e.config in active then 1 else 0)
  }

  lemma {:induction false} CountLast(due: nat -> bool, from: nat, end: nat)
    requires from <= end
    ensures Count(due, from, end + 1) == Count(due, from, end) + (if due(end) then 1 else 0)
    decreases end - from
  {
    if from == end {
      assert Count(due, from + 1, from + 1) == 0;
    } else {
      CountLast(due, from + 1, end);
    }
  }

  lemma {:induction false} CountIsOlderDue(events: seq<Event>, active: set<nat>, now: int, i: nat)
    requires i <= |events|
    ensures Count(DueAt(events, active, now), 0, i) == OlderDue(events, active, now, i)
  {
    if i == 0 {
    } else {
      CountIsOlderDue(events, active, now, i - 1);
      CountLast(DueAt(events, active, now), 0, i - 1);
    }
  }

  /** Which events a tick takes: exactly those that are pending or retrying, due by the
      clock, of an active configuration, and have fewer than fifty such events before them. */
  lemma PickedIff(events: seq<Event>, active: set<nat>, now: int, i: nat)
    requires i < |events|
    ensures i in Batch(events, active, now) <==>
            && (events[i].status == Pending || events[i].status == Retrying)
            && events[i].nextAttempt <= now && events[i].config in active
            && OlderDue(events, active, now, i) < 50
  {
    SelectIff(DueAt(events, active, now), |events|, 0, BATCH_SIZE, i);
    CountIsOlderDue(events, active, now, i);
  }

  /** What a tick does to an event, exactly: nothing, or one attempt and the status that the
      outcome demands, or, for a blocked target, death without an attempt. */
  lemma TickIsExact(events: seq<Event>, active: set<nat>, now: int, answers: nat -> Answer, i: nat)
    requires i < |events|
    ensures var e, after, answer := events[i], Tick(events, active, now, answers)[i], answers(i);
            if (e.status == Pending || e.status == Retrying) && e.nextAttempt <= now && e.config in active &&
               OlderDue(events, active, now, i) < 50
            then
              && after.config == e.config && after.maxAttempts == e.maxAttempts
              && after.attempts == e.attempts + (if answer.outcome.Blocked? then 0 else 1)
              && (answer.outcome.Blocked? ==> after.status == Dead)
              && (answer.outcome.Unbuildable? ==> after.status == Processing)
              && (answer.outcome.Accepted? ==> after.status == Delivered)
              && (answer.outcome.Refused? && e.attempts + 1 >= e.maxAttempts ==> after.status == Dead)
              && (answer.outcome.Refused? && e.attempts + 1 < e.maxAttempts ==>
                    after.status == Retrying && 5000 <= after.nextAttempt - answer.at <= 600000)
            else after == e
  {
    PickedIff(events, active, now, i);
  }

  // ---- the worker -------------------------------------------------------

  class Table {
    const owner: nat -> nat
    var events: seq<Event>
    var active: set<nat>

    /** Every configuration belongs to a user. */
    constructor (owner: nat -> nat)
      ensures this.owner == owner && events == [] && active == {}
    {
      this.owner, events, active := owner, [], {};
    }

    /** An event is queued only for an active configuration. */
    method QueueWebhookEvent(config: nat, now: int)
      modifies this`events
      ensures events == if config in active then old(events) + [Queued(config, now)] else old(events)
      ensures config in active ==> events == old(events) + [Event(config, Pending, 0, 8, now)]
    {
      if config in active {
        events := events + [Event(config, Pending, 0, 8, now)];
      }
    }

    /** A manual retry, for enterprise users and their own events. */
    method RetryWebhookEvent(id: nat, user: nat, enterprise: bool, now: int) returns (ok: bool)
      modifies this`events
      ensures ok == enterprise
      ensures events ==
              if enterprise && id < |old(events)| && owner(old(events)[id].config) == user then
                old(events)[id := Retried(old(events)[id], now)]
              else old(events)
      ensures |events| == |old(events)| && forall i :: 0 <= i < |events| && i != id ==> events[i] == old(events)[i]
      ensures enterprise && id < |events| && owner(events[id].config) == user ==>
                && events[id].status == Pending && events[id].attempts == 0 && events[id].nextAttempt == now
                && events[id].config == old(events)[id].config && events[id].maxAttempts == old(events)[id].maxAttempts
    {
      if !enterprise {
        return false;
      }
      if id < |events| && owner(events[id].config) == user {
        events := events[id := events[id].(status := Pending, attempts := 0, nextAttempt := now)];
      }
      return true;
    }

    /** One tick: the batch is read once, then handled row by row. */
    method ProcessPendingWebhookEvents(now: int, answers: nat -> Answer)
      modifies this`events
      ensures events == Tick(old(events), active, now, answers)
      ensures forall i :: 0 <= i < |old(events)| ==>
                && (old(events)[i].config !in active ==> events[i] == old(events)[i])
                && (old(events)[i].nextAttempt > now ==> events[i] == old(events)[i])
                && (old(events)[i].status !in {Pending, Retrying} ==> events[i] == old(events)[i])
    {
      var batch := Batch(events, active, now);
      SelectFacts(DueAt(events, active, now), |events|, 0, BATCH_SIZE);
      ghost var before := events;
      for k := 0 to |batch|
        invariant |events| == |before|
        invariant forall i :: 0 <= i < |before| ==>
                    events[i] == if i in batch[..k] then Handled(before[i], answers(i)) else before[i]
      {
        var id := batch[k];
        assert id !in batch[..k];
        var attempts, maxAttempts := events[id].attempts, events[id].maxAttempts;
        ProcessRow(id, attempts, maxAttempts, answers(id));
        assert forall i :: i in batch[..k + 1] <==> i in batch[..k] || i == id;
      }
      assert batch[..|batch|] == batch;
    }

    /** The handling of one row: mark, post, and the closing update. */
    method ProcessRow(id: nat, attempts: nat, maxAttempts: nat, answer: Answer)
      requires id < |events| && events[id].attempts == attempts && events[id].maxAttempts == maxAttempts
      modifies this`events
      ensures events == old(events)[id := Handled(old(events)[id], answer)]
    {
      if answer.outcome.Blocked? {
        events := events[id := events[id].(status := Dead)];
        return;
      }
      var nextAttempts := attempts + 1;
      events := events[id := events[id].(status := Processing, attempts := events[id].attempts + 1)];
      if answer.outcome.Unbuildable? {
        return;
      }
      if answer.outcome.Accepted? {
        events := events[id := events[id].(status := Delivered)];
        return;
      }
      if nextAttempts >= maxAttempts {
        events := events[id := events[id].(status := Dead)];
      } else {
        events := events[id := events[id].(status := Retrying, nextAttempt := answer.at + Backoff(nextAttempts))];
      }
    }
  }

  // ---- no starvation ----------------------------------------------------

  /** The attempts an event can still consume. */
  function Left(e: Event): nat {
    if (e.status == Pending || e.status == Retrying) && e.attempts < e.maxAttempts then e.maxAttempts - e.attempts else 0
  }

  /** The attempts all events in a stretch of the table can still consume. */
  function LeftBetween(events: seq<Event>, from: nat, to: nat): nat
    requires from <= to <= |events|
    decreases |events| - from
  {
    if from >= to then 0 else Left(events[from]) + LeftBetween(events, from + 1, to)
  }

  ghost predicate TableOk(events: seq<Event>) {
    forall i :: 0 <= i < |events| && (events[i].status == Pending || events[i].status == Retrying) ==>
      events[i].attempts < events[i].maxAttempts
  }

  lemma SelectStep(due: nat -> bool, n: nat, from: nat, room: nat)
    requires from < n
    ensures room > 0 && due(from) ==>
              && |Select(due, n, from, room)| == 1 + |Select(due, n, from + 1, room - 1)|
              && forall j :: j in Select(due, n, from, room) <==> j == from || j in Select(due, n, from + 1, room - 1)
    ensures room == 0 || !due(from) ==> Select(due, n, from, room) == Select(due, n, from + 1, room)
  {
  }

  /** Every selected position below i loses at least one attempt, the others stay. */
  lemma {:induction false} SelectionConsumes(before: seq<Event>, after: seq<Event>, due: nat -> bool, from: nat, room: nat, i: nat)
    requires from <= i <= |before| == |after|
    requires var b := Select(due, |before|, from, room);
             && (forall j :: j in b ==> j < i && Left(after[j]) < Left(before[j]))
             && (forall j :: from <= j < i && j !in b ==> after[j] == before[j])
    ensures LeftBetween(after, from, i) + |Select(due, |before|, from, room)| <= LeftBetween(before, from, i)
    decreases i - from
  {
    var n := |before|;
    if from == i {
      var b := Select(due, n, from, room);
      assert b == [] || b[0] in b;
      SelectFacts(due, n, from, room);
    } else if room > 0 && due(from) {
      SelectStep(due, n, from, room);
      SelectFacts(due, n, from + 1, room - 1);
      var b, rest := Select(due, n, from, room), Select(due, n, from + 1, room - 1);
      assert from in b && forall j :: j in rest ==> j in b;
      SelectionConsumes(before, after, due, from + 1, room - 1, i);
    } else {
      SelectStep(due, n, from, room);
      SelectFacts(due, n, from + 1, room);
      SelectionConsumes(before, after, due, from + 1, room, i);
    }
  }

  /** A tick that passes over a due event consumes a full batch of older attempts. */
  lemma MissedTickConsumes(events: seq<Event>, active: set<nat>, now: int, answers: nat -> Answer, i: nat)
    requires i < |events| && TableOk(events)
    requires Due(events[i], active, now) && i !in Batch(events, active, now)
    ensures LeftBetween(Tick(events, active, now, answers), 0, i) + BATCH_SIZE <= LeftBetween(events, 0, i)
  {
    var due, after := DueAt(events, active, now), Tick(events, active, now, answers);
    SelectFacts(due, |events|, 0, BATCH_SIZE);
    forall j | j in Batch(events, active, now) ensures j < i && Left(after[j]) < Left(events[j]) {
      assert due(j) && after[j] == Handled(events[j], answers(j));
    }
    SelectionConsumes(events, after, due, 0, BATCH_SIZE, i);
  }

  /** The world of one worker without manual retries. */
  datatype World = World(events: seq<Event>, active: set<nat>, clock: int)

  datatype Step =
    | Work(now: int, answers: nat -> Answer)
    | Enqueue(config: nat, now: int)
    | Configure(config: nat, on: bool)

  predicate Enabled(w: World, s: Step) {
    match s
    case Work(now, _) => w.clock <= now
    case Enqueue(_, now) => w.clock <= now
    case Configure(_, _) => true
  }

  function Next(w: World, s: Step): World {
    match s
    case Work(now, answers) => World(Tick(w.events, w.active, now, answers), w.active, now)
    case Enqueue(config, now) =>
      World(if config in w.active then w.events + [Queued(config, now)] else w.events, w.active, now)
    case Configure(config, on) => w.(active := if on then w.active + {config} else w.active - {config})
  }

  ghost predicate IsRun(run: seq<World>, steps: seq<Step>) {
    && |run| == |steps| + 1
    && forall k :: 0 <= k < |steps| ==> Enabled(run[k], steps[k]) && run[k + 1] == Next(run[k], steps[k])
  }

  predicate Picks(w: World, s: Step, i: nat) {
    s.Work? && i in Batch(w.events, w.active, s.now)
  }

  function Ticks(steps: seq<Step>): nat {
    if steps == [] then 0 else (if steps[|steps| - 1].Work? then 1 else 0) + Ticks(steps[..|steps| - 1])
  }

  /** An event that waits: due by the clock, with an active configuration. */
  predicate WaitsIn(w: World, i: nat) {
    i < |w.events| && Due(w.events[i], w.active, w.clock)
  }

  lemma TickKeepsTable(events: seq<Event>, active: set<nat>, now: int, answers: nat -> Answer)
    requires TableOk(events)
    ensures TableOk(Tick(events, active, now, answers))
  {
    var after := Tick(events, active, now, answers);
    forall i | 0 <= i < |events| && (after[i].status == Pending || after[i].status == Retrying)
      ensures after[i].attempts < after[i].maxAttempts
    {
    }
  }

  lemma StepWhileWaiting(w: World, s: Step, i: nat)
    requires TableOk(w.events) && WaitsIn(w, i) && Enabled(w, s) && !Picks(w, s, i)
    requires w.events[i].config in Next(w, s).active
    ensures TableOk(Next(w, s).events) && WaitsIn(Next(w, s), i) && Next(w, s).events[i] == w.events[i]
    ensures LeftBetween(Next(w, s).events, 0, i) + (if s.Work? then BATCH_SIZE else 0) <= LeftBetween(w.events, 0, i)
  {
    match s
    case Work(now, answers) =>
      MissedTickConsumes(w.events, w.active, now, answers, i);
      TickKeepsTable(w.events, w.active, now, answers);
    case Enqueue(config, now) =>
      PrefixLeft(w.events, Next(w, s).events, 0, i);
    case Configure(_, _) =>
  }

  lemma {:induction false} PrefixLeft(a: seq<Event>, b: seq<Event>, from: nat, to: nat)
    requires from <= to <= |a| <= |b|
    requires forall j :: from <= j < to ==> a[j] == b[j]
    ensures LeftBetween(a, from, to) == LeftBetween(b, from, to)
    decreases |a| - from
  {
    if from == to {
    } else {
      PrefixLeft(a, b, from + 1, to);
    }
  }

  lemma {:induction false} WaitingRun(run: seq<World>, steps: seq<Step>, i: nat)
    requires IsRun(run, steps) && TableOk(run[0].events) && WaitsIn(run[0], i)
    requires forall k :: 0 <= k < |run| ==> run[0].events[i].config in run[k].active
    requires forall k :: 0 <= k < |steps| ==> !Picks(run[k], steps[k], i)
    ensures TableOk(run[|steps|].events) && WaitsIn(run[|steps|], i) && run[|steps|].events[i] == run[0].events[i]
    ensures LeftBetween(run[|steps|].events, 0, i) + BATCH_SIZE * Ticks(steps) <= LeftBetween(run[0].events, 0, i)
    decreases |steps|
  {
    if steps == [] {
    } else {
      var n := |steps| - 1;
      WaitingRun(run[..n + 1], steps[..n], i);
      assert run[..n + 1][n] == run[n] && run[n + 1] == Next(run[n], steps[n]);
      StepWhileWaiting(run[n], steps[n], i);
    }
  }

  /** No starvation: with one worker and no manual retries, an event that waits with an
      active configuration is picked within (attempts left to older events) / 50 + 1 ticks. */
  lemma NoStarvation(run: seq<World>, steps: seq<Step>, i: nat)
    requires IsRun(run, steps) && TableOk(run[0].events) && WaitsIn(run[0], i)
    requires forall k :: 0 <= k < |run| ==> run[0].events[i].config in run[k].active
    requires Ticks(steps) >= LeftBetween(run[0].events, 0, i) / BATCH_SIZE + 1
    ensures exists k :: 0 <= k < |steps| && Picks(run[k], steps[k], i)
  {
    if forall k :: 0 <= k < |steps| ==> !Picks(run[k], steps[k], i) {
      WaitingRun(run, steps, i);
    }
  }
}
