/** Runs of the outbox in which manual retries, new events and configuration changes
    come between any two statements of the worker. */
module OutboxRuns {
  import opened Options
  import opened Outbox

  /** What the worker remembers of a row it has read. */
  datatype Row = Row(id: nat, attempts: nat, maxAttempts: nat)

  datatype Worker =
    | Idle
    | Reading(rows: seq<Row>)
    | InFlight(row: Row, posted: bool, rest: seq<Row>)

  /** What the worker was doing with an event when its last manual retry came: nothing,
      holding its row in the batch, or handling it, with the delivery still to come or
      already made. */
  datatype Hit = Clear | InBatch | BeforePost | AfterPost

  /** History of one event since its creation or last manual retry: deliveries tried,
      failed updates, the time of the first failed update, the time of the failed update
      that was its death, if it died of one, and what that retry hit. */
  datatype Log = Log(posts: nat, fails: nat, first: int, diedAt: Option<int>, hit: Hit)

  predicate InFlightHit(l: Log) {
    l.hit.BeforePost? || l.hit.AfterPost?
  }

  datatype Moment = Moment(events: seq<Event>, logs: seq<Log>, active: set<nat>, clock: int, worker: Worker)

  datatype Step =
    | Insert(config: nat, now: int)
    | Toggle(config: nat, on: bool)
    | Retry(id: nat, now: int)
    | Fetch(now: int)
    | EndBatch
    | Block
    | Mark
    | Abandon
    | Post
    | Deliver
    | Fail(now: int)

  predicate Enabled(w: Moment, s: Step) {
    match s
    case Insert(_, now) => w.clock <= now
    case Toggle(_, _) => true
    case Retry(id, now) => id < |w.events| && w.clock <= now
    case Fetch(now) => w.worker.Idle? && w.clock <= now
    case EndBatch => w.worker.Reading? && w.worker.rows == []
    case Block => w.worker.Reading? && w.worker.rows != []
    case Mark => w.worker.Reading? && w.worker.rows != []
    case Abandon => w.worker.InFlight? && !w.worker.posted
    case Post => w.worker.InFlight? && !w.worker.posted
    case Deliver => w.worker.InFlight? && w.worker.posted
    case Fail(now) => w.worker.InFlight? && w.worker.posted && w.clock <= now
  }

  predicate Reads(w: Moment, i: nat) {
    w.worker.Reading? && exists k :: 0 <= k < |w.worker.rows| && w.worker.rows[k].id == i
  }

  predicate Waits(w: Moment, i: nat) {
    w.worker.InFlight? && exists k :: 0 <= k < |w.worker.rest| && w.worker.rest[k].id == i
  }

  predicate Flies(w: Moment, i: nat) {
    w.worker.InFlight? && w.worker.row.id == i
  }

  /** What a manual retry hits. */
  function HitAt(w: Moment, i: nat): Hit {
    if Flies(w, i) then if w.worker.posted then AfterPost else BeforePost
    else if Reads(w, i) || Waits(w, i) then InBatch
    else Clear
  }

  function RowsOf(events: seq<Event>, ids: seq<nat>): (rows: seq<Row>)
    requires forall k :: 0 <= k < |ids| ==> ids[k] < |events|
    ensures |rows| == |ids|
    ensures forall k :: 0 <= k < |ids| ==>
              rows[k] == Row(ids[k], events[ids[k]].attempts, events[ids[k]].maxAttempts)
  {
    seq(|ids|, k requires 0 <= k < |ids| => Row(ids[k], events[ids[k]].attempts, events[ids[k]].maxAttempts))
  }

  /** The rows a tick reads. */
  function Fetched(w: Moment, now: int): seq<Row> {
    var batch := Batch(w.events, w.active, now);
    SelectFacts(DueAt(w.events, w.active, now), |w.events|, 0, BATCH_SIZE);
    RowsOf(w.events, batch)
  }

  ghost predicate RowsInTable(w: Moment) {
    && |w.logs| == |w.events|
    && (w.worker.Reading? ==> forall k :: 0 <= k < |w.worker.rows| ==> w.worker.rows[k].id < |w.events|)
    && (w.worker.InFlight? ==> w.worker.row.id < |w.events|)
    && (w.worker.InFlight? ==> forall k :: 0 <= k < |w.worker.rest| ==> w.worker.rest[k].id < |w.events|)
  }

  function Failed(l: Log, dies: bool, now: int): Log {
    l.(fails := l.fails + 1, first := if l.fails == 0 then now else l.first, diedAt := if dies then Some(now) else l.diedAt)
  }

  function Next(w: Moment, s: Step): Moment
    requires RowsInTable(w) && Enabled(w, s)
  {
    match s
    case Insert(config, now) =>
      if config in w.active then
        w.(events := w.events + [Queued(config, now)], logs := w.logs + [Log(0, 0, 0, None, Clear)], clock := now)
      else w.(clock := now)
    case Toggle(config, on) => w.(active := if on then w.active + {config} else w.active - {config})
    case Retry(id, now) =>
      w.(events := w.events[id := Retried(w.events[id], now)],
         logs := w.logs[id := Log(0, 0, 0, None, HitAt(w, id))],
         clock := now)
    case Fetch(now) => w.(worker := Reading(Fetched(w, now)), clock := now)
    case EndBatch => w.(worker := Idle)
    case Block =>
      var i := w.worker.rows[0].id;
      w.(events := w.events[i := w.events[i].(status := Dead)], worker := Reading(w.worker.rows[1..]))
    case Mark =>
      var i := w.worker.rows[0].id;
      w.(events := w.events[i := MarkProcessing(w.events[i])],
         worker := InFlight(w.worker.rows[0], false, w.worker.rows[1..]))
    case Abandon => w.(worker := Reading(w.worker.rest))
    case Post =>
      var i := w.worker.row.id;
      w.(logs := w.logs[i := w.logs[i].(posts := w.logs[i].posts + 1)], worker := w.worker.(posted := true))
    case Deliver =>
      var i := w.worker.row.id;
      w.(events := w.events[i := w.events[i].(status := Delivered)], worker := Reading(w.worker.rest))
    case Fail(now) =>
      var row := w.worker.row;
      var after := AfterFailure(w.events[row.id], row.attempts, row.maxAttempts, now);
      w.(events := w.events[row.id := after],
         logs := w.logs[row.id := Failed(w.logs[row.id], after.status == Dead, now)],
         worker := Reading(w.worker.rest), clock := now)
  }

  // ---- the invariant ----------------------------------------------------

  /** The sum of the delays after the first n failures. */
  function DelaySum(n: nat): int {
    if n == 0 then 0 else DelaySum(n - 1) + Backoff(n)
  }

  ghost predicate RowOk(w: Moment, r: Row) {
    && r.id < |w.events| == |w.logs|
    && r.attempts < r.maxAttempts == MAX_ATTEMPTS
    && w.events[r.id].attempts <= r.attempts
    && (w.events[r.id].status == Pending || w.events[r.id].status == Retrying)
    && w.events[r.id].nextAttempt <= w.clock
    && (!w.logs[r.id].hit.InBatch? ==> w.events[r.id].attempts == r.attempts)
  }

  ghost predicate RowsOk(w: Moment, rows: seq<Row>) {
    && (forall k :: 0 <= k < |rows| ==> RowOk(w, rows[k]))
    && (forall k, l :: 0 <= k < l < |rows| ==> rows[k].id != rows[l].id)
  }

  /** Failed updates and attempts agree, but for the failure of a handling that the last
      manual retry hit in flight. */
  predicate FailsMatch(l: Log, attempts: int) {
    l.fails == attempts || (InFlightHit(l) && l.fails == attempts + 1)
  }

  ghost predicate FlightOk(w: Moment, r: Row, posted: bool) {
    && r.id < |w.events| == |w.logs|
    && r.attempts < r.maxAttempts == MAX_ATTEMPTS
    && w.events[r.id].attempts <= r.attempts + 1
    && w.logs[r.id].posts + (if posted then 0 else 1) <=
       w.events[r.id].attempts + (if w.logs[r.id].hit.BeforePost? then 1 else 0)
    && (w.events[r.id].attempts == 0 ==>
          w.events[r.id].status == Pending && InFlightHit(w.logs[r.id]) && w.logs[r.id].fails == 0)
    && (w.events[r.id].attempts > 0 ==>
          && w.events[r.id].status == Processing
          && FailsMatch(w.logs[r.id], w.events[r.id].attempts - 1)
          && (w.logs[r.id].fails > 0 ==> w.logs[r.id].first + DelaySum(w.events[r.id].attempts - 1) <= w.clock)
          && (!w.logs[r.id].hit.InBatch? ==> w.events[r.id].attempts == r.attempts + 1))
  }

  ghost predicate WorkerOk(w: Moment) {
    match w.worker
    case Idle => true
    case Reading(rows) => RowsOk(w, rows)
    case InFlight(row, posted, rest) =>
      FlightOk(w, row, posted) && RowsOk(w, rest) && forall k :: 0 <= k < |rest| ==> rest[k].id != row.id
  }

  /** What every event satisfies at every moment. */
  ghost predicate EventOk(e: Event, l: Log) {
    && e.maxAttempts == MAX_ATTEMPTS && e.attempts <= MAX_ATTEMPTS
    && (e.status == Pending ==> e.attempts == 0 && l.fails == 0)
    && (e.status == Retrying ==>
          && e.attempts < MAX_ATTEMPTS && (e.attempts == 0 ==> InFlightHit(l))
          && FailsMatch(l, e.attempts) && l.first + DelaySum(e.attempts) <= e.nextAttempt)
    && l.posts <= e.attempts + (if l.hit.BeforePost? then 1 else 0)
    && (e.status != Dead ==> l.diedAt.None?)
    && (l.diedAt.Some? && l.fails >= MAX_ATTEMPTS ==> l.first + DelaySum(7) <= l.diedAt.value)
  }

  ghost predicate EventsOk(w: Moment) {
    |w.logs| == |w.events| && forall i :: 0 <= i < |w.events| ==> EventOk(w.events[i], w.logs[i])
  }

  ghost predicate Inv(w: Moment) {
    EventsOk(w) && WorkerOk(w)
  }

  lemma InvImpliesInTable(w: Moment)
    requires Inv(w)
    ensures RowsInTable(w)
  {
    if w.worker.Reading? {
      forall k | 0 <= k < |w.worker.rows| ensures w.worker.rows[k].id < |w.events| {
        assert RowOk(w, w.worker.rows[k]);
      }
    } else if w.worker.InFlight? {
      forall k | 0 <= k < |w.worker.rest| ensures w.worker.rest[k].id < |w.events| {
        assert RowOk(w, w.worker.rest[k]);
      }
    }
  }

  lemma FetchKeepsInv(w: Moment, now: int)
    requires Inv(w) && w.worker.Idle? && w.clock <= now
    ensures Inv(w.(worker := Reading(Fetched(w, now)), clock := now))
  {
    var due, batch := DueAt(w.events, w.active, now), Batch(w.events, w.active, now);
    SelectFacts(due, |w.events|, 0, BATCH_SIZE);
    var rows := Fetched(w, now);
    var w' := w.(worker := Reading(rows), clock := now);
    forall k | 0 <= k < |rows| ensures RowOk(w', rows[k]) {
      assert due(batch[k]) && EventOk(w.events[batch[k]], w.logs[batch[k]]);
    }
  }

  /** Rows other than the updated one stay in order. */
  lemma RowsKept(w: Moment, w': Moment, rows: seq<Row>, i: nat)
    requires RowsOk(w, rows) && forall k :: 0 <= k < |rows| ==> rows[k].id != i
    requires |w'.events| == |w.events| == |w.logs| == |w'.logs| && w.clock <= w'.clock
    requires forall j :: 0 <= j < |w.events| && j != i ==> w'.events[j] == w.events[j] && w'.logs[j] == w.logs[j]
    ensures RowsOk(w', rows)
  {
    forall k | 0 <= k < |rows| ensures RowOk(w', rows[k]) {
      assert RowOk(w, rows[k]);
    }
  }

  lemma TailRows(w: Moment, rows: seq<Row>)
    requires RowsOk(w, rows) && rows != []
    ensures RowsOk(w, rows[1..]) && RowOk(w, rows[0])
    ensures forall k :: 0 <= k < |rows[1..]| ==> rows[1..][k].id != rows[0].id
  {
    forall k | 0 <= k < |rows[1..]| ensures RowOk(w, rows[1..][k]) {
      assert rows[1..][k] == rows[k + 1];
    }
  }

  lemma BlockKeepsInv(w: Moment)
    requires Inv(w) && Enabled(w, Block) && RowsInTable(w)
    ensures Inv(Next(w, Block))
  {
    TailRows(w, w.worker.rows);
    RowsKept(w, Next(w, Block), w.worker.rows[1..], w.worker.rows[0].id);
    var i := w.worker.rows[0].id;
    assert EventOk(w.events[i], w.logs[i]);
  }

  lemma MarkKeepsInv(w: Moment)
    requires Inv(w) && Enabled(w, Mark) && RowsInTable(w)
    ensures Inv(Next(w, Mark))
  {
    TailRows(w, w.worker.rows);
    var w' := Next(w, Mark);
    RowsKept(w, w', w.worker.rows[1..], w.worker.rows[0].id);
    var i := w.worker.rows[0].id;
    assert EventOk(w.events[i], w.logs[i]);
    assert FlightOk(w', w.worker.rows[0], false);
  }

  lemma DelaySumOfSeven()
    ensures DelaySum(7) == 635000
  {
    assert DelaySum(0) == 0;
    assert DelaySum(1) == 5000;
    assert DelaySum(2) == 15000;
    assert DelaySum(3) == 35000;
    assert Pow2(3) == 8;
    assert DelaySum(4) == 75000;
    assert DelaySum(5) == 155000;
    assert Pow2(5) == 32;
    assert DelaySum(6) == 315000;
  }

  lemma {:induction false} Pow2Monotone(m: nat, n: nat)
    requires m <= n
    ensures Pow2(m) <= Pow2(n)
  {
    if m == n {
    } else {
      Pow2Monotone(m, n - 1);
    }
  }

  /** The backoff never shrinks, is capped, and reaches the cap with the eighth attempt. */
  lemma BackoffShape(m: nat, n: nat)
    requires 0 < m <= n
    ensures 5000 <= Backoff(m) <= Backoff(n) <= 600000
    ensures Backoff(n) == 600000 <==> n >= 8
  {
    Pow2Monotone(m - 1, n - 1);
    assert Pow2(3) == 8;
    assert Pow2(6) == 64;
    assert Pow2(7) == 128;
    if n >= 8 { Pow2Monotone(7, n - 1); } else { Pow2Monotone(n - 1, 6); }
  }

  lemma FailKeepsInv(w: Moment, now: int)
    requires Inv(w) && Enabled(w, Fail(now)) && RowsInTable(w)
    ensures Inv(Next(w, Fail(now)))
  {
    var row := w.worker.row;
    var w' := Next(w, Fail(now));
    RowsKept(w, w', w.worker.rest, row.id);
    var e, l := w.events[row.id], w.logs[row.id];
    assert EventOk(e, l) && FlightOk(w, row, true);
    FailedEventOk(e, l, row, w.clock, now);
  }

  /** The failed update of one event: the next attempt is due no sooner than the delays say. */
  lemma FailedEventOk(e: Event, l: Log, row: Row, clock: int, now: int)
    requires EventOk(e, l) && clock <= now
    requires row.attempts < row.maxAttempts == MAX_ATTEMPTS && e.attempts <= row.attempts + 1
    requires e.attempts == 0 ==> e.status == Pending && InFlightHit(l) && l.fails == 0
    requires e.attempts > 0 ==>
               && e.status == Processing && FailsMatch(l, e.attempts - 1)
               && (l.fails > 0 ==> l.first + DelaySum(e.attempts - 1) <= clock)
               && (!l.hit.InBatch? ==> e.attempts == row.attempts + 1)
    ensures var after := AfterFailure(e, row.attempts, row.maxAttempts, now);
            EventOk(after, Failed(l, after.status == Dead, now))
  {
    BackoffShape(1, row.attempts + 1);
    if e.attempts > 0 {
      BackoffShape(e.attempts, row.attempts + 1);
      assert DelaySum(e.attempts) == DelaySum(e.attempts - 1) + Backoff(e.attempts);
    } else {
      assert DelaySum(0) == 0;
    }
    if e.attempts == 1 { assert DelaySum(0) == 0; }
  }

  lemma FlightStepKeepsInv(w: Moment, s: Step)
    requires Inv(w) && Enabled(w, s) && RowsInTable(w)
    requires s.Abandon? || s.Post? || s.Deliver?
    ensures Inv(Next(w, s))
  {
    var row := w.worker.row;
    RowsKept(w, Next(w, s), w.worker.rest, row.id);
    assert EventOk(w.events[row.id], w.logs[row.id]);
  }

  lemma RetryKeepsRows(w: Moment, rows: seq<Row>, id: nat, now: int)
    requires Inv(w) && Enabled(w, Retry(id, now)) && RowsInTable(w)
    requires RowsOk(w, rows)
    requires forall k :: 0 <= k < |rows| ==> Reads(w, rows[k].id) || Waits(w, rows[k].id)
    ensures RowsOk(Next(w, Retry(id, now)), rows)
  {
    var w' := Next(w, Retry(id, now));
    forall k | 0 <= k < |rows| ensures RowOk(w', rows[k]) {
      assert RowOk(w, rows[k]);
      if rows[k].id == id { assert w'.logs[id].hit.InBatch?; }
    }
  }

  lemma RetryKeepsInv(w: Moment, id: nat, now: int)
    requires Inv(w) && Enabled(w, Retry(id, now)) && RowsInTable(w)
    ensures Inv(Next(w, Retry(id, now)))
  {
    var w' := Next(w, Retry(id, now));
    assert EventOk(w.events[id], w.logs[id]);
    if w.worker.Reading? {
      forall k | 0 <= k < |w.worker.rows| ensures Reads(w, w.worker.rows[k].id) {
      }
      RetryKeepsRows(w, w.worker.rows, id, now);
    } else if w.worker.InFlight? {
      forall k | 0 <= k < |w.worker.rest| ensures Waits(w, w.worker.rest[k].id) {
      }
      RetryKeepsRows(w, w.worker.rest, id, now);
      assert FlightOk(w', w.worker.row, w.worker.posted);
    }
  }

  lemma GrowthKeepsRows(w: Moment, w': Moment, rows: seq<Row>)
    requires RowsOk(w, rows) && |w.logs| == |w.events|
    requires |w'.logs| == |w'.events| >= |w.events| && w.clock <= w'.clock
    requires forall i :: 0 <= i < |w.events| ==> w'.events[i] == w.events[i] && w'.logs[i] == w.logs[i]
    ensures RowsOk(w', rows)
  {
    forall k | 0 <= k < |rows| ensures RowOk(w', rows[k]) {
      assert RowOk(w, rows[k]);
    }
  }

  lemma OutsideKeepsInv(w: Moment, s: Step)
    requires Inv(w) && Enabled(w, s) && RowsInTable(w)
    requires s.Insert? || s.Toggle? || s.EndBatch?
    ensures Inv(Next(w, s))
  {
    var w' := Next(w, s);
    if s.Insert? {
      forall i | 0 <= i < |w'.events| ensures EventOk(w'.events[i], w'.logs[i]) {
      }
    }
    if w.worker.Reading? && !s.EndBatch? { GrowthKeepsRows(w, w', w.worker.rows); }
    if w.worker.InFlight? { GrowthKeepsRows(w, w', w.worker.rest); }
  }

  lemma NextKeepsInv(w: Moment, s: Step)
    requires Inv(w) && Enabled(w, s) && RowsInTable(w)
    ensures Inv(Next(w, s))
  {
    match s
    case Fetch(now) => FetchKeepsInv(w, now);
    case Block => BlockKeepsInv(w);
    case Mark => MarkKeepsInv(w);
    case Fail(now) => FailKeepsInv(w, now);
    case Retry(id, now) => RetryKeepsInv(w, id, now);
    case Abandon => FlightStepKeepsInv(w, s);
    case Post => FlightStepKeepsInv(w, s);
    case Deliver => FlightStepKeepsInv(w, s);
    case _ => OutsideKeepsInv(w, s);
  }

  ghost predicate IsRun(run: seq<Moment>, steps: seq<Step>) {
    && |run| == |steps| + 1
    && forall k :: 0 <= k < |steps| ==>
         Enabled(run[k], steps[k]) && (RowsInTable(run[k]) ==> run[k + 1] == Next(run[k], steps[k]))
  }

  const START: Moment := Moment([], [], {}, 0, Idle)

  lemma {:induction false} RunKeepsInv(run: seq<Moment>, steps: seq<Step>, n: nat)
    requires IsRun(run, steps) && run[0] == START && n < |run|
    ensures Inv(run[n])
  {
    if n == 0 {
    } else {
      RunKeepsInv(run, steps, n - 1);
      InvImpliesInTable(run[n - 1]);
      NextKeepsInv(run[n - 1], steps[n - 1]);
    }
  }

  // ---- what holds at every moment of every run --------------------------

  /** Safety of every run, manual retries at any moment included: attempts never exceed
      the maximum; a retrying event is below it, and has tried at least once unless the
      last manual retry hit it in flight; deliveries since that retry are at most the
      maximum, one more only if the retry came between the mark and the delivery; and an
      event that dies of a failed update after eight failures or more dies no sooner than
      635 seconds after the first of them. */
  lemma OutboxSafety(run: seq<Moment>, steps: seq<Step>, n: nat, i: nat)
    requires IsRun(run, steps) && run[0] == START && n < |run| && i < |run[n].events|
    ensures |run[n].logs| == |run[n].events|
    ensures var e, l := run[n].events[i], run[n].logs[i];
            && e.attempts <= e.maxAttempts == MAX_ATTEMPTS
            && (e.status == Retrying ==> e.attempts < e.maxAttempts && (!InFlightHit(l) ==> 0 < e.attempts))
            && l.posts <= MAX_ATTEMPTS + (if l.hit.BeforePost? then 1 else 0)
            && (l.diedAt.Some? && l.fails >= MAX_ATTEMPTS ==> e.status == Dead && l.diedAt.value - l.first >= 635000)
  {
    RunKeepsInv(run, steps, n);
    assert EventOk(run[n].events[i], run[n].logs[i]);
    DelaySumOfSeven();
  }

  /** Nothing of the worker refers to the event. */
  predicate Untouched(w: Moment, i: nat) {
    !Reads(w, i) && !Waits(w, i) && !Flies(w, i)
  }

  predicate Retries(s: Step, i: nat) {
    s.Retry? && s.id == i
  }

  ghost predicate NoRetry(steps: seq<Step>, i: nat) {
    forall k :: 0 <= k < |steps| ==> !Retries(steps[k], i)
  }

  /** Some tick may select the event. */
  predicate IsAlive(e: Event) {
    e.status == Pending || e.status == Retrying
  }

  /** Nothing but a manual retry moves an event that no tick selects and the worker does not hold. */
  lemma StepLeavesStuck(w: Moment, s: Step, i: nat)
    requires RowsInTable(w) && Enabled(w, s) && !Retries(s, i)
    requires i < |w.events| && !IsAlive(w.events[i]) && Untouched(w, i)
    ensures i < |Next(w, s).events|
    ensures Next(w, s).events[i] == w.events[i] && Next(w, s).logs[i] == w.logs[i] && Untouched(Next(w, s), i)
  {
    var w' := Next(w, s);
    if s.Fetch? {
      var due, batch := DueAt(w.events, w.active, s.now), Batch(w.events, w.active, s.now);
      SelectFacts(due, |w.events|, 0, BATCH_SIZE);
      forall k | 0 <= k < |batch| ensures batch[k] != i { assert due(batch[k]); }
    } else if s.Block? || s.Mark? {
      var rows := w.worker.rows;
      assert rows[0].id != i;
      forall k | 0 <= k < |rows[1..]| ensures rows[1..][k].id != i { assert rows[1..][k] == rows[k + 1]; }
    }
  }

  /** An event that is neither pending nor retrying and that the worker has let go of stays as
      it is: over any run, until a manual retry, nothing moves it, no batch selects it and it
      is not delivered again. For one in processing, that is being stuck. */
  lemma {:induction false} StuckUntilRetried(run: seq<Moment>, steps: seq<Step>, m: nat, n: nat, i: nat)
    requires IsRun(run, steps) && run[0] == START && m <= n < |run|
    requires forall k :: m <= k < n ==> !Retries(steps[k], i)
    requires i < |run[m].events| && run[m].events[i].status !in {Pending, Retrying} && Untouched(run[m], i)
    ensures |run[m].logs| == |run[m].events| <= |run[n].events| == |run[n].logs|
    ensures run[n].events[i] == run[m].events[i] && run[n].logs[i] == run[m].logs[i] && Untouched(run[n], i)
  {
    if m == n {
      RunKeepsInv(run, steps, m);
    } else {
      StuckUntilRetried(run, steps, m, n - 1, i);
      RunKeepsInv(run, steps, n - 1);
      InvImpliesInTable(run[n - 1]);
      StepLeavesStuck(run[n - 1], steps[n - 1], i);
    }
  }

  /** How an event gets stuck: the request of its marked row cannot be built, and no manual
      retry has taken the attempt back since the mark. */
  lemma AbandonedIsStuck(run: seq<Moment>, steps: seq<Step>, n: nat)
    requires IsRun(run, steps) && run[0] == START && n < |run|
    requires Enabled(run[n], Abandon) && RowsInTable(run[n])
    ensures var i := run[n].worker.row.id; var w' := Next(run[n], Abandon);
            Untouched(w', i) && (w'.events[i].status == Processing <==> run[n].events[i].attempts > 0)
  {
    RunKeepsInv(run, steps, n);
  }

  /** A delivery that was accepted is the last one: the event is delivered, and until a manual
      retry it stays so and is not posted again. */
  lemma DeliveredIsFinal(run: seq<Moment>, steps: seq<Step>, m: nat, n: nat, i: nat)
    requires IsRun(run, steps) && run[0] == START && m < n < |run|
    requires steps[m] == Deliver && Flies(run[m], i)
    requires forall k :: m < k < n ==> !Retries(steps[k], i)
    ensures i < |run[m].logs| == |run[m].events| <= |run[n].events| == |run[n].logs|
    ensures run[n].events[i].status == Delivered && run[n].logs[i].posts == run[m].logs[i].posts
  {
    RunKeepsInv(run, steps, m);
    InvImpliesInTable(run[m]);
    FlightEnds(run[m], Deliver, i);
    StuckUntilRetried(run, steps, m + 1, n, i);
  }

  /** A row the worker holds was read by its last fetch, when the event was pending or
      retrying, due by the clock, and of an active configuration: nothing is delivered to a
      webhook that was switched off when its row was read. */
  lemma {:induction false} HeldWasFetched(run: seq<Moment>, steps: seq<Step>, n: nat, i: nat) returns (k: nat)
    requires IsRun(run, steps) && run[0] == START && n < |run|
    requires Reads(run[n], i) || Waits(run[n], i) || Flies(run[n], i)
    ensures k < n && steps[k].Fetch? && (forall l :: k < l < n ==> !steps[l].Fetch?)
    ensures i < |run[k].events|
    ensures var e := run[k].events[i];
            (e.status == Pending || e.status == Retrying) && e.nextAttempt <= steps[k].now && e.config in run[k].active
  {
    StepHeld(run, steps, n - 1, i);
    if steps[n - 1].Fetch? {
      k := n - 1;
    } else {
      k := HeldWasFetched(run, steps, n - 1, i);
    }
  }

  lemma StepHeld(run: seq<Moment>, steps: seq<Step>, k: nat, i: nat)
    requires IsRun(run, steps) && run[0] == START && k < |steps|
    requires Reads(run[k + 1], i) || Waits(run[k + 1], i) || Flies(run[k + 1], i)
    ensures !steps[k].Fetch? ==> Reads(run[k], i) || Waits(run[k], i) || Flies(run[k], i)
    ensures steps[k].Fetch? ==>
              i < |run[k].events| &&
              var e := run[k].events[i];
              (e.status == Pending || e.status == Retrying) && e.nextAttempt <= steps[k].now && e.config in run[k].active
  {
    RunKeepsInv(run, steps, k);
    InvImpliesInTable(run[k]);
    assert run[k + 1] == Next(run[k], steps[k]);
    if steps[k].Fetch? {
      FetchedWasDue(run[k], steps[k].now, i);
    } else {
      HeldBefore(run[k], steps[k], i);
    }
  }

  /** Every event was queued for a configuration that was active at the time. */
  lemma {:induction false} QueuedWasActive(run: seq<Moment>, steps: seq<Step>, n: nat, i: nat) returns (k: nat)
    requires IsRun(run, steps) && run[0] == START && n < |run| && i < |run[n].events|
    ensures k < n && steps[k].Insert? && i == |run[k].events|
    ensures run[n].events[i].config == steps[k].config && steps[k].config in run[k].active
  {
    RunKeepsInv(run, steps, n - 1);
    InvImpliesInTable(run[n - 1]);
    assert run[n] == Next(run[n - 1], steps[n - 1]);
    if i < |run[n - 1].events| {
      k := QueuedWasActive(run, steps, n - 1, i);
      ConfigStays(run[n - 1], steps[n - 1], i);
    } else {
      k := n - 1;
    }
  }

  lemma ConfigStays(w: Moment, s: Step, i: nat)
    requires RowsInTable(w) && Enabled(w, s) && i < |w.events|
    ensures i < |Next(w, s).events| && Next(w, s).events[i].config == w.events[i].config
  {
  }

  /** A configuration that was switched off stays off until it is switched on, and gets no new
      event meanwhile. */
  lemma {:induction false} SwitchedOff(run: seq<Moment>, steps: seq<Step>, m: nat, n: nat, config: nat)
    requires IsRun(run, steps) && run[0] == START && m < n < |run| && steps[m] == Toggle(config, false)
    requires forall k :: m < k < n ==> steps[k] != Toggle(config, true)
    ensures config !in run[n].active && |run[m].events| <= |run[n].events|
    ensures forall i :: |run[m].events| <= i < |run[n].events| ==> run[n].events[i].config != config
  {
    RunKeepsInv(run, steps, n - 1);
    InvImpliesInTable(run[n - 1]);
    var w, s := run[n - 1], steps[n - 1];
    assert run[n] == Next(w, s);
    if n > m + 1 {
      SwitchedOff(run, steps, m, n - 1, config);
      forall i | |run[m].events| <= i < |run[n].events| ensures run[n].events[i].config != config {
        if i < |w.events| { ConfigStays(w, s, i); }
      }
    }
  }

  lemma FetchedWasDue(w: Moment, now: int, i: nat)
    requires exists k :: 0 <= k < |Fetched(w, now)| && Fetched(w, now)[k].id == i
    ensures i < |w.events|
    ensures var e := w.events[i];
            (e.status == Pending || e.status == Retrying) && e.nextAttempt <= now && e.config in w.active
  {
    var k :| 0 <= k < |Fetched(w, now)| && Fetched(w, now)[k].id == i;
    var batch := Batch(w.events, w.active, now);
    SelectFacts(DueAt(w.events, w.active, now), |w.events|, 0, BATCH_SIZE);
    assert batch[k] == i;
    PickedIff(w.events, w.active, now, i);
  }

  lemma HeldBefore(w: Moment, s: Step, i: nat)
    requires RowsInTable(w) && Enabled(w, s) && !s.Fetch?
    requires var w' := Next(w, s); Reads(w', i) || Waits(w', i) || Flies(w', i)
    ensures Reads(w, i) || Waits(w, i) || Flies(w, i)
  {
    if s.Block? || s.Mark? {
      var rows := w.worker.rows;
      if rows[0].id != i {
        var k :| 0 <= k < |rows[1..]| && rows[1..][k].id == i;
        assert rows[k + 1].id == i;
      }
    }
  }

  // ---- retries that hit an event in flight ------------------------------

  lemma Extend(run: seq<Moment>, steps: seq<Step>, s: Step, w: Moment) returns (run': seq<Moment>, steps': seq<Step>)
    requires IsRun(run, steps)
    requires var last := run[|steps|]; RowsInTable(last) && Enabled(last, s) && w == Next(last, s)
    ensures IsRun(run', steps') && run'[0] == run[0] && run'[|steps'|] == w && steps' == steps + [s]
  {
    run', steps' := run + [w], steps + [s];
  }

  /** A retrying event without an attempt. */
  predicate Bare(w: Moment, i: nat) {
    i < |w.events| && w.events[i].status == Retrying && w.events[i].attempts == 0
  }

  /** Some continuation without another manual retry of the event makes it bare. */
  ghost predicate MayGetBare(w: Moment, i: nat) {
    exists run: seq<Moment>, steps: seq<Step> ::
      IsRun(run, steps) && run[0] == w && NoRetry(steps, i) && Bare(run[|steps|], i)
  }

  /** No closing update is under way that could leave the event bare. */
  ghost predicate Safe(w: Moment, i: nat) {
    && Inv(w) && i < |w.events| && !Bare(w, i)
    && (Flies(w, i) && w.events[i].attempts == 0 ==> w.worker.row.attempts + 1 >= MAX_ATTEMPTS)
  }

  lemma StepStaysSafe(w: Moment, s: Step, i: nat)
    requires Safe(w, i) && RowsInTable(w) && Enabled(w, s) && !Retries(s, i)
    ensures Safe(Next(w, s), i)
  {
    NextKeepsInv(w, s);
  }

  lemma {:induction false} RunStaysSafe(run: seq<Moment>, steps: seq<Step>, n: nat, i: nat)
    requires IsRun(run, steps) && Safe(run[0], i) && NoRetry(steps, i) && n < |run|
    ensures Safe(run[n], i)
  {
    if n == 0 {
    } else {
      RunStaysSafe(run, steps, n - 1, i);
      InvImpliesInTable(run[n - 1]);
      assert !Retries(steps[n - 1], i);
      StepStaysSafe(run[n - 1], steps[n - 1], i);
    }
  }

  /** The rest of the handling under way, ending in a refused delivery. */
  lemma FlightFails(w: Moment, now: int) returns (run: seq<Moment>, steps: seq<Step>)
    requires Inv(w) && RowsInTable(w) && w.worker.InFlight? && w.clock <= now
    ensures IsRun(run, steps) && run[0] == w && NoRetry(steps, w.worker.row.id)
    ensures var row, last := w.worker.row, run[|steps|];
            |last.events| == |w.events| &&
            last.events[row.id] == AfterFailure(w.events[row.id], row.attempts, row.maxAttempts, now)
  {
    run, steps := [w], [];
    if !w.worker.posted {
      NextKeepsInv(w, Post);
      InvImpliesInTable(Next(w, Post));
      run, steps := Extend(run, steps, Post, Next(w, Post));
    }
    run, steps := Extend(run, steps, Fail(now), Next(run[|steps|], Fail(now)));
  }

  /** "Retrying implies at least one attempt" fails after a manual retry exactly when that
      retry hits the event in flight and the handling under way is not its last attempt. */
  lemma RetryMayLeaveBareIff(run: seq<Moment>, steps: seq<Step>, n: nat, i: nat, now: int)
    requires IsRun(run, steps) && run[0] == START && n < |run| && RowsInTable(run[n]) && Enabled(run[n], Retry(i, now))
    ensures MayGetBare(Next(run[n], Retry(i, now)), i) <==>
            Flies(run[n], i) && run[n].worker.row.attempts + 1 < MAX_ATTEMPTS
  {
    RunKeepsInv(run, steps, n);
    var w := Next(run[n], Retry(i, now));
    NextKeepsInv(run[n], Retry(i, now));
    InvImpliesInTable(w);
    if Flies(run[n], i) && run[n].worker.row.attempts + 1 < MAX_ATTEMPTS {
      assert FlightOk(w, w.worker.row, w.worker.posted);
      var after, rest := FlightFails(w, w.clock);
      assert Bare(after[|rest|], i);
    } else {
      assert Safe(w, i);
      if MayGetBare(w, i) {
        var after: seq<Moment>, rest: seq<Step> :|
          IsRun(after, rest) && after[0] == w && NoRetry(rest, i) && Bare(after[|rest|], i);
        RunStaysSafe(after, rest, |rest|, i);
        assert false;
      }
    }
  }

  /** A single new event, read by the worker. */
  lemma OneRead() returns (run: seq<Moment>, steps: seq<Step>)
    ensures IsRun(run, steps) && run[0] == START
    ensures run[|steps|] == Moment([Queued(0, 0)], [Log(0, 0, 0, None, Clear)], {0}, 0, Reading([Row(0, 0, MAX_ATTEMPTS)]))
  {
    var e, l := Queued(0, 0), Log(0, 0, 0, None, Clear);
    run, steps := Extend([START], [], Toggle(0, true), Moment([], [], {0}, 0, Idle));
    assert [] + [e] == [e] && [] + [l] == [l];
    var w := Moment([e], [l], {0}, 0, Idle);
    run, steps := Extend(run, steps, Insert(0, 0), w);
    FetchOne(w, 0, Row(0, 0, MAX_ATTEMPTS));
    run, steps := Extend(run, steps, Fetch(0), w.(worker := Reading([Row(0, 0, MAX_ATTEMPTS)])));
  }

  /** The event marked, and then hit by a manual retry before its delivery. */
  lemma HitInFlight() returns (run: seq<Moment>, steps: seq<Step>)
    ensures IsRun(run, steps) && run[0] == START
    ensures run[|steps|] == Moment([Queued(0, 0)], [Log(0, 0, 0, None, BeforePost)], {0}, 0,
                                   InFlight(Row(0, 0, MAX_ATTEMPTS), false, []))
  {
    var e, row := Queued(0, 0), Row(0, 0, MAX_ATTEMPTS);
    run, steps := OneRead();
    assert [row][1..] == [];
    var w := Moment([MarkProcessing(e)], [Log(0, 0, 0, None, Clear)], {0}, 0, InFlight(row, false, []));
    run, steps := Extend(run, steps, Mark, w);
    run, steps := Extend(run, steps, Retry(0, 0), w.(events := [e], logs := [Log(0, 0, 0, None, BeforePost)]));
  }

  /** A retry in flight leaves a retrying event with no attempt, and one delivery made. */
  lemma InterruptedRetryingWithoutAttempt() returns (run: seq<Moment>, steps: seq<Step>)
    ensures IsRun(run, steps) && run[0] == START && Bare(run[|steps|], 0)
    ensures run[|steps|] == Moment([Event(0, Retrying, 0, MAX_ATTEMPTS, 5000)], [Log(1, 1, 0, None, BeforePost)], {0}, 0, Idle)
  {
    run, steps := HitInFlight();
    var w := run[|steps|].(logs := [Log(1, 0, 0, None, BeforePost)], worker := InFlight(Row(0, 0, MAX_ATTEMPTS), true, []));
    run, steps := Extend(run, steps, Post, w);
    var e := Event(0, Retrying, 0, MAX_ATTEMPTS, 5000);
    assert Backoff(1) == 5000;
    var w' := w.(events := [e], logs := [Log(1, 1, 0, None, BeforePost)], worker := Reading([]));
    run, steps := Extend(run, steps, Fail(0), w');
    run, steps := Extend(run, steps, EndBatch, w'.(worker := Idle));
  }

  lemma FetchOne(w: Moment, now: int, row: Row)
    requires |w.events| == 1 && Due(w.events[0], w.active, now)
    requires row == Row(0, w.events[0].attempts, w.events[0].maxAttempts)
    ensures Fetched(w, now) == [row]
  {
    var due := DueAt(w.events, w.active, now);
    assert due(0);
    assert Select(due, 1, 0, BATCH_SIZE) == [0] + Select(due, 1, 1, BATCH_SIZE - 1);
    assert Batch(w.events, w.active, now) == [0];
  }

  // ---- how many deliveries may follow a retry ---------------------------

  /** Some continuation without another manual retry of the event delivers it more often
      than the maximum. */
  ghost predicate MayExceed(w: Moment, i: nat) {
    exists run: seq<Moment>, steps: seq<Step> ::
      IsRun(run, steps) && run[0] == w && NoRetry(steps, i) && Exceeds(run[|steps|], i)
  }

  predicate Exceeds(w: Moment, i: nat) {
    i < |w.logs| && w.logs[i].posts > MAX_ATTEMPTS
  }

  /** Every delivery made or about to be made has its attempt; or the handling under way is
      the last one and was hit by the retry; or it is over for good after at most one. */
  ghost predicate Bounded(w: Moment, i: nat) {
    && Inv(w) && i < |w.events|
    && (|| w.logs[i].posts + (if Flies(w, i) && !w.worker.posted then 1 else 0) <= w.events[i].attempts
        || (Flies(w, i) && w.events[i].attempts == 0 && w.worker.row.attempts + 1 >= MAX_ATTEMPTS &&
            w.logs[i].posts == if w.worker.posted then 1 else 0)
        || (Untouched(w, i) && (w.events[i].status == Dead || w.events[i].status == Delivered) && w.logs[i].posts <= 1))
  }

  lemma BoundedDoesNotExceed(w: Moment, i: nat)
    requires Bounded(w, i)
    ensures !Exceeds(w, i)
  {
    assert EventOk(w.events[i], w.logs[i]);
  }

  lemma FlightEnds(w: Moment, s: Step, i: nat)
    requires Inv(w) && RowsInTable(w) && Enabled(w, s) && Flies(w, i) && (s.Deliver? || s.Fail?)
    ensures Untouched(Next(w, s), i)
  {
  }

  lemma StepStaysBounded(w: Moment, s: Step, i: nat)
    requires Bounded(w, i) && RowsInTable(w) && Enabled(w, s) && !Retries(s, i)
    ensures Bounded(Next(w, s), i)
  {
    NextKeepsInv(w, s);
    if Untouched(w, i) && (w.events[i].status == Dead || w.events[i].status == Delivered) && w.logs[i].posts <= 1 {
      StepLeavesStuck(w, s, i);
    } else if Flies(w, i) && (s.Deliver? || s.Fail?) {
      FlightEnds(w, s, i);
    }
  }

  lemma {:induction false} RunStaysBounded(run: seq<Moment>, steps: seq<Step>, n: nat, i: nat)
    requires IsRun(run, steps) && Bounded(run[0], i) && NoRetry(steps, i) && n < |run|
    ensures Bounded(run[n], i)
  {
    if n == 0 {
    } else {
      RunStaysBounded(run, steps, n - 1, i);
      InvImpliesInTable(run[n - 1]);
      assert !Retries(steps[n - 1], i);
      StepStaysBounded(run[n - 1], steps[n - 1], i);
    }
  }

  // ---- reaching the event again -----------------------------------------

  /** A run that makes no manual retry of the event from a position on. */
  ghost predicate Path(run: seq<Moment>, steps: seq<Step>, from: nat, i: nat) {
    IsRun(run, steps) && from <= |steps| && forall k :: from <= k < |steps| ==> !Retries(steps[k], i)
  }

  lemma Go(run: seq<Moment>, steps: seq<Step>, from: nat, i: nat, s: Step) returns (run': seq<Moment>, steps': seq<Step>)
    requires Path(run, steps, from, i) && Inv(run[|steps|]) && Enabled(run[|steps|], s) && !Retries(s, i)
    ensures RowsInTable(run[|steps|])
    ensures Path(run', steps', from, i) && run'[0] == run[0]
    ensures run'[|steps'|] == Next(run[|steps|], s) && Inv(run'[|steps'|])
  {
    InvImpliesInTable(run[|steps|]);
    NextKeepsInv(run[|steps|], s);
    run', steps' := Extend(run, steps, s, Next(run[|steps|], s));
  }

  function AliveBelow(events: seq<Event>, n: nat): nat
    requires n <= |events|
  {
    if n == 0 then 0 else AliveBelow(events, n - 1) + if IsAlive(events[n - 1]) then 1 else 0
  }

  lemma {:induction false} DeathBelow(events: seq<Event>, j: nat, n: nat)
    requires j < |events| && n <= |events|
    ensures var after := events[j := events[j].(status := Dead)];
            && AliveBelow(after, n) <= AliveBelow(events, n)
            && (j < n && IsAlive(events[j]) ==> AliveBelow(after, n) < AliveBelow(events, n))
  {
    if n == 0 {
    } else {
      DeathBelow(events, j, n - 1);
    }
  }

  /** The event waits to be delivered again: it has made one delivery more than attempts. */
  ghost predicate Ahead(w: Moment, i: nat, attempts: nat) {
    && i < |w.events| == |w.logs|
    && w.events[i].status == Retrying && w.events[i].attempts == attempts
    && w.logs[i].posts == attempts + 1 && w.logs[i].hit == BeforePost
  }

  /** Ahead, and the worker holds its row next. */
  ghost predicate AtHead(w: Moment, i: nat, attempts: nat) {
    && Ahead(w, i, attempts) && w.worker.Reading? && w.worker.rows != []
    && w.worker.rows[0] == Row(i, attempts, MAX_ATTEMPTS)
  }

  lemma HeadIsCurrent(w: Moment, i: nat, attempts: nat)
    requires Inv(w) && Ahead(w, i, attempts) && w.worker.Reading? && w.worker.rows != [] && w.worker.rows[0].id == i
    ensures AtHead(w, i, attempts)
  {
    assert RowOk(w, w.worker.rows[0]);
  }

  /** The oldest due row is the event's or an older one. */
  lemma FetchedHead(w: Moment, i: nat, now: int)
    requires i < |w.events| && Due(w.events[i], w.active, now)
    ensures var rows := Fetched(w, now); rows != [] && rows[0].id <= i
  {
    var due, batch := DueAt(w.events, w.active, now), Batch(w.events, w.active, now);
    SelectFacts(due, |w.events|, 0, BATCH_SIZE);
    assert due(i);
    if i in batch {
      var k :| 0 <= k < |batch| && batch[k] == i;
    } else {
      assert batch[0] < i;
    }
  }

  /** Blocking another row leaves the event alone and makes one older event less alive. */
  lemma BlockedOther(w: Moment, i: nat, attempts: nat)
    requires Inv(w) && RowsInTable(w) && Ahead(w, i, attempts) && Enabled(w, Block) && w.worker.rows[0].id != i
    ensures var w' := Next(w, Block);
            && Ahead(w', i, attempts) && w'.worker == Reading(w.worker.rows[1..])
            && |w'.events| == |w.events|
            && AliveBelow(w'.events, i) <= AliveBelow(w.events, i)
            && (w.worker.rows[0].id < i ==> AliveBelow(w'.events, i) < AliveBelow(w.events, i))
  {
    assert RowOk(w, w.worker.rows[0]);
    DeathBelow(w.events, w.worker.rows[0].id, i);
  }

  /** A tick that reads the event or, before it, an older one. */
  lemma NextTick(run: seq<Moment>, steps: seq<Step>, from: nat, i: nat, attempts: nat)
    returns (run': seq<Moment>, steps': seq<Step>)
    requires Path(run, steps, from, i) && Inv(run[|steps|]) && Ahead(run[|steps|], i, attempts) && run[|steps|].worker.Idle?
    ensures Path(run', steps', from, i) && run'[0] == run[0] && Inv(run'[|steps'|]) && Ahead(run'[|steps'|], i, attempts)
    ensures var w := run'[|steps'|];
            && w.events == run[|steps|].events && |w.logs| == |run[|steps|].logs|
            && w.worker.Reading? && w.worker.rows != [] && w.worker.rows[0].id <= i
  {
    var w := run[|steps|];
    var e := w.events[i];
    run', steps' := Go(run, steps, from, i, Toggle(e.config, true));
    var on := run'[|steps'|];
    var now := if w.clock <= e.nextAttempt then e.nextAttempt else w.clock;
    FetchedHead(on, i, now);
    run', steps' := Go(run', steps', from, i, Fetch(now));
  }

  /** Ticks that block older events bring the worker to the event: every one of them
      leaves fewer older events alive. */
  lemma {:induction false} ReachHead(run: seq<Moment>, steps: seq<Step>, from: nat, i: nat, attempts: nat)
    returns (run': seq<Moment>, steps': seq<Step>)
    requires Path(run, steps, from, i) && Inv(run[|steps|]) && Ahead(run[|steps|], i, attempts)
    requires !run[|steps|].worker.InFlight?
    ensures Path(run', steps', from, i) && run'[0] == run[0]
    ensures var w := run'[|steps'|]; Inv(w) && AtHead(w, i, attempts) && |w.logs| == |run[|steps|].logs|
    decreases AliveBelow(run[|steps|].events, i), if run[|steps|].worker.Idle? then 0 else 1 + |run[|steps|].worker.rows|
  {
    var w := run[|steps|];
    run', steps' := run, steps;
    if w.worker.Idle? {
      run', steps' := NextTick(run, steps, from, i, attempts);
      var tick := run'[|steps'|];
      if tick.worker.rows[0].id == i {
        HeadIsCurrent(tick, i, attempts);
      } else {
        run', steps' := BlockAndGoOn(run', steps', from, i, attempts);
        run', steps' := ReachHead(run', steps', from, i, attempts);
      }
    } else if w.worker.rows == [] {
      run', steps' := Go(run, steps, from, i, EndBatch);
      run', steps' := ReachHead(run', steps', from, i, attempts);
    } else if w.worker.rows[0].id == i {
      HeadIsCurrent(w, i, attempts);
    } else {
      run', steps' := BlockAndGoOn(run, steps, from, i, attempts);
      run', steps' := ReachHead(run', steps', from, i, attempts);
    }
  }

  lemma BlockAndGoOn(run: seq<Moment>, steps: seq<Step>, from: nat, i: nat, attempts: nat)
    returns (run': seq<Moment>, steps': seq<Step>)
    requires Path(run, steps, from, i) && Inv(run[|steps|]) && Ahead(run[|steps|], i, attempts)
    requires var w := run[|steps|]; Enabled(w, Block) && w.worker.rows[0].id != i
    ensures Path(run', steps', from, i) && run'[0] == run[0]
    ensures var w, w' := run[|steps|], run'[|steps'|];
            && Inv(w') && Ahead(w', i, attempts) && w'.worker == Reading(w.worker.rows[1..])
            && |w'.logs| == |w.logs|
            && AliveBelow(w'.events, i) <= AliveBelow(w.events, i)
            && (w.worker.rows[0].id < i ==> AliveBelow(w'.events, i) < AliveBelow(w.events, i))
  {
    run', steps' := Go(run, steps, from, i, Block);
    BlockedOther(run[|steps|], i, attempts);
  }

  /** The event at the head of the batch is marked and posted. */
  lemma HeadPosts(run: seq<Moment>, steps: seq<Step>, from: nat, i: nat, attempts: nat)
    returns (run': seq<Moment>, steps': seq<Step>)
    requires Path(run, steps, from, i) && Inv(run[|steps|]) && AtHead(run[|steps|], i, attempts)
    ensures Path(run', steps', from, i) && run'[0] == run[0]
    ensures var w := run'[|steps'|];
            && Inv(w) && |w.logs| == |run[|steps|].logs| && i < |w.events|
            && w.events[i].attempts == attempts + 1 && w.logs[i].posts == attempts + 2 && w.logs[i].hit == BeforePost
            && w.worker.InFlight? && w.worker.row == Row(i, attempts, MAX_ATTEMPTS) && w.worker.posted
  {
    run', steps' := Go(run, steps, from, i, Mark);
    run', steps' := Go(run', steps', from, i, Post);
  }

  /** The delivery under way is refused; unless it was the last attempt, the event is ahead. */
  lemma PostedFails(run: seq<Moment>, steps: seq<Step>, from: nat, i: nat, attempts: nat)
    returns (run': seq<Moment>, steps': seq<Step>)
    requires Path(run, steps, from, i) && Inv(run[|steps|])
    requires var w := run[|steps|];
             && w.worker.InFlight? && w.worker.row.id == i && w.worker.posted && i < |w.events|
             && w.worker.row.attempts + 1 < MAX_ATTEMPTS
             && w.events[i].attempts == attempts && w.logs[i].posts == attempts + 1 && w.logs[i].hit == BeforePost
    ensures Path(run', steps', from, i) && run'[0] == run[0]
    ensures var w := run'[|steps'|];
            Inv(w) && Ahead(w, i, attempts) && w.worker.Reading? && |w.logs| == |run[|steps|].logs|
  {
    assert FlightOk(run[|steps|], run[|steps|].worker.row, true);
    run', steps' := Go(run, steps, from, i, Fail(run[|steps|].clock));
  }

  /** One delivery after another, until the event is ahead with its last attempt to come. */
  lemma {:induction false} FailUntilLast(run: seq<Moment>, steps: seq<Step>, from: nat, i: nat, attempts: nat)
    returns (run': seq<Moment>, steps': seq<Step>)
    requires Path(run, steps, from, i) && Inv(run[|steps|]) && Ahead(run[|steps|], i, attempts)
    requires !run[|steps|].worker.InFlight? && attempts < MAX_ATTEMPTS
    ensures Path(run', steps', from, i) && run'[0] == run[0]
    ensures var w := run'[|steps'|];
            Inv(w) && AtHead(w, i, MAX_ATTEMPTS - 1) && |w.logs| == |run[|steps|].logs|
    decreases MAX_ATTEMPTS - attempts
  {
    run', steps' := ReachHead(run, steps, from, i, attempts);
    if attempts + 1 < MAX_ATTEMPTS {
      run', steps' := HeadPosts(run', steps', from, i, attempts);
      run', steps' := PostedFails(run', steps', from, i, attempts + 1);
      run', steps' := FailUntilLast(run', steps', from, i, attempts + 1);
    }
  }

  /** A handling hit between mark and delivery, with attempts left, can be followed by one
      delivery more than the maximum. */
  lemma HitExceeds(run: seq<Moment>, steps: seq<Step>, from: nat, i: nat) returns (run': seq<Moment>, steps': seq<Step>)
    requires Path(run, steps, from, i) && Inv(run[|steps|])
    requires var w := run[|steps|];
             && Flies(w, i) && !w.worker.posted && w.worker.row.attempts + 1 < MAX_ATTEMPTS && i < |w.events|
             && w.events[i].attempts == 0 && w.logs[i].posts == 0 && w.logs[i].hit == BeforePost
    ensures Path(run', steps', from, i) && run'[0] == run[0]
    ensures var w := run'[|steps'|];
            |w.logs| == |run[|steps|].logs| && i < |w.logs| && w.logs[i].posts == MAX_ATTEMPTS + 1
  {
    run', steps' := Go(run, steps, from, i, Post);
    run', steps' := PostedFails(run', steps', from, i, 0);
    run', steps' := FailUntilLast(run', steps', from, i, 0);
    run', steps' := HeadPosts(run', steps', from, i, MAX_ATTEMPTS - 1);
  }

  /** "At most the maximum of deliveries between manual retries" fails after a manual retry
      exactly when that retry comes between the mark and the delivery of the event, and the
      handling under way is not its last attempt. */
  lemma RetryMayExceedIff(run: seq<Moment>, steps: seq<Step>, n: nat, i: nat, now: int)
    requires IsRun(run, steps) && run[0] == START && n < |run| && RowsInTable(run[n]) && Enabled(run[n], Retry(i, now))
    ensures MayExceed(Next(run[n], Retry(i, now)), i) <==>
            Flies(run[n], i) && !run[n].worker.posted && run[n].worker.row.attempts + 1 < MAX_ATTEMPTS
  {
    RunKeepsInv(run, steps, n);
    var w := Next(run[n], Retry(i, now));
    NextKeepsInv(run[n], Retry(i, now));
    if Flies(run[n], i) && !run[n].worker.posted && run[n].worker.row.attempts + 1 < MAX_ATTEMPTS {
      var after, rest := HitExceeds([w], [], 0, i);
      assert NoRetry(rest, i) && Exceeds(after[|rest|], i);
    } else {
      assert Bounded(w, i);
      if MayExceed(w, i) {
        var after: seq<Moment>, rest: seq<Step> :|
          IsRun(after, rest) && after[0] == w && NoRetry(rest, i) && Exceeds(after[|rest|], i);
        RunStaysBounded(after, rest, |rest|, i);
        BoundedDoesNotExceed(after[|rest|], i);
        assert false;
      }
    }
  }

  /** The bound on deliveries is attained: after a retry between mark and delivery, nine
      deliveries follow without another manual retry. */
  lemma NineDeliveries() returns (run: seq<Moment>, steps: seq<Step>)
    ensures IsRun(run, steps) && run[0] == START
    ensures var last := run[|steps|]; |last.logs| == 1 && last.logs[0].posts == MAX_ATTEMPTS + 1
  {
    run, steps := HitInFlight();
    RunKeepsInv(run, steps, |steps|);
    run, steps := HitExceeds(run, steps, |steps|, 0);
  }

  // ---- the worker alone -------------------------------------------------

  /** Without interference the statements of the worker compose to the tick model's row update. */
  lemma StatementsComposeToHandled(w: Moment, answer: Answer)
    requires Inv(w) && RowsInTable(w) && w.worker.Reading? && w.worker.rows != []
    requires var r := w.worker.rows[0]; w.logs[r.id].hit.Clear?
    requires w.clock <= answer.at
    ensures var r := w.worker.rows[0];
            var last :=
              match answer.outcome
              case Blocked => Next(w, Block)
              case Unbuildable => Next(Next(w, Mark), Abandon)
              case Accepted => Next(Next(Next(w, Mark), Post), Deliver)
              case Refused => Next(Next(Next(w, Mark), Post), Fail(answer.at));
            last.events == w.events[r.id := Handled(w.events[r.id], answer)] && last.worker == Reading(w.worker.rows[1..])
  {
    var r := w.worker.rows[0];
    assert RowOk(w, r) && EventOk(w.events[r.id], w.logs[r.id]);
  }
}
