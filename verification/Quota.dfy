/** The page quota: what a scrape request may spend, what a finished job charges, and
    what survives when requests and jobs overlap. */
module Quota {

  type Rows = map<string, nat>

  function RowOf(rows: Rows, source: string): nat {
    if source in rows then rows[source] else 0
  }

  // ---- sums over a table ------------------------------------------------

  /** SELECT SUM(scraped_pages) for one user. */
  ghost function Sum(rows: Rows): nat
    decreases |rows|
  {
    if rows == map[] then 0 else
      var k :| k in rows;
      rows[k] + Sum(rows - {k})
  }

  lemma {:induction false} SumRemove(rows: Rows, k: string)
    requires k in rows
    ensures Sum(rows) == rows[k] + Sum(rows - {k})
    decreases |rows|
  {
    var first :| first in rows && Sum(rows) == rows[first] + Sum(rows - {first});
    if first == k {
    } else {
      SumRemove(rows - {first}, k);
      SumRemove(rows - {k}, first);
      assert (rows - {first}) - {k} == (rows - {k}) - {first};
    }
  }

  lemma SumUpdate(rows: Rows, k: string, n: nat)
    ensures Sum(rows[k := n]) == Sum(rows) - RowOf(rows, k) + n
    ensures RowOf(rows, k) <= Sum(rows)
  {
    var updated := rows[k := n];
    SumRemove(updated, k);
    assert updated - {k} == rows - {k};
    if k in rows { SumRemove(rows, k); } else { assert rows - {k} == rows; }
  }

  // ---- one request after the other --------------------------------------

  /** The budget of a run: the plan limit less what the other sources use. */
  ghost function Remaining(rows: Rows, source: string, limit: nat): int {
    var others := Sum(rows) - RowOf(rows, source);
    limit - (if others < 0 then 0 else others)
  }

  /** One user-visible operation, with the number of pages the crawl could find. */
  datatype Op = Scrape(source: string, found: nat, indexed: bool) | Delete(source: string) | DeleteAll

  ghost function Apply(rows: Rows, op: Op, limit: nat): Rows {
    match op
    case Scrape(source, found, indexed) =>
      var remaining := Remaining(rows, source, limit);
      if remaining <= 0 then rows
      else
        var kept := rows[source := RowOf(rows, source)];
        if found == 0 || !indexed then kept else kept[source := if found <= remaining then found else remaining]
    case Delete(source) => rows - {source}
    case DeleteAll => map[]
  }

  /** An admitted scrape replaces the charge of its own source and touches no other. */
  lemma ScrapeReplacesCharge(rows: Rows, source: string, found: nat, limit: nat)
    requires Remaining(rows, source, limit) > 0 && found > 0
    ensures var rows' := Apply(rows, Scrape(source, found, true), limit);
            && 0 < rows'[source] <= Remaining(rows, source, limit)
            && Sum(rows') == Sum(rows) - RowOf(rows, source) + rows'[source] <= limit
            && rows' - {source} == rows - {source}
  {
    var remaining := Remaining(rows, source, limit);
    var charge := if found <= remaining then found else remaining;
    assert rows[source := RowOf(rows, source)][source := charge] == rows[source := charge];
    SumUpdate(rows, source, charge);
  }

  lemma ApplyWithinLimit(rows: Rows, op: Op, limit: nat)
    requires Sum(rows) <= limit
    ensures Sum(Apply(rows, op, limit)) <= limit
  {
    match op
    case Scrape(source, found, indexed) =>
      SumUpdate(rows, source, RowOf(rows, source));
      if Remaining(rows, source, limit) > 0 && found > 0 && indexed {
        ScrapeReplacesCharge(rows, source, found, limit);
      }
    case Delete(source) =>
      if source in rows { SumRemove(rows, source); } else { assert rows - {source} == rows; }
    case DeleteAll =>
  }

  ghost function ApplyAll(rows: Rows, ops: seq<Op>, limit: nat): Rows
    decreases |ops|
  {
    if ops == [] then rows else ApplyAll(Apply(rows, ops[0], limit), ops[1..], limit)
  }

  /** With a constant plan and no overlap, the plan limit is never exceeded. */
  lemma {:induction false} SerialRunsStayWithinLimit(rows: Rows, ops: seq<Op>, limit: nat)
    requires Sum(rows) <= limit
    ensures Sum(ApplyAll(rows, ops, limit)) <= limit
    decreases |ops|
  {
    if ops == [] {
    } else {
      ApplyWithinLimit(rows, ops[0], limit);
      SerialRunsStayWithinLimit(Apply(rows, ops[0], limit), ops[1..], limit);
    }
  }

  // ---- the handlers of one user, as written -----------------------------

  class Usage {
    const limit: nat
    var rows: Rows

    constructor (limit: nat)
      ensures this.limit == limit && rows == map[]
    {
      this.limit, rows := limit, map[];
    }

    method TotalPages() returns (total: nat)
      ensures total == Sum(rows)
    {
      total := 0;
      var left := rows.Keys;
      assert rows - (rows.Keys - left) == rows;
      while left != {}
        invariant left <= rows.Keys && total + Sum(rows - (rows.Keys - left)) == Sum(rows)
      {
        var k :| k in left;
        ghost var rest := rows - (rows.Keys - left);
        SumRemove(rest, k);
        assert rest - {k} == rows - (rows.Keys - (left - {k}));
        total := total + rows[k];
        left := left - {k};
      }
      assert rows - (rows.Keys - left) == map[];
    }

    /** The admission of a scrape: the budget of the run, or a refusal that changes nothing. */
    method Scrape(source: string) returns (budget: nat)
      modifies this`rows
      ensures budget == if Remaining(old(rows), source, limit) <= 0 then 0 else Remaining(old(rows), source, limit)
      ensures rows == if budget == 0 then old(rows) else old(rows)[source := RowOf(old(rows), source)]
    {
      var current: int := if source in rows then rows[source] else 0;
      var total: int := TotalPages();
      var others: int := total - current;
      if others < 0 {
        others := 0;
      }
      if limit - others <= 0 {
        return 0;
      }
      if source !in rows {
        rows := rows[source := current];
      }
      return limit - others;
    }

    /** A request and its job without overlap: the operation of the serial model, which
        keeps the user within the limit. */
    method ScrapeToEnd(source: string, found: nat, indexed: bool)
      requires Sum(rows) <= limit
      modifies this`rows
      ensures rows == Apply(old(rows), Op.Scrape(source, found, indexed), limit) && Sum(rows) <= limit
    {
      ApplyWithinLimit(rows, Op.Scrape(source, found, indexed), limit);
      var budget := Scrape(source);
      if budget > 0 && found > 0 && indexed {
        var pages := if found < budget then found else budget;
        if source in rows {
          rows := rows[source := pages];
        }
      }
    }

    method DeleteSource(source: string)
      requires Sum(rows) <= limit
      modifies this`rows
      ensures rows == old(rows) - {source} && Sum(rows) == Sum(old(rows)) - RowOf(old(rows), source) <= limit
    {
      if source in rows {
        SumRemove(rows, source);
      } else {
        assert rows - {source} == rows;
      }
      rows := rows - {source};
    }
  }

  // ---- overlapping requests and jobs ------------------------------------

  /** A request between its statements: after the first read, after the second. */
  datatype Request =
    | ReadCurrent(user: string, source: string, current: nat)
    | Budgeted(user: string, source: string, current: nat, remaining: nat)

  datatype Job =
    | Waiting(user: string, source: string, max: nat)
    | Running(user: string, source: string, max: nat)

  /** The tables of all users, the requests in flight, the jobs, and the number of
      tokens in the semaphore channel of capacity five. */
  datatype State = State(tables: map<string, Rows>, requests: map<nat, Request>, jobs: map<nat, Job>, tokens: nat)

  function Table(s: State, user: string): Rows {
    if user in s.tables then s.tables[user] else map[]
  }

  datatype Step =
    | Begin(r: nat, user: string, source: string)
    | ReadTotal(r: nat)
    | Enqueue(r: nat, j: nat)
    | Acquire(j: nat)
    | Finish(j: nat, charged: nat)
    | Fail(j: nat)
    | Remove(user: string, source: string)
    | RemoveAll(user: string)

  const SLOTS: nat := 5

  ghost predicate Enabled(s: State, step: Step, limit: string -> nat) {
    match step
    case Begin(r, _, _) => r !in s.requests
    case ReadTotal(r) => r in s.requests && s.requests[r].ReadCurrent?
    case Enqueue(r, j) => r in s.requests && s.requests[r].Budgeted? && j !in s.jobs
    case Acquire(j) => j in s.jobs && s.jobs[j].Waiting? && s.tokens < SLOTS
    case Finish(j, charged) => j in s.jobs && s.jobs[j].Running? && 0 < charged <= s.jobs[j].max
    case Fail(j) => j in s.jobs && s.jobs[j].Running?
    case Remove(_, _) => true
    case RemoveAll(_) => true
  }

  /** What the second read makes of a request: a budget, or a refusal that ends it. */
  ghost function AfterTotal(q: Request, total: nat, limit: nat): seq<Request>
    requires q.ReadCurrent?
  {
    var others := if total - q.current < 0 then 0 else total - q.current;
    if limit - others <= 0 then [] else [Budgeted(q.user, q.source, q.current, limit - others)]
  }

  ghost function Next(s: State, step: Step, limit: string -> nat): State
    requires Enabled(s, step, limit)
  {
    match step
    case Begin(r, user, source) =>
      s.(requests := s.requests[r := ReadCurrent(user, source, RowOf(Table(s, user), source))])
    case ReadTotal(r) =>
      var q := s.requests[r];
      var after := AfterTotal(q, Sum(Table(s, q.user)), limit(q.user));
      s.(requests := if after == [] then s.requests - {r} else s.requests[r := after[0]])
    case Enqueue(r, j) =>
      var q := s.requests[r];
      var rows := Table(s, q.user);
      s.(tables := s.tables[q.user := if q.source in rows then rows else rows[q.source := q.current]],
         requests := s.requests - {r},
         jobs := s.jobs[j := Waiting(q.user, q.source, q.remaining)])
    case Acquire(j) =>
      s.(jobs := s.jobs[j := Running(s.jobs[j].user, s.jobs[j].source, s.jobs[j].max)], tokens := s.tokens + 1)
    case Finish(j, charged) =>
      var job := s.jobs[j];
      var rows := Table(s, job.user);
      s.(tables := if job.source in rows then s.tables[job.user := rows[job.source := charged]] else s.tables,
         jobs := s.jobs - {j}, tokens := if s.tokens == 0 then 0 else s.tokens - 1)
    case Fail(j) => s.(jobs := s.jobs - {j}, tokens := if s.tokens == 0 then 0 else s.tokens - 1)
    case Remove(user, source) => s.(tables := s.tables[user := Table(s, user) - {source}])
    case RemoveAll(user) => s.(tables := s.tables[user := map[]])
  }

  ghost function RunningJobs(jobs: map<nat, Job>): set<nat> {
    set j | j in jobs && jobs[j].Running?
  }

  lemma RunningAfterPut(jobs: map<nat, Job>, j: nat, job: Job)
    requires j in jobs ==> jobs[j].Waiting?
    ensures |RunningJobs(jobs[j := job])| == |RunningJobs(jobs)| + (if job.Running? then 1 else 0)
  {
    assert RunningJobs(jobs[j := job]) == if job.Running? then RunningJobs(jobs) + {j} else RunningJobs(jobs);
  }

  lemma RunningAfterEnd(jobs: map<nat, Job>, j: nat)
    requires j in jobs && jobs[j].Running?
    ensures |RunningJobs(jobs)| == |RunningJobs(jobs - {j})| + 1
  {
    assert RunningJobs(jobs) == RunningJobs(jobs - {j}) + {j};
  }

  ghost predicate RowsOk(s: State, limit: string -> nat) {
    forall u, k :: u in s.tables && k in s.tables[u] ==> s.tables[u][k] <= limit(u)
  }

  ghost predicate RequestsOk(s: State, limit: string -> nat) {
    forall r :: r in s.requests ==>
      && s.requests[r].current <= limit(s.requests[r].user)
      && (s.requests[r].Budgeted? ==> 0 < s.requests[r].remaining <= limit(s.requests[r].user))
  }

  ghost predicate JobsOk(s: State, limit: string -> nat) {
    forall j :: j in s.jobs ==> 0 < s.jobs[j].max <= limit(s.jobs[j].user)
  }

  ghost predicate Inv(s: State, limit: string -> nat) {
    && RowsOk(s, limit) && RequestsOk(s, limit) && JobsOk(s, limit)
    && s.tokens == |RunningJobs(s.jobs)| <= SLOTS
  }

  lemma NextKeepsRows(s: State, step: Step, limit: string -> nat)
    requires Inv(s, limit) && Enabled(s, step, limit)
    ensures RowsOk(Next(s, step, limit), limit)
    ensures RequestsOk(Next(s, step, limit), limit)
    ensures JobsOk(Next(s, step, limit), limit)
  {
  }

  lemma NextKeepsTokens(s: State, step: Step, limit: string -> nat)
    requires s.tokens == |RunningJobs(s.jobs)| <= SLOTS && Enabled(s, step, limit)
    ensures var s' := Next(s, step, limit); s'.tokens == |RunningJobs(s'.jobs)| <= SLOTS
  {
    match step
    case Acquire(j) => RunningAfterPut(s.jobs, j, Running(s.jobs[j].user, s.jobs[j].source, s.jobs[j].max));
    case Finish(j, _) => RunningAfterEnd(s.jobs, j);
    case Fail(j) => RunningAfterEnd(s.jobs, j);
    case Enqueue(r, j) =>
      RunningAfterPut(s.jobs, j, Waiting(s.requests[r].user, s.requests[r].source, s.requests[r].remaining));
    case _ =>
  }

  ghost predicate IsRun(run: seq<State>, steps: seq<Step>, limit: string -> nat) {
    && |run| == |steps| + 1
    && forall i :: 0 <= i < |steps| ==> Enabled(run[i], steps[i], limit) && run[i + 1] == Next(run[i], steps[i], limit)
  }

  /** Under every interleaving, each row stays within the plan limit of its user and
      at most five jobs run at once. */
  lemma {:induction false} EveryRowWithinLimit(run: seq<State>, steps: seq<Step>, limit: string -> nat, n: nat)
    requires IsRun(run, steps, limit) && n < |run|
    requires Inv(run[0], limit)
    ensures Inv(run[n], limit)
    ensures forall u, k :: u in run[n].tables && k in run[n].tables[u] ==> run[n].tables[u][k] <= limit(u)
    ensures |RunningJobs(run[n].jobs)| <= 5
  {
    if n == 0 {
    } else {
      EveryRowWithinLimit(run, steps, limit, n - 1);
      NextKeepsRows(run[n - 1], steps[n - 1], limit);
      NextKeepsTokens(run[n - 1], steps[n - 1], limit);
    }
  }

  /** A job with budget `max` is safe to finish, whatever it charges up to that budget,
      exactly when the budget still fits beside the rows the user has by then. */
  lemma BudgetStillFitsIff(s: State, j: nat, limit: string -> nat)
    requires j in s.jobs && s.jobs[j].Running? && s.jobs[j].max > 0
    requires s.jobs[j].source in Table(s, s.jobs[j].user)
    ensures (forall charged: nat :: 0 < charged <= s.jobs[j].max ==>
               Sum(Table(Next(s, Finish(j, charged), limit), s.jobs[j].user)) <= limit(s.jobs[j].user)) <==>
            s.jobs[j].max <= Remaining(Table(s, s.jobs[j].user), s.jobs[j].source, limit(s.jobs[j].user))
  {
    var job := s.jobs[j];
    var rows := Table(s, job.user);
    forall charged: nat | 0 < charged <= job.max
      ensures Sum(Table(Next(s, Finish(j, charged), limit), job.user)) == Sum(rows) - RowOf(rows, job.source) + charged
    {
      SumUpdate(rows, job.source, charged);
    }
    SumUpdate(rows, job.source, job.max);
    assert Sum(Table(Next(s, Finish(j, job.max), limit), job.user)) == Sum(rows) - RowOf(rows, job.source) + job.max;
  }

  /** What a request makes of the limit when nothing comes between its statements: it is
      refused exactly if the other sources use up the limit, and else its job gets all that
      they leave, and its row exists. */
  lemma UndisturbedRequest(s: State, r: nat, j: nat, user: string, source: string, limit: string -> nat)
    requires r !in s.requests && j !in s.jobs
    ensures var rows := Table(s, user);
            var others := Sum(rows - {source});
            var read := Next(Next(s, Begin(r, user, source), limit), ReadTotal(r), limit);
            && (r in read.requests <==> others < limit(user))
            && (r !in read.requests ==> read == s)
            && (r in read.requests ==>
                  Enabled(read, Enqueue(r, j), limit) &&
                  var queued := Next(read, Enqueue(r, j), limit);
                  && queued.jobs == s.jobs[j := Waiting(user, source, limit(user) - others)]
                  && queued.requests == s.requests
                  && Table(queued, user) == rows[source := RowOf(rows, source)])
  {
    var rows := Table(s, user);
    SumWithout(rows, source);
    assert s.requests[r := ReadCurrent(user, source, RowOf(rows, source))] - {r} == s.requests;
  }

  lemma SumWithout(rows: Rows, source: string)
    ensures Sum(rows) == Sum(rows - {source}) + RowOf(rows, source)
  {
    if source in rows {
      SumRemove(rows, source);
    } else {
      assert rows - {source} == rows;
    }
  }

  /** What a scrape charges: nothing if the other sources use up the limit; else all pages
      that were found and indexed, up to what they leave. */
  lemma ScrapeChargesExactly(rows: Rows, source: string, found: nat, indexed: bool, limit: nat)
    ensures var others, after := Sum(rows - {source}), Apply(rows, Op.Scrape(source, found, indexed), limit);
            && (others >= limit ==> after == rows)
            && (others < limit && (found == 0 || !indexed) ==> after == rows[source := RowOf(rows, source)])
            && (others < limit && found > 0 && indexed ==>
                  after == rows[source := if found <= limit - others then found else limit - others])
  {
    SumWithout(rows, source);
  }

  /** Removing a source gives its charge back, removing everything all of it, and neither
      touches another user. */
  lemma RemovalGivesBack(s: State, user: string, source: string, limit: string -> nat)
    ensures var rows, after := Table(s, user), Next(s, Remove(user, source), limit);
            && Table(after, user) == rows - {source} && Sum(rows - {source}) == Sum(rows) - RowOf(rows, source)
            && (forall u :: u != user ==> Table(after, u) == Table(s, u)) && after.jobs == s.jobs
    ensures var after := Next(s, RemoveAll(user), limit);
            && Table(after, user) == map[]
            && (forall u :: u != user ==> Table(after, u) == Table(s, u)) && after.jobs == s.jobs
    ensures Apply(Table(s, user), Delete(source), limit(user)) == Table(s, user) - {source}
    ensures Apply(Table(s, user), DeleteAll, limit(user)) == map[]
  {
    SumWithout(Table(s, user), source);
  }

  // ---- when overlapping jobs stay within the limit ----------------------

  function Max(a: nat, b: nat): nat {
    if a >= b then a else b
  }

  lemma MaxSwaps(a: nat, b: nat, c: nat)
    ensures Max(a, Max(b, c)) == Max(b, Max(a, c))
  {
  }

  /** What a job may still charge to a source of a user. */
  function Weight(job: Job, user: string, source: string): nat {
    if job.user == user && job.source == source then job.max else 0
  }

  /** The largest budget of all jobs on a source. */
  ghost function Largest(jobs: map<nat, Job>, user: string, source: string): nat
    decreases |jobs|
  {
    if jobs == map[] then 0 else
      var j :| j in jobs;
      Max(Weight(jobs[j], user, source), Largest(jobs - {j}, user, source))
  }

  lemma {:induction false} LargestRemove(jobs: map<nat, Job>, j: nat, user: string, source: string)
    requires j in jobs
    ensures Largest(jobs, user, source) == Max(Weight(jobs[j], user, source), Largest(jobs - {j}, user, source))
    decreases |jobs|
  {
    var first :| first in jobs &&
      Largest(jobs, user, source) == Max(Weight(jobs[first], user, source), Largest(jobs - {first}, user, source));
    if first == j {
    } else {
      var rest := (jobs - {first}) - {j};
      assert rest == (jobs - {j}) - {first};
      LargestRemove(jobs - {first}, j, user, source);
      LargestRemove(jobs - {j}, first, user, source);
      MaxSwaps(Weight(jobs[first], user, source), Weight(jobs[j], user, source), Largest(rest, user, source));
    }
  }

  lemma LargestPut(jobs: map<nat, Job>, j: nat, job: Job, user: string, source: string)
    ensures Largest(jobs[j := job], user, source) == Max(Weight(job, user, source), Largest(jobs - {j}, user, source))
    ensures j !in jobs ==> jobs - {j} == jobs
  {
    LargestRemove(jobs[j := job], j, user, source);
    assert jobs[j := job] - {j} == jobs - {j};
  }

  /** The most a user's rows can come to hold: the row, or a larger budget of a job on it. */
  ghost function Worst(s: State, user: string): Rows {
    map k | k in Table(s, user) :: Max(Table(s, user)[k], Largest(s.jobs, user, k))
  }

  lemma {:induction false} SumMonotone(a: Rows, b: Rows)
    requires forall k :: k in a ==> k in b && a[k] <= b[k]
    ensures Sum(a) <= Sum(b)
    decreases |a|
  {
    if a == map[] {
    } else {
      var k :| k in a;
      SumRemove(a, k);
      SumRemove(b, k);
      SumMonotone(a - {k}, b - {k});
    }
  }

  predicate Admits(s: State, step: Step, user: string) {
    step.Enqueue? && step.r in s.requests && s.requests[step.r].user == user
  }

  lemma LargestAfter(s: State, step: Step, limit: string -> nat, user: string, source: string)
    requires Enabled(s, step, limit) && !Admits(s, step, user)
    ensures Largest(Next(s, step, limit).jobs, user, source) <= Largest(s.jobs, user, source)
  {
    match step
    case Acquire(j) =>
      LargestPut(s.jobs, j, Running(s.jobs[j].user, s.jobs[j].source, s.jobs[j].max), user, source);
      LargestRemove(s.jobs, j, user, source);
    case Finish(j, _) => LargestRemove(s.jobs, j, user, source);
    case Fail(j) => LargestRemove(s.jobs, j, user, source);
    case Enqueue(r, j) =>
      LargestPut(s.jobs, j, Waiting(s.requests[r].user, s.requests[r].source, s.requests[r].remaining), user, source);
    case _ =>
  }

  /** Without a new admission of the user the worst case never grows. */
  lemma WorstNeverGrows(s: State, step: Step, limit: string -> nat, user: string)
    requires Enabled(s, step, limit) && !Admits(s, step, user)
    ensures Sum(Worst(Next(s, step, limit), user)) <= Sum(Worst(s, user))
  {
    var s' := Next(s, step, limit);
    forall k | k in Worst(s', user) ensures k in Worst(s, user) && Worst(s', user)[k] <= Worst(s, user)[k] {
      LargestAfter(s, step, limit, user, k);
      if step.Finish? { LargestRemove(s.jobs, step.j, user, k); }
    }
    SumMonotone(Worst(s', user), Worst(s, user));
  }

  ghost predicate NoAdmission(run: seq<State>, steps: seq<Step>, user: string) {
    |run| == |steps| + 1 && forall i :: 0 <= i < |steps| ==> !Admits(run[i], steps[i], user)
  }

  lemma {:induction false} RunStaysWithinWorst(run: seq<State>, steps: seq<Step>, limit: string -> nat, user: string, n: nat)
    requires IsRun(run, steps, limit) && NoAdmission(run, steps, user) && n < |run|
    ensures Sum(Worst(run[n], user)) <= Sum(Worst(run[0], user))
  {
    if n == 0 {
    } else {
      RunStaysWithinWorst(run, steps, limit, user, n - 1);
      WorstNeverGrows(run[n - 1], steps[n - 1], limit, user);
    }
  }

  /** How a job is ended so that the worst case stays: with its whole budget if that is at
      least what the row holds, else as a failure. */
  function Ending(s: State, user: string, j: nat): Step
    requires j in s.jobs
  {
    var job := s.jobs[j];
    var rows := Table(s, user);
    if job.user == user && job.source in rows && job.max > 0 && job.max >= rows[job.source] then Finish(j, job.max) else Fail(j)
  }

  lemma EndingKeepsWorst(s: State, user: string, j: nat, limit: string -> nat)
    requires j in s.jobs && s.jobs[j].Running?
    ensures Worst(Next(s, Ending(s, user, j), limit), user) == Worst(s, user)
  {
    var s' := Next(s, Ending(s, user, j), limit);
    assert Table(s', user).Keys == Table(s, user).Keys;
    forall k | k in Table(s, user) ensures Worst(s', user)[k] == Worst(s, user)[k] {
      LargestRemove(s.jobs, j, user, k);
    }
  }

  lemma AcquireKeepsWorst(s: State, user: string, j: nat, limit: string -> nat)
    requires Enabled(s, Acquire(j), limit)
    ensures Worst(Next(s, Acquire(j), limit), user) == Worst(s, user)
  {
    var s' := Next(s, Acquire(j), limit);
    forall k | k in Table(s, user) ensures Worst(s', user)[k] == Worst(s, user)[k] {
      LargestPut(s.jobs, j, Running(s.jobs[j].user, s.jobs[j].source, s.jobs[j].max), user, k);
      LargestRemove(s.jobs, j, user, k);
    }
  }

  lemma Prepend(s: State, step: Step, tail: seq<State>, rest: seq<Step>, limit: string -> nat, user: string)
    returns (run: seq<State>, steps: seq<Step>)
    requires IsRun(tail, rest, limit) && NoAdmission(tail, rest, user)
    requires Enabled(s, step, limit) && tail[0] == Next(s, step, limit) && !Admits(s, step, user)
    ensures IsRun(run, steps, limit) && NoAdmission(run, steps, user) && run[0] == s
    ensures run[|steps|] == tail[|rest|]
  {
    run, steps := [s] + tail, [step] + rest;
  }

  /** Some continuation without admissions reaches the worst case. */
  lemma {:induction false} WorstIsReached(s: State, user: string, limit: string -> nat)
    returns (run: seq<State>, steps: seq<Step>)
    requires s.tokens == |RunningJobs(s.jobs)| <= SLOTS
    ensures IsRun(run, steps, limit) && NoAdmission(run, steps, user) && run[0] == s
    ensures Sum(Table(run[|steps|], user)) == Sum(Worst(s, user))
    decreases |s.jobs|, if RunningJobs(s.jobs) == {} then 1 else 0
  {
    if s.jobs == map[] {
      run, steps := [s], [];
      assert Worst(s, user) == Table(s, user);
    } else if RunningJobs(s.jobs) == {} {
      var j :| j in s.jobs;
      assert s.jobs[j].Waiting? by { assert j !in RunningJobs(s.jobs); }
      AcquireKeepsWorst(s, user, j, limit);
      NextKeepsTokens(s, Acquire(j), limit);
      var s' := Next(s, Acquire(j), limit);
      assert j in RunningJobs(s'.jobs) && s'.jobs.Keys == s.jobs.Keys;
      var tail, rest := WorstIsReached(s', user, limit);
      run, steps := Prepend(s, Acquire(j), tail, rest, limit, user);
    } else {
      var j :| j in RunningJobs(s.jobs);
      var step := Ending(s, user, j);
      EndingKeepsWorst(s, user, j, limit);
      NextKeepsTokens(s, step, limit);
      assert Next(s, step, limit).jobs == s.jobs - {j};
      var tail, rest := WorstIsReached(Next(s, step, limit), user, limit);
      run, steps := Prepend(s, step, tail, rest, limit, user);
    }
  }

  /** Whatever jobs of the user do from here on, the sum stays within the limit. */
  ghost predicate StaysWithin(s: State, user: string, limit: string -> nat) {
    forall run: seq<State>, steps: seq<Step>, n: nat ::
      IsRun(run, steps, limit) && NoAdmission(run, steps, user) && run[0] == s && n < |run| ==>
        Sum(Table(run[n], user)) <= limit(user)
  }

  /** Every continuation without a new admission of the user stays within the limit exactly
      when the rows still fit with every row at the largest budget of a job on it. */
  lemma StaysWithinIff(s: State, user: string, limit: string -> nat)
    requires s.tokens == |RunningJobs(s.jobs)| <= SLOTS
    ensures StaysWithin(s, user, limit) <==> Sum(Worst(s, user)) <= limit(user)
  {
    if Sum(Worst(s, user)) <= limit(user) {
      forall run: seq<State>, steps: seq<Step>, n: nat
        | IsRun(run, steps, limit) && NoAdmission(run, steps, user) && run[0] == s && n < |run|
        ensures Sum(Table(run[n], user)) <= limit(user)
      {
        RunStaysWithinWorst(run, steps, limit, user, n);
        SumMonotone(Table(run[n], user), Worst(run[n], user));
      }
    } else {
      var run, steps := WorstIsReached(s, user, limit);
      assert IsRun(run, steps, limit) && NoAdmission(run, steps, user) && |steps| < |run|;
    }
  }

  /** The sum over a user's rows is not protected against overlap: two requests for
      different sources that both read before either job finishes use the limit twice. */
  lemma OverlapExceedsLimit(user: string, a: string, b: string, limit: string -> nat) returns (run: seq<State>, steps: seq<Step>)
    requires a != b && limit(user) > 0
    ensures IsRun(run, steps, limit) && run[0] == State(map[], map[], map[], 0)
    ensures Sum(Table(run[|run| - 1], user)) == 2 * limit(user)
  {
    var n := limit(user);
    var run1, steps1 := BothAdmitted(user, a, b, limit);
    var run2, steps2 := BothFinish(user, a, b, limit);
    run, steps := run1 + run2[1..], steps1 + steps2;
    forall i | 0 <= i < |steps| ensures Enabled(run[i], steps[i], limit) && run[i + 1] == Next(run[i], steps[i], limit) {
      if i < |steps1| {
        assert run[i] == run1[i] && run[i + 1] == run1[i + 1];
      } else {
        assert run[i] == run2[i - |steps1|] && run[i + 1] == run2[i + 1 - |steps1|];
      }
    }
    SumUpdate(map[], a, n);
    SumUpdate(map[a := n], b, n);
  }

  /** The rows and jobs after both requests were admitted with the whole limit. */
  ghost function TwoJobs(user: string, a: string, b: string, n: nat): State {
    State(map[user := map[a := 0][b := 0]], map[], map[0 := Waiting(user, a, n)][1 := Waiting(user, b, n)], 0)
  }

  lemma Extend(run: seq<State>, steps: seq<Step>, limit: string -> nat, t: Step, s: State)
    returns (run': seq<State>, steps': seq<Step>)
    requires IsRun(run, steps, limit) && Enabled(run[|steps|], t, limit) && s == Next(run[|steps|], t, limit)
    ensures IsRun(run', steps', limit) && run'[0] == run[0] && run'[|steps'|] == s
  {
    run', steps' := run + [s], steps + [t];
  }

  lemma BothRead(user: string, a: string, b: string, limit: string -> nat) returns (run: seq<State>, steps: seq<Step>)
    requires a != b && limit(user) > 0
    ensures IsRun(run, steps, limit) && run[0] == State(map[], map[], map[], 0)
    ensures run[|steps|] ==
            State(map[], map[0 := Budgeted(user, a, 0, limit(user))][1 := Budgeted(user, b, 0, limit(user))], map[], 0)
  {
    var qa, qb := Budgeted(user, a, 0, limit(user)), Budgeted(user, b, 0, limit(user));
    var s0 := State(map[], map[], map[], 0);
    run, steps := Extend([s0], [], limit, Begin(0, user, a), s0.(requests := map[0 := ReadCurrent(user, a, 0)]));
    run, steps := Extend(run, steps, limit, ReadTotal(0), s0.(requests := map[0 := qa]));
    run, steps := Extend(run, steps, limit, Begin(1, user, b), s0.(requests := map[0 := qa][1 := ReadCurrent(user, b, 0)]));
    assert map[0 := qa][1 := ReadCurrent(user, b, 0)][1 := qb] == map[0 := qa][1 := qb];
    run, steps := Extend(run, steps, limit, ReadTotal(1), s0.(requests := map[0 := qa][1 := qb]));
  }

  lemma BothAdmitted(user: string, a: string, b: string, limit: string -> nat) returns (run: seq<State>, steps: seq<Step>)
    requires a != b && limit(user) > 0
    ensures IsRun(run, steps, limit) && run[0] == State(map[], map[], map[], 0)
    ensures run[|steps|] == TwoJobs(user, a, b, limit(user))
  {
    var n := limit(user);
    var qa, qb := Budgeted(user, a, 0, n), Budgeted(user, b, 0, n);
    run, steps := BothRead(user, a, b, limit);
    assert map[0 := qa][1 := qb] - {0} == map[1 := qb];
    var s5 := State(map[user := map[a := 0]], map[1 := qb], map[0 := Waiting(user, a, n)], 0);
    run, steps := Extend(run, steps, limit, Enqueue(0, 0), s5);
    assert s5.requests - {1} == map[];
    run, steps := Extend(run, steps, limit, Enqueue(1, 1), TwoJobs(user, a, b, n));
  }

  lemma BothRunning(user: string, a: string, b: string, limit: string -> nat) returns (run: seq<State>, steps: seq<Step>)
    requires a != b && limit(user) > 0
    ensures IsRun(run, steps, limit) && run[0] == TwoJobs(user, a, b, limit(user))
    ensures var n := limit(user);
            run[|steps|] == State(map[user := map[a := 0][b := 0]], map[],
                                  map[0 := Running(user, a, n)][1 := Running(user, b, n)], 2)
  {
    var n := limit(user);
    var s6 := TwoJobs(user, a, b, n);
    var s7 := s6.(jobs := map[0 := Running(user, a, n)][1 := Waiting(user, b, n)], tokens := 1);
    assert s6.jobs[0 := Running(user, a, n)] == s7.jobs;
    run, steps := Extend([s6], [], limit, Acquire(0), s7);
    var s8 := s7.(jobs := map[0 := Running(user, a, n)][1 := Running(user, b, n)], tokens := 2);
    assert s7.jobs[1 := Running(user, b, n)] == s8.jobs;
    run, steps := Extend(run, steps, limit, Acquire(1), s8);
  }

  lemma BothFinish(user: string, a: string, b: string, limit: string -> nat) returns (run: seq<State>, steps: seq<Step>)
    requires a != b && limit(user) > 0
    ensures IsRun(run, steps, limit) && run[0] == TwoJobs(user, a, b, limit(user))
    ensures Table(run[|steps|], user) == map[a := limit(user)][b := limit(user)]
  {
    var n := limit(user);
    run, steps := BothRunning(user, a, b, limit);
    var s8 := run[|steps|];
    var s9 := State(map[user := map[a := n][b := 0]], map[], map[1 := Running(user, b, n)], 1);
    assert map[a := 0][b := 0][a := n] == map[a := n][b := 0] && s8.jobs - {0} == s9.jobs;
    assert s8.tables[user := map[a := n][b := 0]] == s9.tables;
    run, steps := Extend(run, steps, limit, Finish(0, n), s9);
    var s10 := State(map[user := map[a := n][b := n]], map[], map[], 0);
    assert map[a := n][b := 0][b := n] == map[a := n][b := n] && s9.jobs - {1} == map[];
    assert s9.tables[user := map[a := n][b := n]] == s10.tables;
    run, steps := Extend(run, steps, limit, Finish(1, n), s10);
  }
}
