/** The widget cache when the statements of handlers interleave on a clock. Writers are
    unrestricted: any row change at any moment, deletion included, and any cache
    deletion at any moment, or none at all. */
module CacheRaces {
  import opened Text
  import opened Options
  import opened WidgetCache

  /** Milliseconds: the lifetime of an entry, and of a handler's cache context. */
  const LIFETIME: int := 600000
  const PATIENCE: int := 2000

  /** The age of the oldest entry that can still hit: filled at the end of the patience
      after the row was read, and got in the last millisecond of its lifetime. */
  const OLDEST: int := LIFETIME + PATIENCE - 1

  datatype Stored = Stored(entry: Entry, expires: int)

  /** A request between its statements. `at` is when the row was read, `fixedAt` when
      the reply was determined. */
  datatype Reader =
    | Started(key: string, domain: string, deadline: int)
    | Missed(key: string, domain: string, deadline: int)
    | Filling(key: string, domain: string, deadline: int, entry: Entry, at: int)
    | Ready(key: string, domain: string, reply: Reply, fixedAt: int)

  datatype Response = Response(key: string, domain: string, reply: Reply, fixedAt: int, servedAt: int)

  datatype Moment = Moment(
    rows: seq<Row>, cache: map<string, Stored>, clock: int, readers: map<nat, Reader>, responses: seq<Response>)

  datatype Step =
    | Wait(now: int)
    | Write(rows: seq<Row>)
    | Drop(key: string)
    | Arrive(r: nat, key: string, domain: string)
    | Get(r: nat)
    | GetFails(r: nat)
    | Query(r: nat)
    | Set(r: nat)
    | SetRefused(r: nat)
    | Serve(r: nat)

  predicate Enabled(m: Moment, s: Step) {
    match s
    case Wait(now) => m.clock <= now
    case Write(_) => true
    case Drop(_) => true
    case Arrive(r, key, _) => r !in m.readers && key != ""
    case Get(r) => r in m.readers && m.readers[r].Started?
    case GetFails(r) => r in m.readers && m.readers[r].Started?
    case Query(r) => r in m.readers && m.readers[r].Missed?
    case Set(r) => r in m.readers && m.readers[r].Filling? && m.clock <= m.readers[r].deadline
    case SetRefused(r) => r in m.readers && m.readers[r].Filling?
    case Serve(r) => r in m.readers && m.readers[r].Ready?
  }

  function ReplyFrom(entry: Entry, domain: string): Reply {
    if IsAllowed(entry.allowedDomains, domain) then Served(entry.response) else Denied
  }

  function AfterGet(m: Moment, q: Reader): Reader
    requires q.Started?
  {
    if q.key in m.cache && m.clock < m.cache[q.key].expires then
      Ready(q.key, q.domain, ReplyFrom(m.cache[q.key].entry, q.domain), m.clock)
    else Missed(q.key, q.domain, q.deadline)
  }

  function AfterQuery(setup: Setup, m: Moment, q: Reader): Reader
    requires q.Missed?
  {
    var reply := UncachedAt(setup, m.rows, q.key, q.domain);
    if reply.Served? then
      Filling(q.key, q.domain, q.deadline, EntryOf(setup, FindKey(m.rows, q.key).value), m.clock)
    else Ready(q.key, q.domain, reply, m.clock)
  }

  function Next(setup: Setup, m: Moment, s: Step): Moment
    requires Enabled(m, s)
  {
    match s
    case Wait(now) => m.(clock := now)
    case Write(rows) => m.(rows := rows)
    case Drop(key) => m.(cache := m.cache - {key})
    case Arrive(r, key, domain) => m.(readers := m.readers[r := Started(key, domain, m.clock + PATIENCE)])
    case Get(r) => m.(readers := m.readers[r := AfterGet(m, m.readers[r])])
    case GetFails(r) =>
      m.(readers := m.readers[r := Missed(m.readers[r].key, m.readers[r].domain, m.readers[r].deadline)])
    case Query(r) => m.(readers := m.readers[r := AfterQuery(setup, m, m.readers[r])])
    case Set(r) =>
      var q := m.readers[r];
      m.(cache := m.cache[q.key := Stored(q.entry, m.clock + LIFETIME)],
         readers := m.readers[r := Ready(q.key, q.domain, ReplyFrom(q.entry, q.domain), q.at)])
    case SetRefused(r) =>
      var q := m.readers[r];
      m.(readers := m.readers[r := Ready(q.key, q.domain, ReplyFrom(q.entry, q.domain), q.at)])
    case Serve(r) =>
      var q := m.readers[r];
      m.(readers := m.readers - {r}, responses := m.responses + [Response(q.key, q.domain, q.reply, q.fixedAt, m.clock)])
  }

  ghost predicate IsRun(setup: Setup, run: seq<Moment>, steps: seq<Step>) {
    && |run| == |steps| + 1
    && forall k :: 0 <= k < |steps| ==> Enabled(run[k], steps[k]) && run[k + 1] == Next(setup, run[k], steps[k])
  }

  /** Nothing cached, nobody reading. */
  ghost predicate Empty(m: Moment) {
    m.cache == map[] && m.readers == map[] && m.responses == []
  }

  // ---- what the past justifies ------------------------------------------

  /** An entry the uncached path would build from these rows. */
  ghost predicate Builds(setup: Setup, rows: seq<Row>, key: string, entry: Entry) {
    && key != "" && FindKey(rows, key).Some? && FindKey(rows, key).value.active
    && entry == EntryOf(setup, FindKey(rows, key).value)
    && (setup.production ==> entry.allowedDomains != [])
  }

  /** The entry was right at some moment of the run, not before `since`. */
  ghost predicate Built(setup: Setup, run: seq<Moment>, n: nat, key: string, entry: Entry, since: int)
    requires n < |run|
  {
    exists k :: 0 <= k <= n && since <= run[k].clock && Builds(setup, run[k].rows, key, entry)
  }

  /** The reply was right at some moment of the run in a time window. */
  ghost predicate Was(setup: Setup, run: seq<Moment>, n: nat, key: string, domain: string, reply: Reply, since: int, until: int)
    requires n < |run|
  {
    exists k :: 0 <= k <= n && since <= run[k].clock <= until && UncachedAt(setup, run[k].rows, key, domain) == reply
  }

  ghost predicate ReaderOk(setup: Setup, run: seq<Moment>, n: nat, q: Reader)
    requires n < |run|
  {
    match q
    case Started(key, _, deadline) => deadline - PATIENCE <= run[n].clock
    case Missed(key, _, deadline) => deadline - PATIENCE <= run[n].clock
    case Filling(key, domain, deadline, entry, at) =>
      && deadline - PATIENCE <= at <= run[n].clock
      && Built(setup, run, n, key, entry, at)
      && Was(setup, run, n, key, domain, ReplyFrom(entry, domain), at, at)
    case Ready(key, domain, reply, fixedAt) =>
      fixedAt <= run[n].clock && Was(setup, run, n, key, domain, reply, fixedAt - OLDEST, fixedAt)
  }

  ghost predicate ReadersOk(setup: Setup, run: seq<Moment>, n: nat)
    requires n < |run|
  {
    var m := run[n];
    forall r :: r in m.readers ==> ReaderOk(setup, run, n, m.readers[r])
  }

  ghost predicate CacheOk(setup: Setup, run: seq<Moment>, n: nat)
    requires n < |run|
  {
    var m := run[n];
    forall k :: k in m.cache ==> Built(setup, run, n, k, m.cache[k].entry, m.cache[k].expires - LIFETIME - PATIENCE)
  }

  ghost predicate ResponseOk(setup: Setup, run: seq<Moment>, n: nat, a: Response)
    requires n < |run|
  {
    a.fixedAt <= a.servedAt && Was(setup, run, n, a.key, a.domain, a.reply, a.fixedAt - OLDEST, a.fixedAt)
  }

  ghost predicate ResponsesOk(setup: Setup, run: seq<Moment>, n: nat)
    requires n < |run|
  {
    forall a :: a in run[n].responses ==> ResponseOk(setup, run, n, a)
  }

  ghost predicate Inv(setup: Setup, run: seq<Moment>, n: nat)
    requires n < |run|
  {
    CacheOk(setup, run, n) && ReadersOk(setup, run, n) && ResponsesOk(setup, run, n)
  }

  lemma BuiltStays(setup: Setup, run: seq<Moment>, n: nat, key: string, entry: Entry, since: int)
    requires n + 1 < |run| && Built(setup, run, n, key, entry, since)
    ensures Built(setup, run, n + 1, key, entry, since)
  {
    var k :| 0 <= k <= n && since <= run[k].clock && Builds(setup, run[k].rows, key, entry);
    assert 0 <= k <= n + 1;
  }

  lemma WasStays(setup: Setup, run: seq<Moment>, n: nat, key: string, domain: string, reply: Reply, since: int, until: int)
    requires n + 1 < |run| && Was(setup, run, n, key, domain, reply, since, until)
    ensures Was(setup, run, n + 1, key, domain, reply, since, until)
  {
    var k :| 0 <= k <= n && since <= run[k].clock <= until && UncachedAt(setup, run[k].rows, key, domain) == reply;
    assert 0 <= k <= n + 1;
  }

  lemma {:induction false} ClockMonotone(setup: Setup, run: seq<Moment>, steps: seq<Step>, k: nat, n: nat)
    requires IsRun(setup, run, steps) && k <= n < |run|
    ensures run[k].clock <= run[n].clock
    decreases n
  {
    if k == n {
    } else {
      ClockMonotone(setup, run, steps, k, n - 1);
    }
  }

  /** What an entry says now is what the row said when the entry was right. */
  lemma EntryReplies(setup: Setup, rows: seq<Row>, key: string, domain: string, entry: Entry)
    requires Builds(setup, rows, key, entry)
    ensures UncachedAt(setup, rows, key, domain) == ReplyFrom(entry, domain)
  {
  }

  lemma ReaderStays(setup: Setup, run: seq<Moment>, n: nat, q: Reader)
    requires n + 1 < |run| && run[n].clock <= run[n + 1].clock && ReaderOk(setup, run, n, q)
    ensures ReaderOk(setup, run, n + 1, q)
  {
    match q
    case Filling(key, domain, deadline, entry, at) =>
      BuiltStays(setup, run, n, key, entry, at);
      WasStays(setup, run, n, key, domain, ReplyFrom(entry, domain), at, at);
    case Ready(key, domain, reply, fixedAt) =>
      WasStays(setup, run, n, key, domain, reply, fixedAt - OLDEST, fixedAt);
    case _ =>
  }

  /** A hit: the entry was right no earlier than its lifetime and one handler's patience ago. */
  lemma GetKeepsReader(setup: Setup, run: seq<Moment>, steps: seq<Step>, n: nat, r: nat)
    requires IsRun(setup, run, steps) && n < |steps| && steps[n] == Get(r) && Inv(setup, run, n)
    ensures ReaderOk(setup, run, n + 1, run[n + 1].readers[r])
  {
    var q := run[n].readers[r];
    assert ReaderOk(setup, run, n, q);
    if q.key in run[n].cache && run[n].clock < run[n].cache[q.key].expires {
      var entry, since := run[n].cache[q.key].entry, run[n].cache[q.key].expires - LIFETIME - PATIENCE;
      var k :| 0 <= k <= n && since <= run[k].clock && Builds(setup, run[k].rows, q.key, entry);
      ClockMonotone(setup, run, steps, k, n);
      EntryReplies(setup, run[k].rows, q.key, q.domain, entry);
      assert 0 <= k <= n + 1;
    }
  }

  lemma QueryKeepsReader(setup: Setup, run: seq<Moment>, steps: seq<Step>, n: nat, r: nat)
    requires IsRun(setup, run, steps) && n < |steps| && steps[n] == Query(r) && Inv(setup, run, n)
    ensures ReaderOk(setup, run, n + 1, run[n + 1].readers[r])
  {
    var q, q' := run[n].readers[r], run[n + 1].readers[r];
    assert ReaderOk(setup, run, n, q) && 0 <= n <= n + 1;
    if q'.Filling? {
      assert Builds(setup, run[n].rows, q.key, q'.entry);
      EntryReplies(setup, run[n].rows, q.key, q.domain, q'.entry);
    }
  }

  /** A fill: the context was still open, so the row was read at most its patience ago. */
  lemma SetKeepsInv(setup: Setup, run: seq<Moment>, steps: seq<Step>, n: nat, r: nat)
    requires IsRun(setup, run, steps) && n < |steps| && Inv(setup, run, n)
    requires steps[n] == Set(r) || steps[n] == SetRefused(r)
    ensures ReaderOk(setup, run, n + 1, run[n + 1].readers[r])
    ensures steps[n] == Set(r) ==>
              var key := run[n].readers[r].key;
              Built(setup, run, n + 1, key, run[n + 1].cache[key].entry, run[n + 1].cache[key].expires - LIFETIME - PATIENCE)
  {
    var q := run[n].readers[r];
    assert ReaderOk(setup, run, n, q);
    BuiltStays(setup, run, n, q.key, q.entry, q.at);
    WasStays(setup, run, n, q.key, q.domain, ReplyFrom(q.entry, q.domain), q.at, q.at);
    var k :| 0 <= k <= n + 1 && q.at <= run[k].clock && Builds(setup, run[k].rows, q.key, q.entry);
    var j :| 0 <= j <= n + 1 && q.at <= run[j].clock <= q.at &&
             UncachedAt(setup, run[j].rows, q.key, q.domain) == ReplyFrom(q.entry, q.domain);
  }

  lemma NextKeepsReaders(setup: Setup, run: seq<Moment>, steps: seq<Step>, n: nat)
    requires IsRun(setup, run, steps) && n < |steps| && Inv(setup, run, n)
    ensures ReadersOk(setup, run, n + 1)
  {
    ClockMonotone(setup, run, steps, n, n + 1);
    var m := run[n + 1];
    forall r | r in m.readers ensures ReaderOk(setup, run, n + 1, m.readers[r]) {
      match steps[n]
      case Get(r0) => if r == r0 { GetKeepsReader(setup, run, steps, n, r); } else { ReaderStays(setup, run, n, run[n].readers[r]); }
      case Query(r0) => if r == r0 { QueryKeepsReader(setup, run, steps, n, r); } else { ReaderStays(setup, run, n, run[n].readers[r]); }
      case Set(r0) => if r == r0 { SetKeepsInv(setup, run, steps, n, r); } else { ReaderStays(setup, run, n, run[n].readers[r]); }
      case SetRefused(r0) => if r == r0 { SetKeepsInv(setup, run, steps, n, r); } else { ReaderStays(setup, run, n, run[n].readers[r]); }
      case Arrive(r0, _, _) => if r != r0 { ReaderStays(setup, run, n, run[n].readers[r]); }
      case _ => ReaderStays(setup, run, n, run[n].readers[r]);
    }
  }

  lemma NextKeepsCache(setup: Setup, run: seq<Moment>, steps: seq<Step>, n: nat)
    requires IsRun(setup, run, steps) && n < |steps| && Inv(setup, run, n)
    ensures CacheOk(setup, run, n + 1)
  {
    var m := run[n + 1];
    forall k | k in m.cache
      ensures Built(setup, run, n + 1, k, m.cache[k].entry, m.cache[k].expires - LIFETIME - PATIENCE)
    {
      if steps[n].Set? && run[n].readers[steps[n].r].key == k {
        SetKeepsInv(setup, run, steps, n, steps[n].r);
      } else {
        BuiltStays(setup, run, n, k, run[n].cache[k].entry, run[n].cache[k].expires - LIFETIME - PATIENCE);
      }
    }
  }

  lemma NextKeepsResponses(setup: Setup, run: seq<Moment>, steps: seq<Step>, n: nat)
    requires IsRun(setup, run, steps) && n < |steps| && Inv(setup, run, n)
    ensures ResponsesOk(setup, run, n + 1)
  {
    var m := run[n + 1];
    forall a | a in m.responses ensures ResponseOk(setup, run, n + 1, a) {
      if a !in run[n].responses {
        assert ReaderOk(setup, run, n, run[n].readers[steps[n].r]);
      } else {
        assert ResponseOk(setup, run, n, a);
      }
      WasStays(setup, run, n, a.key, a.domain, a.reply, a.fixedAt - OLDEST, a.fixedAt);
    }
  }

  lemma {:induction false} RunKeepsInv(setup: Setup, run: seq<Moment>, steps: seq<Step>, n: nat)
    requires IsRun(setup, run, steps) && n < |run|
    requires Empty(run[0])
    ensures Inv(setup, run, n)
  {
    if n == 0 {
    } else {
      RunKeepsInv(setup, run, steps, n - 1);
      NextKeepsReaders(setup, run, steps, n - 1);
      NextKeepsCache(setup, run, steps, n - 1);
      NextKeepsResponses(setup, run, steps, n - 1);
    }
  }

  /** Bounded staleness, under every interleaving and for every behaviour of the writers:
      a served reply is what the uncached handler would have replied at some moment less
      than ten minutes and two seconds before the reply was determined; hence of the time
      before it was served, longer by the stall between the two. */
  lemma BoundedStaleness(setup: Setup, run: seq<Moment>, steps: seq<Step>, n: nat, i: nat, stall: int)
    requires IsRun(setup, run, steps) && n < |run| && i < |run[n].responses|
    requires Empty(run[0])
    requires run[n].responses[i].servedAt - run[n].responses[i].fixedAt <= stall
    ensures var a := run[n].responses[i];
            && Was(setup, run, n, a.key, a.domain, a.reply, a.fixedAt - OLDEST, a.fixedAt)
            && Was(setup, run, n, a.key, a.domain, a.reply, a.servedAt - stall - OLDEST, a.servedAt)
  {
    RunKeepsInv(setup, run, steps, n);
    var a := run[n].responses[i];
    assert ResponseOk(setup, run, n, a);
    var k :| 0 <= k <= n && a.fixedAt - OLDEST <= run[k].clock <= a.fixedAt &&
             UncachedAt(setup, run[k].rows, a.key, a.domain) == a.reply;
  }

  // ---- where an entry comes from ----------------------------------------

  /** A step that replaces or removes the entry of a key. */
  predicate Touches(m: Moment, s: Step, key: string) {
    (s.Drop? && s.key == key) || (s.Set? && s.r in m.readers && m.readers[s.r].key == key)
  }

  /** The reader r, still to fill, read its entry from the row at step q. */
  ghost predicate ReadAtStep(setup: Setup, run: seq<Moment>, steps: seq<Step>, n: nat, r: nat, q: nat) {
    && q < n < |run| == |steps| + 1 && r in run[n].readers && run[n].readers[r].Filling?
    && steps[q] == Query(r) && Builds(setup, run[q].rows, run[n].readers[r].key, run[n].readers[r].entry)
  }

  lemma {:induction false} ReaderOrigin(setup: Setup, run: seq<Moment>, steps: seq<Step>, n: nat, r: nat) returns (q: nat)
    requires IsRun(setup, run, steps) && Empty(run[0]) && n < |run|
    requires r in run[n].readers && run[n].readers[r].Filling?
    ensures ReadAtStep(setup, run, steps, n, r, q)
  {
    q := 0;
    if n == 0 {
    } else if steps[n - 1] == Query(r) {
      q := n - 1;
    } else {
      q := ReaderOrigin(setup, run, steps, n - 1, r);
    }
  }

  /** The entry of a key was read at step q, set at step s, and not touched since. */
  ghost predicate FilledBy(setup: Setup, run: seq<Moment>, steps: seq<Step>, n: nat, key: string, q: nat, s: nat) {
    && s < n < |run| == |steps| + 1 && key in run[n].cache && steps[s].Set?
    && ReadAtStep(setup, run, steps, s, steps[s].r, q)
    && run[s].readers[steps[s].r].key == key && run[s].readers[steps[s].r].entry == run[n].cache[key].entry
    && forall t :: s < t < n ==> !Touches(run[t], steps[t], key)
  }

  lemma {:induction false} EntryOrigin(setup: Setup, run: seq<Moment>, steps: seq<Step>, n: nat, key: string)
    returns (q: nat, s: nat)
    requires IsRun(setup, run, steps) && Empty(run[0]) && n < |run| && key in run[n].cache
    ensures FilledBy(setup, run, steps, n, key, q, s)
  {
    q, s := 0, 0;
    if n == 0 {
    } else if steps[n - 1].Set? && run[n - 1].readers[steps[n - 1].r].key == key {
      s := n - 1;
      q := ReaderOrigin(setup, run, steps, s, steps[s].r);
    } else {
      q, s := EntryOrigin(setup, run, steps, n - 1, key);
    }
  }

  lemma {:induction false} RowsStay(setup: Setup, run: seq<Moment>, steps: seq<Step>, m: nat, n: nat)
    requires IsRun(setup, run, steps) && m <= n < |run| && forall t :: m <= t < n ==> !steps[t].Write?
    ensures run[n].rows == run[m].rows
  {
    if m == n {
    } else {
      RowsStay(setup, run, steps, m, n - 1);
    }
  }

  /** The write at step w changed what an entry of the key says. */
  ghost predicate MakesNews(setup: Setup, run: seq<Moment>, w: nat, key: string)
    requires w + 1 < |run|
  {
    forall k, entry :: 0 <= k <= w && Builds(setup, run[k].rows, key, entry) ==> !Builds(setup, run[w + 1].rows, key, entry)
  }

  /** After a write and the deletion of the key that follows it, the entry is not right
      exactly when it was read before the write and set after the deletion. */
  lemma StaleEntryIff(setup: Setup, run: seq<Moment>, steps: seq<Step>, n: nat, key: string, w: nat, d: nat)
    requires IsRun(setup, run, steps) && Empty(run[0]) && w < d < n < |run|
    requires steps[w].Write? && steps[d] == Drop(key) && (forall t :: w < t < n ==> !steps[t].Write?)
    requires MakesNews(setup, run, w, key)
    ensures key in run[n].cache && !Builds(setup, run[n].rows, key, run[n].cache[key].entry) <==>
            exists q: nat, s: nat :: FilledBy(setup, run, steps, n, key, q, s) && q < w && d < s
  {
    RowsStay(setup, run, steps, w + 1, n);
    if key in run[n].cache && !Builds(setup, run[n].rows, key, run[n].cache[key].entry) {
      var q, s := EntryOrigin(setup, run, steps, n, key);
      assert Touches(run[d], steps[d], key);
      if w < q { RowsStay(setup, run, steps, q, n); }
      assert FilledBy(setup, run, steps, n, key, q, s) && q < w && d < s;
    }
  }

  // ---- what interleaving breaks -----------------------------------------

  lemma Extend(setup: Setup, run: seq<Moment>, steps: seq<Step>, s: Step)
    requires IsRun(setup, run, steps) && Enabled(run[|steps|], s)
    ensures IsRun(setup, run + [Next(setup, run[|steps|], s)], steps + [s])
  {
  }

  /** A request has read the row; then the row changes, and the writer drops the key. */
  lemma ReadBeforeWrite(setup: Setup, row: Row, changed: seq<Row>, domain: string) returns (run: seq<Moment>, steps: seq<Step>)
    requires row.key != "" && UncachedAt(setup, [row], row.key, domain).Served?
    ensures IsRun(setup, run, steps) && run[0] == Moment([row], map[], 0, map[], [])
    ensures run[|steps|] == Moment(changed, map[], 0,
                                   map[0 := Filling(row.key, domain, PATIENCE, EntryOf(setup, row), 0)], [])
  {
    var k := row.key;
    var m0 := Moment([row], map[], 0, map[], []);
    var m1 := Next(setup, m0, Arrive(0, k, domain));
    var m2 := Next(setup, m1, Get(0));
    var m3 := Next(setup, m2, Query(0));
    var m4 := Next(setup, m3, Write(changed));
    var m5 := Next(setup, m4, Drop(k));
    Extend(setup, [m0], [], Arrive(0, k, domain));
    Extend(setup, [m0] + [m1], [] + [Arrive(0, k, domain)], Get(0));
    assert m2.readers == map[0 := Missed(k, domain, PATIENCE)];
    run, steps := [m0] + [m1] + [m2], [] + [Arrive(0, k, domain)] + [Get(0)];
    Extend(setup, run, steps, Query(0));
    assert m3.readers == map[0 := Filling(k, domain, PATIENCE, EntryOf(setup, row), 0)];
    run, steps := run + [m3], steps + [Query(0)];
    Extend(setup, run, steps, Write(changed));
    run, steps := run + [m4], steps + [Write(changed)];
    Extend(setup, run, steps, Drop(k));
    run, steps := run + [m5], steps + [Drop(k)];
    assert m5.cache == map[];
  }

  /** Coherence does not survive interleaving: a fill that lands after the writer's
      deletion leaves an entry for a row that no longer reads so. */
  lemma LateFillIsStale(setup: Setup, row: Row, changed: seq<Row>, domain: string) returns (run: seq<Moment>, steps: seq<Step>)
    requires row.key != "" && UncachedAt(setup, [row], row.key, domain).Served?
    requires !Builds(setup, changed, row.key, EntryOf(setup, row))
    ensures IsRun(setup, run, steps) && run[0] == Moment([row], map[], 0, map[], [])
    ensures var last := run[|steps|];
            row.key in last.cache && !Builds(setup, last.rows, row.key, last.cache[row.key].entry)
  {
    run, steps := ReadBeforeWrite(setup, row, changed, domain);
    Extend(setup, run, steps, Set(0));
    run, steps := run + [Next(setup, run[|steps|], Set(0))], steps + [Set(0)];
  }

  /** The bound cannot be counted from the moment of serving: a handler that stalls after
      reading the row serves a reply that was right at no moment after the start. */
  lemma StalledHandlerIsOlder(setup: Setup, row: Row, changed: seq<Row>, domain: string, delay: int)
    returns (run: seq<Moment>, steps: seq<Step>)
    requires row.key != "" && UncachedAt(setup, [row], row.key, domain).Served?
    requires UncachedAt(setup, changed, row.key, domain) != UncachedAt(setup, [row], row.key, domain)
    requires delay > 0
    ensures IsRun(setup, run, steps) && run[0] == Moment([row], map[], 0, map[], [])
    ensures var last := run[|steps|];
            && |last.responses| == 1 && last.responses[0].servedAt == delay
            && !Was(setup, run, |steps|, row.key, domain, last.responses[0].reply, 1, delay)
  {
    var before, steps0 := ReadBeforeWrite(setup, row, changed, domain);
    RunStartsAtZero(setup, before, steps0);
    run, steps := before, steps0;
    Extend(setup, run, steps, SetRefused(0));
    var a := Next(setup, run[|steps|], SetRefused(0));
    run, steps := run + [a], steps + [SetRefused(0)];
    Extend(setup, run, steps, Wait(delay));
    var b := Next(setup, a, Wait(delay));
    run, steps := run + [b], steps + [Wait(delay)];
    Extend(setup, run, steps, Serve(0));
    var c := Next(setup, b, Serve(0));
    run, steps := run + [c], steps + [Serve(0)];
    EntryReplies(setup, [row], row.key, domain, EntryOf(setup, row));
    assert forall k :: 0 <= k < |before| ==> run[k] == before[k];
  }

  lemma RunStartsAtZero(setup: Setup, run: seq<Moment>, steps: seq<Step>)
    requires IsRun(setup, run, steps)
    ensures forall k :: 0 <= k < |run| ==> run[k].clock <= run[|steps|].clock
  {
    forall k | 0 <= k < |run| ensures run[k].clock <= run[|steps|].clock {
      ClockMonotone(setup, run, steps, k, |steps|);
    }
  }

  // ---- the bound is exact -----------------------------------------------

  /** Every moment after the start shows the changed rows. */
  ghost predicate ChangedSince(run: seq<Moment>, changed: seq<Row>) {
    forall k :: 0 <= k < |run| && run[k].clock > 0 ==> run[k].rows == changed
  }

  lemma Go(setup: Setup, run: seq<Moment>, steps: seq<Step>, s: Step, m: Moment, changed: seq<Row>)
    returns (run': seq<Moment>, steps': seq<Step>)
    requires IsRun(setup, run, steps) && Enabled(run[|steps|], s) && m == Next(setup, run[|steps|], s)
    requires ChangedSince(run, changed) && m.rows == changed
    ensures IsRun(setup, run', steps') && run'[0] == run[0] && run'[|steps'|] == m && ChangedSince(run', changed)
  {
    run', steps' := run + [m], steps + [s];
  }

  /** A request reads the row just before it changes and fills the cache at the end of its patience. */
  lemma LastMomentFill(setup: Setup, row: Row, changed: seq<Row>, domain: string) returns (run: seq<Moment>, steps: seq<Step>)
    requires row.key != "" && UncachedAt(setup, [row], row.key, domain).Served?
    ensures IsRun(setup, run, steps) && run[0] == Moment([row], map[], 0, map[], []) && ChangedSince(run, changed)
    ensures var last := run[|steps|];
            && last.rows == changed && last.clock == PATIENCE && last.responses == [] && 1 !in last.readers
            && last.cache == map[row.key := Stored(EntryOf(setup, row), PATIENCE + LIFETIME)]
  {
    run, steps := ReadBeforeWrite(setup, row, changed, domain);
    RunStartsAtZero(setup, run, steps);
    var m := run[|steps|].(clock := PATIENCE);
    run, steps := Go(setup, run, steps, Wait(PATIENCE), m, changed);
    run, steps := Go(setup, run, steps, Set(0), Next(setup, m, Set(0)), changed);
  }

  /** The oldest hit: the next request gets the entry in the last millisecond of its
      lifetime, and is served after a stall. */
  lemma OldestHit(setup: Setup, row: Row, changed: seq<Row>, domain: string, stall: nat)
    returns (run: seq<Moment>, steps: seq<Step>)
    requires row.key != "" && UncachedAt(setup, [row], row.key, domain).Served?
    ensures IsRun(setup, run, steps) && run[0] == Moment([row], map[], 0, map[], []) && ChangedSince(run, changed)
    ensures run[|steps|].responses ==
            [Response(row.key, domain, UncachedAt(setup, [row], row.key, domain), OLDEST, OLDEST + stall)]
  {
    run, steps := LastMomentFill(setup, row, changed, domain);
    var reply := ReplyFrom(EntryOf(setup, row), domain);
    var m := run[|steps|].(clock := OLDEST);
    run, steps := Go(setup, run, steps, Wait(OLDEST), m, changed);
    var arrived := m.(readers := m.readers[1 := Started(row.key, domain, OLDEST + PATIENCE)]);
    run, steps := Go(setup, run, steps, Arrive(1, row.key, domain), arrived, changed);
    var got := Next(setup, arrived, Get(1));
    assert got.readers[1] == Ready(row.key, domain, reply, OLDEST);
    run, steps := Go(setup, run, steps, Get(1), got, changed);
    var waited := got.(clock := OLDEST + stall);
    run, steps := Go(setup, run, steps, Wait(OLDEST + stall), waited, changed);
    run, steps := Go(setup, run, steps, Serve(1), Next(setup, waited, Serve(1)), changed);
    EntryReplies(setup, [row], row.key, domain, EntryOf(setup, row));
  }

  /** Replies served within a stall after they were determined are right at some moment of
      a window before they are served, in every run. */
  ghost predicate StaleAtMost(setup: Setup, stall: nat, window: int) {
    forall run: seq<Moment>, steps: seq<Step>, n: nat, i: nat ::
      IsRun(setup, run, steps) && Empty(run[0]) && n < |run| && i < |run[n].responses| &&
      run[n].responses[i].servedAt - run[n].responses[i].fixedAt <= stall ==>
        var a := run[n].responses[i];
        Was(setup, run, n, a.key, a.domain, a.reply, a.servedAt - window, a.servedAt)
  }

  /** The bound counted from serving, exactly: it holds for the windows that leave the stall
      on top of 601999 milliseconds, and for no others, as long as there is a widget that
      is served before a change and differently after it. So ten minutes and two seconds
      hold for a stall of at most a millisecond. */
  lemma StalenessIff(setup: Setup, row: Row, changed: seq<Row>, domain: string, stall: nat, window: int)
    requires row.key != "" && UncachedAt(setup, [row], row.key, domain).Served?
    requires UncachedAt(setup, changed, row.key, domain) != UncachedAt(setup, [row], row.key, domain)
    ensures StaleAtMost(setup, stall, window) <==> window >= 601999 + stall
  {
    if window >= 601999 + stall {
      forall run: seq<Moment>, steps: seq<Step>, n: nat, i: nat |
        IsRun(setup, run, steps) && Empty(run[0]) && n < |run| && i < |run[n].responses| &&
        run[n].responses[i].servedAt - run[n].responses[i].fixedAt <= stall
        ensures var a := run[n].responses[i];
                Was(setup, run, n, a.key, a.domain, a.reply, a.servedAt - window, a.servedAt)
      {
        BoundedStaleness(setup, run, steps, n, i, stall);
        var a := run[n].responses[i];
        var k :| 0 <= k <= n && a.servedAt - stall - OLDEST <= run[k].clock <= a.servedAt &&
                 UncachedAt(setup, run[k].rows, a.key, a.domain) == a.reply;
      }
    } else {
      var run, steps := OldestHit(setup, row, changed, domain, stall);
      var n := |steps|;
      var a := run[n].responses[0];
      assert !Was(setup, run, n, a.key, a.domain, a.reply, a.servedAt - window, a.servedAt);
      assert IsRun(setup, run, steps) && Empty(run[0]) && n < |run| && 0 < |run[n].responses|;
    }
  }
}
