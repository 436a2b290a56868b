/** The vector index when the requests of concurrent handlers interleave: scrape jobs,
    removed sources, removed namespaces, documents. A request is sent, arrives at the
    index some time later or never, and is answered; an error may be answered although
    the request has arrived, or is still to arrive. */
module IndexRaces {
  import opened Options
  import opened Text
  import opened Crawl
  import opened Ingest
  import opened Refresh

  datatype Request =
    | DropSource(ns: string, sourceType: SourceType, key: string)
    | DropUrl(ns: string, url: string)
    | DropAll(ns: string)
    | Save(ns: string, batch: seq<(VectorId, Meta)>)

  function Applied(index: Index, r: Request): Index {
    index[r.ns := match r
                  case DropSource(ns, sourceType, key) => WithoutSource(In(index, ns), sourceType, key)
                  case DropUrl(ns, url) => WithoutUrl(In(index, ns), url)
                  case DropAll(_) => map[]
                  case Save(ns, batch) => Put(In(index, ns), batch)]
  }

  /** What a handler wants of the index. */
  datatype Task =
    | Scrape(ns: string, key: string, batch: seq<(VectorId, Meta)>)
    | Remove(ns: string, key: string)
    | RemoveAll(ns: string)
    | AddDocument(ns: string, batch: seq<(VectorId, Meta)>)
    | RemoveDocument(ns: string, key: string)

  /** The requests of a task, in order; an empty batch is not sent. */
  function Plan(task: Task): seq<Request> {
    match task
    case Scrape(ns, key, batch) =>
      [DropSource(ns, Website, key), DropUrl(ns, key)] + if batch == [] then [] else [Save(ns, batch)]
    case Remove(ns, key) => [DropSource(ns, Website, key), DropUrl(ns, key)]
    case RemoveAll(ns) => [DropAll(ns)]
    case AddDocument(ns, batch) => if batch == [] then [] else [Save(ns, batch)]
    case RemoveDocument(ns, key) => [DropSource(ns, Document, key), DropUrl(ns, "doc:" + key)]
  }

  /** Every vector of a document batch says so in its id and its metadata. */
  ghost predicate OfDocuments(batch: seq<(VectorId, Meta)>) {
    forall i :: 0 <= i < |batch| ==>
      && batch[i].0.Stable? && batch[i].0.sourceType == batch[i].1.sourceType == Document
      && batch[i].0.sourceKey == batch[i].1.sourceKey
  }

  ghost predicate TaskOk(task: Task) {
    && (task.Scrape? ==> DistinctIds(task.batch) && AllKeyed(task.batch, task.key))
    && (task.AddDocument? ==> DistinctIds(task.batch) && OfDocuments(task.batch))
  }

  /** A handler: its task, the numbers of the requests it has sent, whether it waits for
      the answer to the last one, and whether it has given up. */
  datatype Client = Client(task: Task, ids: seq<nat>, waiting: bool, failed: bool)

  /** `sent` lists all requests ever sent, `owner` who sent them, `log` those that have
      arrived, in order, and `lost` those that never will. */
  datatype World = World(
    index: Index, sent: seq<Request>, owner: seq<nat>, log: seq<nat>, lost: set<nat>, clients: map<nat, Client>)

  datatype Step =
    | Start(c: nat, task: Task)
    | Send(c: nat)
    | Arrive(id: nat)
    | Lose(id: nat)
    | Reply(c: nat, ok: bool)

  predicate OnTheWire(w: World, id: nat) {
    id < |w.sent| && id !in w.log && id !in w.lost
  }

  ghost predicate Enabled(w: World, s: Step) {
    match s
    case Start(c, task) => c !in w.clients && TaskOk(task)
    case Send(c) =>
      c in w.clients && !w.clients[c].waiting && !w.clients[c].failed && |w.clients[c].ids| < |Plan(w.clients[c].task)|
    case Arrive(id) => OnTheWire(w, id)
    case Lose(id) => OnTheWire(w, id)
    case Reply(c, ok) =>
      c in w.clients && w.clients[c].waiting && w.clients[c].ids != [] && (ok ==> w.clients[c].ids[|w.clients[c].ids| - 1] in w.log)
  }

  /** A handler gives up on an error, unless it answers a delete by URL. */
  function Answered(q: Client, ok: bool): Client {
    var k := |q.ids| - 1;
    var tolerated := 0 <= k < |Plan(q.task)| && Plan(q.task)[k].DropUrl?;
    q.(waiting := false, failed := !ok && !tolerated)
  }

  ghost function Next(w: World, s: Step): World
    requires Enabled(w, s) && forall i :: 0 <= i < |w.log| ==> w.log[i] < |w.sent|
  {
    match s
    case Start(c, task) => w.(clients := w.clients[c := Client(task, [], false, false)])
    case Send(c) =>
      var q := w.clients[c];
      w.(sent := w.sent + [Plan(q.task)[|q.ids|]], owner := w.owner + [c],
         clients := w.clients[c := q.(ids := q.ids + [|w.sent|], waiting := true)])
    case Arrive(id) => w.(index := Applied(w.index, w.sent[id]), log := w.log + [id])
    case Lose(id) => w.(lost := w.lost + {id})
    case Reply(c, ok) => w.(clients := w.clients[c := Answered(w.clients[c], ok)])
  }

  predicate Done(q: Client) {
    |q.ids| == |Plan(q.task)| && !q.waiting && !q.failed
  }

  // ---- the invariant ----------------------------------------------------

  ghost predicate LogOk(w: World) {
    && |w.owner| == |w.sent|
    && (forall i :: 0 <= i < |w.log| ==> w.log[i] < |w.sent|)
    && (forall i, j :: 0 <= i < j < |w.log| ==> w.log[i] != w.log[j])
  }

  /** The requests of a client are those of its plan. */
  ghost predicate Follows(w: World, c: nat, q: Client) {
    && TaskOk(q.task) && |q.ids| <= |Plan(q.task)| && |w.owner| == |w.sent|
    && forall k :: 0 <= k < |q.ids| ==>
         q.ids[k] < |w.sent| && w.sent[q.ids[k]] == Plan(q.task)[k] && w.owner[q.ids[k]] == c
  }

  /** Whether the client has the answer to its k-th request and goes on. */
  predicate Past(q: Client, k: nat) {
    k < |q.ids| && (k < |q.ids| - 1 || (!q.waiting && !q.failed))
  }

  /** What was answered and was not a tolerated error has arrived. */
  ghost predicate Heard(w: World, q: Client) {
    forall k :: 0 <= k < |q.ids| <= |Plan(q.task)| && Past(q, k) && !Plan(q.task)[k].DropUrl? ==> q.ids[k] in w.log
  }

  ghost predicate Before(log: seq<nat>, a: nat, b: nat) {
    forall j :: 0 <= j < |log| && log[j] == b ==> a in log[..j]
  }

  /** The first request arrives before any later one. */
  ghost predicate FirstFirst(w: World, q: Client) {
    forall l :: 1 <= l < |q.ids| ==> Before(w.log, q.ids[0], q.ids[l])
  }

  ghost predicate ClientOk(w: World, c: nat, q: Client) {
    Follows(w, c, q) && Heard(w, q) && (Plan(q.task) != [] && !Plan(q.task)[0].DropUrl? ==> FirstFirst(w, q))
  }

  /** Every request was sent by a client that remembers it. */
  ghost predicate OwnerOk(w: World, id: nat)
    requires id < |w.owner|
  {
    w.owner[id] in w.clients && id in w.clients[w.owner[id]].ids
  }

  ghost predicate Inv(w: World) {
    && LogOk(w)
    && (forall c :: c in w.clients ==> ClientOk(w, c, w.clients[c]))
    && (forall id: nat :: id < |w.owner| ==> OwnerOk(w, id))
  }

  lemma SentKeepsClient(w: World, w': World, d: nat, q: Client)
    requires ClientOk(w, d, q) && w'.log == w.log && w.sent <= w'.sent && w.owner <= w'.owner && |w'.owner| == |w'.sent|
    ensures ClientOk(w', d, q)
  {
  }

  lemma SenderFollows(w: World, c: nat)
    requires LogOk(w) && Enabled(w, Send(c)) && ClientOk(w, c, w.clients[c])
    ensures var w' := Next(w, Send(c)); Follows(w', c, w'.clients[c]) && Heard(w', w'.clients[c])
  {
    var w', q := Next(w, Send(c)), w.clients[c];
    var q' := w'.clients[c];
    forall k | 0 <= k < |q'.ids| && Past(q', k) && !Plan(q'.task)[k].DropUrl? ensures q'.ids[k] in w'.log {
      assert Past(q, k) && q.ids[k] in w.log;
    }
  }

  lemma SenderOk(w: World, c: nat)
    requires LogOk(w) && Enabled(w, Send(c)) && ClientOk(w, c, w.clients[c])
    ensures ClientOk(Next(w, Send(c)), c, Next(w, Send(c)).clients[c])
  {
    var w', q := Next(w, Send(c)), w.clients[c];
    var q' := w'.clients[c];
    SenderFollows(w, c);
    forall l | 1 <= l < |q'.ids| && !Plan(q.task)[0].DropUrl? ensures Before(w'.log, q'.ids[0], q'.ids[l]) {
      if l < |q.ids| { assert Before(w.log, q.ids[0], q.ids[l]); }
    }
  }

  lemma SendKeepsInv(w: World, c: nat)
    requires Inv(w) && Enabled(w, Send(c))
    ensures Inv(Next(w, Send(c)))
  {
    var w' := Next(w, Send(c));
    forall d | d in w'.clients ensures ClientOk(w', d, w'.clients[d]) {
      assert ClientOk(w, d, w.clients[d]);
      if d == c {
        SenderOk(w, c);
      } else {
        SentKeepsClient(w, w', d, w.clients[d]);
      }
    }
    forall id: nat | id < |w'.owner| ensures OwnerOk(w', id) {
      if id < |w.owner| {
        assert OwnerOk(w, id);
      } else {
        assert w'.clients[c].ids[|w'.clients[c].ids| - 1] == id;
      }
    }
  }

  lemma ArrivalKeepsClient(w: World, id: nat, d: nat)
    requires Inv(w) && Enabled(w, Arrive(id)) && d in w.clients
    ensures ClientOk(Next(w, Arrive(id)), d, w.clients[d])
  {
    var w', q := Next(w, Arrive(id)), w.clients[d];
    assert ClientOk(w, d, q);
    forall l | 1 <= l < |q.ids| && !Plan(q.task)[0].DropUrl? ensures Before(w'.log, q.ids[0], q.ids[l]) {
      assert Before(w.log, q.ids[0], q.ids[l]) && Past(q, 0) && q.ids[0] in w.log;
      forall j | 0 <= j < |w'.log| && w'.log[j] == q.ids[l] ensures q.ids[0] in w'.log[..j] {
        assert w'.log[..j] == w.log[..j];
        assert j == |w.log| ==> w.log[..j] == w.log;
      }
    }
  }

  lemma ArriveKeepsInv(w: World, id: nat)
    requires Inv(w) && Enabled(w, Arrive(id))
    ensures Inv(Next(w, Arrive(id)))
  {
    var w' := Next(w, Arrive(id));
    forall d | d in w'.clients ensures ClientOk(w', d, w'.clients[d]) { ArrivalKeepsClient(w, id, d); }
    forall i: nat | i < |w'.owner| ensures OwnerOk(w', i) { assert OwnerOk(w, i); }
  }

  lemma AnswerKeepsHeard(w: World, c: nat, ok: bool)
    requires LogOk(w) && Enabled(w, Reply(c, ok)) && Heard(w, w.clients[c])
    ensures Heard(Next(w, Reply(c, ok)), Answered(w.clients[c], ok))
  {
    var w', q := Next(w, Reply(c, ok)), w.clients[c];
    var q' := Answered(q, ok);
    forall k | 0 <= k < |q'.ids| <= |Plan(q'.task)| && Past(q', k) && !Plan(q'.task)[k].DropUrl? ensures q'.ids[k] in w'.log {
      if k < |q.ids| - 1 { assert Past(q, k); }
    }
  }

  lemma AnswerKeepsClient(w: World, c: nat, ok: bool)
    requires LogOk(w) && Enabled(w, Reply(c, ok)) && ClientOk(w, c, w.clients[c])
    ensures ClientOk(Next(w, Reply(c, ok)), c, Answered(w.clients[c], ok))
  {
    AnswerKeepsHeard(w, c, ok);
  }

  lemma OtherKeepsInv(w: World, s: Step)
    requires Inv(w) && Enabled(w, s) && !s.Send? && !s.Arrive?
    ensures Inv(Next(w, s))
  {
    var w' := Next(w, s);
    forall d | d in w'.clients ensures ClientOk(w', d, w'.clients[d]) {
      if d in w.clients { assert ClientOk(w, d, w.clients[d]); }
      if s.Reply? && d == s.c {
        AnswerKeepsClient(w, s.c, s.ok);
      } else if d in w.clients {
        SentKeepsClient(w, w', d, w.clients[d]);
      }
    }
    forall i: nat | i < |w'.owner| ensures OwnerOk(w', i) { assert OwnerOk(w, i); }
  }

  lemma NextKeepsInv(w: World, s: Step)
    requires Inv(w) && Enabled(w, s)
    ensures Inv(Next(w, s))
  {
    match s
    case Send(c) => SendKeepsInv(w, c);
    case Arrive(id) => ArriveKeepsInv(w, id);
    case _ => OtherKeepsInv(w, s);
  }

  ghost predicate IsRun(run: seq<World>, steps: seq<Step>) {
    && |run| == |steps| + 1
    && forall k :: 0 <= k < |steps| ==>
         Enabled(run[k], steps[k]) && (LogOk(run[k]) ==> run[k + 1] == Next(run[k], steps[k]))
  }

  /** No handler at work yet; the index may hold anything. */
  ghost predicate Initial(w: World) {
    w.sent == [] && w.owner == [] && w.log == [] && w.clients == map[]
  }

  lemma {:induction false} RunKeepsInv(run: seq<World>, steps: seq<Step>, n: nat)
    requires IsRun(run, steps) && Initial(run[0]) && n < |run|
    ensures Inv(run[n])
  {
    if n == 0 {
    } else {
      RunKeepsInv(run, steps, n - 1);
      NextKeepsInv(run[n - 1], steps[n - 1]);
    }
  }

  // ---- the index is what arrived ----------------------------------------

  /** The index after the first n arrivals. */
  ghost function Replay(index: Index, sent: seq<Request>, log: seq<nat>, n: nat): Index
    requires n <= |log| && forall i :: 0 <= i < |log| ==> log[i] < |sent|
  {
    if n == 0 then index else Applied(Replay(index, sent, log, n - 1), sent[log[n - 1]])
  }

  lemma {:induction false} ReplayGrows(index: Index, sent: seq<Request>, log: seq<nat>, sent': seq<Request>, log': seq<nat>, n: nat)
    requires n <= |log| && sent <= sent' && log <= log'
    requires (forall i :: 0 <= i < |log| ==> log[i] < |sent|) && (forall i :: 0 <= i < |log'| ==> log'[i] < |sent'|)
    ensures Replay(index, sent, log, n) == Replay(index, sent', log', n)
  {
    if n == 0 {
    } else {
      ReplayGrows(index, sent, log, sent', log', n - 1);
    }
  }

  ghost predicate IsReplay(index: Index, w: World) {
    LogOk(w) && w.index == Replay(index, w.sent, w.log, |w.log|)
  }

  lemma NextIsReplay(index: Index, w: World, s: Step)
    requires IsReplay(index, w) && Enabled(w, s) && LogOk(Next(w, s))
    ensures IsReplay(index, Next(w, s))
  {
    var w' := Next(w, s);
    ReplayGrows(index, w.sent, w.log, w'.sent, w'.log, |w.log|);
  }

  lemma {:induction false} IndexIsReplay(run: seq<World>, steps: seq<Step>, n: nat)
    requires IsRun(run, steps) && Initial(run[0]) && n < |run|
    ensures IsReplay(run[0].index, run[n])
  {
    RunKeepsInv(run, steps, n);
    if n == 0 {
    } else {
      IndexIsReplay(run, steps, n - 1);
      NextIsReplay(run[0].index, run[n - 1], steps[n - 1]);
    }
  }

  // ---- what one request does to one vector ------------------------------

  ghost predicate Holds(index: Index, ns: string, v: (VectorId, Meta)) {
    v.0 in In(index, ns) && In(index, ns)[v.0] == v.1
  }

  /** The deletes that hit a vector. */
  predicate Removes(r: Request, ns: string, v: (VectorId, Meta)) {
    r.ns == ns &&
    match r
    case DropSource(_, sourceType, key) => v.1.sourceType == sourceType && v.1.sourceKey == key
    case DropUrl(_, url) => v.1.url == url
    case DropAll(_) => true
    case Save(_, _) => false
  }

  ghost predicate Saves(r: Request, ns: string, id: VectorId) {
    r.Save? && r.ns == ns && id in Ids(r.batch)
  }

  /** The loss bound of a single request: it takes exactly the vectors it hits, and a save
      takes none but those it overwrites. */
  lemma RequestTakesExactly(index: Index, r: Request, ns: string, v: (VectorId, Meta))
    requires r.Save? ==> DistinctIds(r.batch)
    requires Holds(index, ns, v) && !Saves(r, ns, v.0)
    ensures Holds(Applied(index, r), ns, v) <==> !Removes(r, ns, v)
  {
    if r.Save? { PutFacts(In(index, r.ns), r.batch); }
  }

  /** A vector appears only by a save. */
  lemma OnlySavesAdd(index: Index, r: Request, ns: string, v: (VectorId, Meta))
    requires r.Save? ==> DistinctIds(r.batch)
    requires !Holds(index, ns, v) && Holds(Applied(index, r), ns, v)
    ensures Saves(r, ns, v.0) && v in r.batch
  {
    if r.Save? {
      PutFacts(In(index, r.ns), r.batch);
      if r.ns == ns && v.0 in Ids(r.batch) {
        var i :| 0 <= i < |r.batch| && r.batch[i].0 == v.0;
        assert r.batch[i] == v;
      }
    }
  }

  // ---- the log of a finished job ----------------------------------------

  /** The saves that put vectors under a website key: only a scrape of that key sends them. */
  ghost predicate KeyedSave(r: Request, ns: string, key: string) {
    r.Save? && r.ns == ns && exists i :: 0 <= i < |r.batch| && Keyed(r.batch[i].1, key)
  }

  ghost predicate BatchOk(r: Request) {
    r.Save? ==> DistinctIds(r.batch) && forall i :: 0 <= i < |r.batch| ==> Agrees(r.batch[i].0, r.batch[i].1) && r.batch[i].0.Stable?
  }

  /** The requests that hit a batch of vectors. */
  ghost predicate Hits(r: Request, ns: string, batch: seq<(VectorId, Meta)>) {
    exists i :: 0 <= i < |batch| && Removes(r, ns, batch[i])
  }

  /** A vector of a website key is safe from every save of another source. */
  lemma OtherSavesSpare(r: Request, ns: string, key: string, v: (VectorId, Meta))
    requires BatchOk(r) && !KeyedSave(r, ns, key) && Agrees(v.0, v.1) && v.0.Stable? && Keyed(v.1, key)
    ensures !Saves(r, ns, v.0)
  {
  }

  /** One arrival after the job's own save: a vector of the batch is there afterwards if it
      was there before and is not hit; no other vector gets the key. */
  lemma ArrivalAfterSave(index: Index, r: Request, ns: string, key: string, v: (VectorId, Meta))
    requires BatchOk(r) && !KeyedSave(r, ns, key) && Agrees(v.0, v.1) && v.0.Stable? && Keyed(v.1, key)
    ensures Holds(Applied(index, r), ns, v) <==> Holds(index, ns, v) && !Removes(r, ns, v)
  {
    OtherSavesSpare(r, ns, key, v);
    if Holds(index, ns, v) {
      RequestTakesExactly(index, r, ns, v);
    } else if Holds(Applied(index, r), ns, v) {
      OnlySavesAdd(index, r, ns, v);
    }
  }

  /** Arrivals that are no save under the key, from one position of the log to another. */
  ghost predicate QuietBetween(sent: seq<Request>, log: seq<nat>, from: nat, to: nat, ns: string, key: string)
    requires to <= |log| && forall i :: 0 <= i < |log| ==> log[i] < |sent|
  {
    forall i :: from <= i < to ==> BatchOk(sent[log[i]]) && !KeyedSave(sent[log[i]], ns, key)
  }

  /** A vector of the batch survives a stretch of the log exactly when no request hits it. */
  lemma {:induction false} SurvivesIff(index: Index, sent: seq<Request>, log: seq<nat>, from: nat, to: nat,
                                       ns: string, key: string, v: (VectorId, Meta))
    requires from <= to <= |log| && forall i :: 0 <= i < |log| ==> log[i] < |sent|
    requires QuietBetween(sent, log, from, to, ns, key)
    requires Agrees(v.0, v.1) && v.0.Stable? && Keyed(v.1, key) && Holds(Replay(index, sent, log, from), ns, v)
    ensures Holds(Replay(index, sent, log, to), ns, v) <==> forall i :: from <= i < to ==> !Removes(sent[log[i]], ns, v)
  {
    if from == to {
    } else {
      SurvivesIff(index, sent, log, from, to - 1, ns, key, v);
      ArrivalAfterSave(Replay(index, sent, log, to - 1), sent[log[to - 1]], ns, key, v);
    }
  }

  ghost predicate NoneKeyed(index: Index, ns: string, key: string) {
    forall id :: id in In(index, ns) ==> !Keyed(In(index, ns)[id], key)
  }

  /** The keyed vectors are among those of the batch. */
  ghost predicate OnlyBatch(index: Index, ns: string, key: string, batch: seq<(VectorId, Meta)>) {
    forall id :: id in In(index, ns) && Keyed(In(index, ns)[id], key) ==> (id, In(index, ns)[id]) in batch
  }

  lemma {:induction false} StaysOnlyBatch(index: Index, sent: seq<Request>, log: seq<nat>, from: nat, to: nat,
                                          ns: string, key: string, batch: seq<(VectorId, Meta)>)
    requires from <= to <= |log| && forall i :: 0 <= i < |log| ==> log[i] < |sent|
    requires QuietBetween(sent, log, from, to, ns, key) && OnlyBatch(Replay(index, sent, log, from), ns, key, batch)
    ensures OnlyBatch(Replay(index, sent, log, to), ns, key, batch)
  {
    if from == to {
    } else {
      StaysOnlyBatch(index, sent, log, from, to - 1, ns, key, batch);
      var before, r := Replay(index, sent, log, to - 1), sent[log[to - 1]];
      var after := In(Applied(before, r), ns);
      forall id | id in after && Keyed(after[id], key) ensures (id, after[id]) in batch {
        if !Holds(before, ns, (id, after[id])) { OnlySavesAdd(before, r, ns, (id, after[id])); }
      }
    }
  }

  // ---- when a finished job has refreshed its source ---------------------

  ghost predicate IsJob(w: World, a: nat, ns: string, key: string, batch: seq<(VectorId, Meta)>) {
    a in w.clients && w.clients[a].task == Scrape(ns, key, batch)
  }

  /** No other job on the source. */
  ghost predicate OnlyJob(w: World, a: nat, ns: string, key: string) {
    forall c :: c in w.clients && w.clients[c].task.Scrape? && w.clients[c].task.ns == ns && w.clients[c].task.key == key ==> c == a
  }

  lemma PlanBatchOk(task: Task, k: nat)
    requires TaskOk(task) && k < |Plan(task)|
    ensures BatchOk(Plan(task)[k])
  {
  }

  lemma SentByPlan(w: World, id: nat) returns (k: nat)
    requires Inv(w) && id < |w.sent|
    ensures w.owner[id] in w.clients
    ensures var q := w.clients[w.owner[id]];
            TaskOk(q.task) && k < |q.ids| <= |Plan(q.task)| && q.ids[k] == id && w.sent[id] == Plan(q.task)[k]
  {
    assert OwnerOk(w, id);
    var q := w.clients[w.owner[id]];
    assert ClientOk(w, w.owner[id], q);
    k :| 0 <= k < |q.ids| && q.ids[k] == id;
  }

  lemma SentOk(w: World, id: nat)
    requires Inv(w) && id < |w.sent|
    ensures BatchOk(w.sent[id])
  {
    var k := SentByPlan(w, id);
    PlanBatchOk(w.clients[w.owner[id]].task, k);
  }

  lemma KeyedSaveOfPlan(task: Task, k: nat, ns: string, key: string)
    requires TaskOk(task) && k < |Plan(task)| && KeyedSave(Plan(task)[k], ns, key)
    ensures task.Scrape? && task.ns == ns && task.key == key && k == 2
  {
    var r := Plan(task)[k];
    var i :| 0 <= i < |r.batch| && Keyed(r.batch[i].1, key);
  }

  lemma KeyedSaveIsOwn(w: World, a: nat, ns: string, key: string, id: nat)
    requires Inv(w) && a in w.clients && OnlyJob(w, a, ns, key)
    requires id < |w.sent| && KeyedSave(w.sent[id], ns, key)
    ensures |w.clients[a].ids| >= 3 && id == w.clients[a].ids[2]
  {
    var k := SentByPlan(w, id);
    KeyedSaveOfPlan(w.clients[w.owner[id]].task, k, ns, key);
  }

  /** Everything in the log but the job's own save is quiet about the key. */
  lemma LogIsQuiet(w: World, a: nat, ns: string, key: string, batch: seq<(VectorId, Meta)>, from: nat, to: nat)
    requires Inv(w) && IsJob(w, a, ns, key, batch) && OnlyJob(w, a, ns, key) && to <= |w.log|
    requires |w.clients[a].ids| >= 3 ==> forall i :: from <= i < to ==> w.log[i] != w.clients[a].ids[2]
    ensures QuietBetween(w.sent, w.log, from, to, ns, key)
  {
    forall i | from <= i < to ensures BatchOk(w.sent[w.log[i]]) && !KeyedSave(w.sent[w.log[i]], ns, key) {
      SentOk(w, w.log[i]);
      if KeyedSave(w.sent[w.log[i]], ns, key) { KeyedSaveIsOwn(w, a, ns, key, w.log[i]); }
    }
  }

  /** Where the job's delete by source and its save stand in the log. */
  lemma JobInLog(w: World, a: nat, ns: string, key: string, batch: seq<(VectorId, Meta)>) returns (first: nat, last: nat)
    requires Inv(w) && IsJob(w, a, ns, key, batch) && Done(w.clients[a])
    ensures first < |w.log| && w.log[first] == w.clients[a].ids[0] && w.sent[w.log[first]] == DropSource(ns, Website, key)
    ensures batch != [] ==>
              && first < last < |w.log| && w.log[last] == w.clients[a].ids[2] && w.sent[w.log[last]] == Save(ns, batch)
  {
    var q := w.clients[a];
    assert ClientOk(w, a, q);
    assert Past(q, 0) && q.ids[0] in w.log;
    first :| 0 <= first < |w.log| && w.log[first] == q.ids[0];
    last := 0;
    if batch != [] {
      assert Past(q, 2) && q.ids[2] in w.log;
      last :| 0 <= last < |w.log| && w.log[last] == q.ids[2];
      assert Before(w.log, q.ids[0], q.ids[2]) && q.ids[0] in w.log[..last];
      var f :| 0 <= f < last && w.log[..last][f] == q.ids[0];
      assert w.log[f] == q.ids[0];
    }
  }

  ghost predicate ExactlyStored(index: Index, ns: string, key: string, batch: seq<(VectorId, Meta)>) {
    OnlyBatch(index, ns, key, batch) && forall i :: 0 <= i < |batch| ==> Holds(index, ns, batch[i])
  }

  /** The job's delete leaves no keyed vector, and none comes back before its save. */
  lemma EmptyBeforeSave(start: Index, w: World, a: nat, ns: string, key: string, batch: seq<(VectorId, Meta)>, first: nat, to: nat)
    requires IsReplay(start, w) && Inv(w) && IsJob(w, a, ns, key, batch) && OnlyJob(w, a, ns, key)
    requires first < to <= |w.log| && w.sent[w.log[first]] == DropSource(ns, Website, key)
    requires |w.clients[a].ids| >= 3 ==> forall i :: first < i < to ==> w.log[i] != w.clients[a].ids[2]
    ensures OnlyBatch(Replay(start, w.sent, w.log, to), ns, key, [])
  {
    LogIsQuiet(w, a, ns, key, batch, first + 1, to);
    StaysOnlyBatch(start, w.sent, w.log, first + 1, to, ns, key, []);
  }

  /** Right after its own save the job's source is exactly refreshed. */
  lemma SaveStores(index: Index, ns: string, key: string, batch: seq<(VectorId, Meta)>)
    requires OnlyBatch(index, ns, key, []) && DistinctIds(batch)
    ensures ExactlyStored(Applied(index, Save(ns, batch)), ns, key, batch)
  {
    PutFacts(In(index, ns), batch);
    var after := In(Applied(index, Save(ns, batch)), ns);
    forall id | id in after && Keyed(after[id], key) ensures (id, after[id]) in batch {
      if id in Ids(batch) {
        var i :| 0 <= i < |batch| && batch[i].0 == id;
        assert batch[i] == (id, after[id]);
      }
    }
    forall i | 0 <= i < |batch| ensures batch[i].0 in Ids(batch) {
    }
  }

  lemma StoredBySave(start: Index, w: World, a: nat, ns: string, key: string, batch: seq<(VectorId, Meta)>)
    returns (at: nat)
    requires IsReplay(start, w) && Inv(w) && batch != []
    requires IsJob(w, a, ns, key, batch) && Done(w.clients[a]) && OnlyJob(w, a, ns, key)
    ensures |w.clients[a].ids| == 3 && at < |w.log| && w.log[at] == w.clients[a].ids[2] && w.sent[w.log[at]] == Save(ns, batch)
    ensures ExactlyStored(Replay(start, w.sent, w.log, at + 1), ns, key, batch)
    ensures DistinctIds(batch) && AllKeyed(batch, key)
  {
    assert ClientOk(w, a, w.clients[a]);
    var first;
    first, at := JobInLog(w, a, ns, key, batch);
    EmptyBeforeSave(start, w, a, ns, key, batch, first, at);
    SaveStores(Replay(start, w.sent, w.log, at), ns, key, batch);
  }

  lemma ExactFromSaveIff(start: Index, w: World, ns: string, key: string, batch: seq<(VectorId, Meta)>, from: nat)
    requires IsReplay(start, w) && from <= |w.log| && QuietBetween(w.sent, w.log, from, |w.log|, ns, key)
    requires AllKeyed(batch, key) && ExactlyStored(Replay(start, w.sent, w.log, from), ns, key, batch)
    ensures ExactlyStored(w.index, ns, key, batch) <==>
            forall i :: from <= i < |w.log| ==> !Hits(w.sent[w.log[i]], ns, batch)
  {
    StaysOnlyBatch(start, w.sent, w.log, from, |w.log|, ns, key, batch);
    SpareIff(start, w, ns, key, batch, from);
  }

  lemma WorldIsExactIff(start: Index, w: World, a: nat, ns: string, key: string, batch: seq<(VectorId, Meta)>)
    returns (at: nat)
    requires IsReplay(start, w) && Inv(w) && batch != []
    requires IsJob(w, a, ns, key, batch) && Done(w.clients[a]) && OnlyJob(w, a, ns, key)
    ensures |w.clients[a].ids| == 3 && at < |w.log| && w.log[at] == w.clients[a].ids[2] && w.sent[w.log[at]] == Save(ns, batch)
    ensures ExactlyStored(w.index, ns, key, batch) <==>
            forall i :: at < i < |w.log| ==> !Hits(w.sent[w.log[i]], ns, batch)
  {
    at := StoredBySave(start, w, a, ns, key, batch);
    LogIsQuiet(w, a, ns, key, batch, at + 1, |w.log|);
    ExactFromSaveIff(start, w, ns, key, batch, at + 1);
  }

  /** When a job on a source is done and no other job works on that source, the source's
      vectors are exactly the job's batch if and only if nothing that arrived after the
      job's save hits the batch: no delete by URL of one of its pages, no delete of the
      source, no delete of the whole namespace, from whatever handler. */
  lemma DoneIsExactIff(run: seq<World>, steps: seq<Step>, n: nat, a: nat, ns: string, key: string, batch: seq<(VectorId, Meta)>)
    returns (at: nat)
    requires IsRun(run, steps) && Initial(run[0]) && n < |run| && batch != []
    requires IsJob(run[n], a, ns, key, batch) && Done(run[n].clients[a]) && OnlyJob(run[n], a, ns, key)
    ensures LogOk(run[n]) && |run[n].clients[a].ids| == 3
    ensures at < |run[n].log| && run[n].log[at] == run[n].clients[a].ids[2] && run[n].sent[run[n].log[at]] == Save(ns, batch)
    ensures ExactlyStored(run[n].index, ns, key, batch) <==>
            forall i :: at < i < |run[n].log| ==> !Hits(run[n].sent[run[n].log[i]], ns, batch)
  {
    RunKeepsInv(run, steps, n);
    IndexIsReplay(run, steps, n);
    at := WorldIsExactIff(run[0].index, run[n], a, ns, key, batch);
  }

  lemma SpareIff(start: Index, w: World, ns: string, key: string, batch: seq<(VectorId, Meta)>, from: nat)
    requires IsReplay(start, w) && from <= |w.log| && QuietBetween(w.sent, w.log, from, |w.log|, ns, key)
    requires AllKeyed(batch, key) && forall i :: 0 <= i < |batch| ==> Holds(Replay(start, w.sent, w.log, from), ns, batch[i])
    ensures (forall i :: 0 <= i < |batch| ==> Holds(w.index, ns, batch[i])) <==>
            forall i :: from <= i < |w.log| ==> !Hits(w.sent[w.log[i]], ns, batch)
  {
    forall b | 0 <= b < |batch|
      ensures Holds(w.index, ns, batch[b]) <==> forall i :: from <= i < |w.log| ==> !Removes(w.sent[w.log[i]], ns, batch[b])
    {
      SurvivesIff(start, w.sent, w.log, from, |w.log|, ns, key, batch[b]);
    }
  }

  /** A job none of whose chunks could be embedded leaves no vector under its key. */
  lemma DoneWithoutVectors(run: seq<World>, steps: seq<Step>, n: nat, a: nat, ns: string, key: string)
    requires IsRun(run, steps) && Initial(run[0]) && n < |run|
    requires IsJob(run[n], a, ns, key, []) && Done(run[n].clients[a]) && OnlyJob(run[n], a, ns, key)
    ensures NoneKeyed(run[n].index, ns, key)
  {
    var w := run[n];
    RunKeepsInv(run, steps, n);
    IndexIsReplay(run, steps, n);
    var first, _ := JobInLog(w, a, ns, key, []);
    EmptyBeforeSave(run[0].index, w, a, ns, key, [], first, |w.log|);
  }

  /** What hits the batch of a job, in terms of the requests. */
  lemma HitsIff(r: Request, ns: string, key: string, batch: seq<(VectorId, Meta)>)
    requires AllKeyed(batch, key) && batch != []
    ensures Hits(r, ns, batch) <==>
            r.ns == ns && match r
                          case DropSource(_, sourceType, k) => sourceType == Website && k == key
                          case DropUrl(_, url) => exists i :: 0 <= i < |batch| && batch[i].1.url == url
                          case DropAll(_) => true
                          case Save(_, _) => false
  {
    if r.ns == ns && (r.DropAll? || (r.DropSource? && r.sourceType == Website && r.key == key)) {
      assert Removes(r, ns, batch[0]);
    } else if r.ns == ns && r.DropUrl? {
      forall i | 0 <= i < |batch| ensures Removes(r, ns, batch[i]) <==> batch[i].1.url == r.url {
      }
    }
  }

  // ---- the tasks of the program -----------------------------------------

  /** A crawl's batch makes a task of this model, whichever embeddings succeed. */
  lemma CrawlMakesTask(ns: string, sourceURL: string, pages: seq<Page>, widgetKey: string, embeds: string -> bool)
    requires Tight(sourceURL) && DistinctUrls(pages) && forall p :: p in pages ==> Tight(p.url)
    ensures TaskOk(Scrape(ns, sourceURL, VectorsOf(ns, ChunksFrom(pages, 0, widgetKey, sourceURL), embeds)))
  {
    PipelineVectors(ns, sourceURL, pages, widgetKey, embeds);
  }

  lemma SomesOne<X, Y>(f: X -> Option<Y>, x: X)
    ensures Somes(f, [x], 0) == if f(x).None? then [] else [f(x).value]
  {
    SomesStep(f, [x], 0);
    assert Somes(f, [x], 1) == [];
  }

  lemma DocumentVector(ns: string, c: RagChunk)
    requires c.sourceType == Document
    ensures OfDocuments([VectorOf(ns, c)])
  {
    VectorAgrees(ns, c);
    OneOfDocuments(VectorOf(ns, c));
  }

  lemma OneOfDocuments(v: (VectorId, Meta))
    requires v.0.Stable? && v.0.sourceType == v.1.sourceType == Document && v.0.sourceKey == v.1.sourceKey
    ensures OfDocuments([v])
  {
  }

  /** So does a document, which is a single chunk. */
  lemma DocumentMakesTask(ns: string, c: RagChunk, embeds: string -> bool)
    requires c.sourceType == Document
    ensures TaskOk(AddDocument(ns, VectorsOf(ns, [c], embeds)))
  {
    var f := Embedder(ns, embeds);
    SomesOne(f, c);
    EmbedderYields(ns, embeds, c);
    DocumentVector(ns, c);
  }

  /** Without interference the requests of a job do what the job model says. */
  lemma UninterruptedIsReplace(index: Index, ns: string, key: string, batch: seq<(VectorId, Meta)>)
    requires Tight(key) && batch != []
    ensures var plan := Plan(Scrape(ns, key, batch));
            Applied(Applied(Applied(index, plan[0]), plan[1]), plan[2]) ==
            Replace(Service.Ready, index, ns, key, batch, Success, Success, Success).index
  {
    TrimOfTight(key);
  }

  /** Exactly the vectors without the document's key and URL are left. */
  ghost predicate IsWithoutDocument(m: Vectors, after: Vectors, id: string) {
    && (forall v :: v in after <==>
          v in m && !(m[v].sourceType == Document && m[v].sourceKey == id) && m[v].url != "doc:" + id)
    && (forall v :: v in after ==> after[v] == m[v])
  }

  ghost predicate IsDocumentVector(v: (VectorId, Meta), id: string) {
    && v.0.Stable? && v.0.sourceType == Document && v.0.sourceKey == id
    && v.1.sourceType == Document && v.1.sourceKey == id
  }

  /** A document that was added is removed by the requests of its removal: they leave the
      index as it was before, without anything that carried its key or its URL. */
  lemma DocumentIsRemoved(index: Index, ns: string, id: string, c: RagChunk, embeds: string -> bool)
    requires Consistent(In(index, ns)) && Tight(id) && c.sourceType == Document && c.url == "doc:" + id
    requires c.sourceKey == id || Trim(c.sourceKey, GO_SPACE) == ""
    ensures var vs, plan := VectorsOf(ns, [c], embeds), Plan(RemoveDocument(ns, id));
            |plan| == 2 &&
            IsWithoutDocument(In(index, ns), In(Applied(Applied(Applied(index, Save(ns, vs)), plan[0]), plan[1]), ns), id)
  {
    var m, vs := In(index, ns), VectorsOf(ns, [c], embeds);
    DocumentVectors(ns, id, c, embeds);
    PutAtMostOne(m, vs);
    DocumentDeletes(m, vs, Put(m, vs), id);
    AppliedDeletes(index, ns, vs, id);
  }

  lemma AppliedDeletes(index: Index, ns: string, vs: seq<(VectorId, Meta)>, id: string)
    ensures var plan := Plan(RemoveDocument(ns, id));
            |plan| == 2 &&
            In(Applied(Applied(Applied(index, Save(ns, vs)), plan[0]), plan[1]), ns) ==
            WithoutUrl(WithoutSource(Put(In(index, ns), vs), Document, id), "doc:" + id)
  {
  }

  lemma DocumentDeletes(m: Vectors, vs: seq<(VectorId, Meta)>, saved: Vectors, id: string)
    requires Consistent(m) && (vs == [] || (|vs| == 1 && IsDocumentVector(vs[0], id)))
    requires saved == if vs == [] then m else m[vs[0].0 := vs[0].1]
    ensures IsWithoutDocument(m, WithoutUrl(WithoutSource(saved, Document, id), "doc:" + id), id)
  {
    assert vs != [] && vs[0].0 in m ==> Agrees(vs[0].0, m[vs[0].0]);
  }

  lemma PutAtMostOne(m: Vectors, vs: seq<(VectorId, Meta)>)
    requires |vs| <= 1
    ensures Put(m, vs) == if vs == [] then m else m[vs[0].0 := vs[0].1]
  {
    if vs != [] { assert vs[..0] == []; }
  }

  lemma DocumentVectors(ns: string, id: string, c: RagChunk, embeds: string -> bool)
    requires Tight(id) && c.sourceType == Document && c.url == "doc:" + id
    requires c.sourceKey == id || Trim(c.sourceKey, GO_SPACE) == ""
    ensures var vs := VectorsOf(ns, [c], embeds); vs == [] || (|vs| == 1 && IsDocumentVector(vs[0], id))
  {
    SomesOne(Embedder(ns, embeds), c);
    EmbedderYields(ns, embeds, c);
    DocumentKey(c, id);
    TrimOfTight(id);
  }

  lemma DocumentUrl(id: string)
    requires Tight(id)
    ensures Tight("doc:" + id) && ("doc:" + id)[4..] == id && "doc:" <= "doc:" + id
  {
    assert !IsSpace('d') && !IsSpace('o') && !IsSpace('c') && !IsSpace(':');
    NoneInConcat("doc:", id);
  }

  lemma KeyFromUrl(url: string, id: string)
    requires "doc:" <= url && url[4..] == id && Trim(id, GO_SPACE) == id
    ensures KeyOrUrl(Document, "", url) == id
  {
  }

  /** The key of a document chunk, given or left to its URL, is the document's id. */
  lemma DocumentKey(c: RagChunk, id: string)
    requires Tight(id) && c.sourceType == Document && c.url == "doc:" + id
    requires c.sourceKey == id || Trim(c.sourceKey, GO_SPACE) == ""
    ensures SourceKeyOf(c) == id
  {
    if c.sourceKey == id {
      TightKey(c);
    } else {
      TrimOfTight(id);
      DocumentUrl(id);
      TrimOfTight(c.url);
      KeyFromUrl(c.url, id);
    }
  }

  /** A handler gives up exactly when an answer is bad and not that of its delete by URL, and
      until then goes on with the next request. */
  lemma BadReplyIff(w: World, c: nat, ok: bool)
    requires LogOk(w) && Enabled(w, Reply(c, ok))
    requires Follows(w, c, w.clients[c])
    ensures var q, after := w.clients[c], Next(w, Reply(c, ok));
            && after.clients.Keys == w.clients.Keys && after.index == w.index
            && after.clients[c].ids == q.ids && !after.clients[c].waiting
            && (after.clients[c].failed <==> !ok && !w.sent[q.ids[|q.ids| - 1]].DropUrl?)
  {
  }

  /** Removing everything empties the user's namespace and no other. */
  lemma EverythingIsRemoved(index: Index, ns: string)
    ensures var plan := Plan(RemoveAll(ns));
            |plan| == 1 && In(Applied(index, plan[0]), ns) == map[] &&
            forall other :: other != ns ==> In(Applied(index, plan[0]), other) == In(index, other)
  {
  }

  /** Removing a source, undisturbed, does what the removal of the store does. */
  lemma UninterruptedIsRemoval(index: Index, ns: string, key: string)
    requires Tight(key)
    ensures var plan := Plan(Remove(ns, key));
            |plan| == 2 && Applied(Applied(index, plan[0]), plan[1]) ==
            Removal(Service.Ready, index, ns, key, Success, Success).index
  {
    TrimOfTight(key);
  }

  // ---- losses -----------------------------------------------------------

  lemma LossIsArrival(w: World, s: Step, ns: string, v: (VectorId, Meta))
    requires Inv(w) && Enabled(w, s) && Holds(w.index, ns, v) && !Holds(Next(w, s).index, ns, v)
    ensures s.Arrive? && (Removes(w.sent[s.id], ns, v) || Saves(w.sent[s.id], ns, v.0))
  {
    if s.Arrive? {
      SentOk(w, s.id);
      if !Saves(w.sent[s.id], ns, v.0) { RequestTakesExactly(w.index, w.sent[s.id], ns, v); }
    }
  }

  lemma LossAt(run: seq<World>, steps: seq<Step>, k: nat, ns: string, v: (VectorId, Meta))
    requires IsRun(run, steps) && Initial(run[0]) && k < |steps|
    requires Holds(run[k].index, ns, v) && !Holds(run[k + 1].index, ns, v)
    ensures steps[k].Arrive? && steps[k].id < |run[k].sent|
    ensures var r := run[k].sent[steps[k].id]; Removes(r, ns, v) || Saves(r, ns, v.0)
  {
    RunKeepsInv(run, steps, k);
    LossIsArrival(run[k], steps[k], ns, v);
  }

  /** Over any stretch of any run a vector that is lost or replaced was hit by a delete that
      arrived in between, or overwritten by a save of its id. */
  lemma {:induction false} LossHasCause(run: seq<World>, steps: seq<Step>, i: nat, j: nat, ns: string, v: (VectorId, Meta))
    returns (k: nat)
    requires IsRun(run, steps) && Initial(run[0]) && i <= j < |run|
    requires Holds(run[i].index, ns, v) && !Holds(run[j].index, ns, v)
    ensures i <= k < j && steps[k].Arrive? && steps[k].id < |run[k].sent|
    ensures var r := run[k].sent[steps[k].id]; Removes(r, ns, v) || Saves(r, ns, v.0)
  {
    if i == j {
      k := i;
    } else if Holds(run[j - 1].index, ns, v) {
      k := j - 1;
      LossAt(run, steps, k, ns, v);
    } else {
      k := LossHasCause(run, steps, i, j - 1, ns, v);
    }
  }

  /** The requests of a job on a source take, of everything that is not keyed to the source,
      only vectors of the namespace whose URL is the source URL. */
  lemma JobTakesOnlyItsUrl(ns: string, key: string, batch: seq<(VectorId, Meta)>, k: nat, other: string, v: (VectorId, Meta))
    requires TaskOk(Scrape(ns, key, batch)) && k < |Plan(Scrape(ns, key, batch))|
    requires !Keyed(v.1, key)
    ensures var r := Plan(Scrape(ns, key, batch))[k];
            && (Removes(r, other, v) <==> other == ns && k == 1 && v.1.url == key)
            && (Agrees(v.0, v.1) ==> !Saves(r, other, v.0))
  {
  }

  /** When the removal of a source is done, a vector still under its key was saved by a job
      on that source after the removal's delete by source. */
  lemma SurvivorWasSavedLater(run: seq<World>, steps: seq<Step>, n: nat, a: nat, ns: string, key: string)
    returns (first: nat)
    requires IsRun(run, steps) && Initial(run[0]) && n < |run|
    requires a in run[n].clients && run[n].clients[a].task == Remove(ns, key) && Done(run[n].clients[a])
    ensures LogOk(run[n]) && first < |run[n].log| && run[n].sent[run[n].log[first]] == DropSource(ns, Website, key)
    ensures run[n].log[first] in run[n].clients[a].ids
    ensures !NoneKeyed(run[n].index, ns, key) ==>
              exists i :: first < i < |run[n].log| && KeyedSave(run[n].sent[run[n].log[i]], ns, key)
  {
    var w := run[n];
    RunKeepsInv(run, steps, n);
    IndexIsReplay(run, steps, n);
    var q := w.clients[a];
    assert ClientOk(w, a, q) && Past(q, 0) && q.ids[0] in w.log;
    first :| 0 <= first < |w.log| && w.log[first] == q.ids[0];
    if forall i :: first < i < |w.log| ==> !KeyedSave(w.sent[w.log[i]], ns, key) {
      forall i | first + 1 <= i < |w.log| ensures BatchOk(w.sent[w.log[i]]) {
        SentOk(w, w.log[i]);
      }
      StaysOnlyBatch(run[0].index, w.sent, w.log, first + 1, |w.log|, ns, key, []);
    }
  }

  // ---- a page lost to another source's job ------------------------------

  lemma Extend(run: seq<World>, steps: seq<Step>, s: Step, w: World) returns (run': seq<World>, steps': seq<Step>)
    requires IsRun(run, steps) && LogOk(run[|steps|]) && Enabled(run[|steps|], s) && w == Next(run[|steps|], s)
    ensures IsRun(run', steps') && run'[0] == run[0] && run'[|steps'|] == w
  {
    run', steps' := run + [w], steps + [s];
  }

  ghost predicate Ready(w: World, c: nat) {
    && LogOk(w) && w.lost == {} && c in w.clients && !w.clients[c].waiting && !w.clients[c].failed
    && |w.clients[c].ids| < |Plan(w.clients[c].task)|
  }

  /** The world after a handler's next request was sent, arrived and was answered well. */
  ghost function Told(w: World, c: nat): World
    requires Ready(w, c)
  {
    var q := w.clients[c];
    var r := Plan(q.task)[|q.ids|];
    World(Applied(w.index, r), w.sent + [r], w.owner + [c], w.log + [|w.sent|], {},
          w.clients[c := q.(ids := q.ids + [|w.sent|])])
  }

  ghost function Two(first: Client, second: Client): map<nat, Client> {
    map[0 := first, 1 := second]
  }

  ghost function Asked(q: Client, id: nat): Client {
    q.(ids := q.ids + [id])
  }

  lemma ToldFirst(w: World, first: Client, second: Client)
    requires w.clients == Two(first, second) && Ready(w, 0)
    ensures Told(w, 0).clients == Two(Asked(first, |w.sent|), second)
  {
    assert Told(w, 0).clients.Keys == {0, 1};
  }

  lemma ToldSecond(w: World, first: Client, second: Client)
    requires w.clients == Two(first, second) && Ready(w, 1)
    ensures Told(w, 1).clients == Two(first, Asked(second, |w.sent|))
  {
    assert Told(w, 1).clients.Keys == {0, 1};
  }

  lemma Tell(run: seq<World>, steps: seq<Step>, c: nat) returns (run': seq<World>, steps': seq<Step>)
    requires IsRun(run, steps) && Ready(run[|steps|], c)
    ensures IsRun(run', steps') && run'[0] == run[0] && run'[|steps'|] == Told(run[|steps|], c) && LogOk(run'[|steps'|])
  {
    var w := run[|steps|];
    var id := |w.sent|;
    var sent := Next(w, Send(c));
    run', steps' := Extend(run, steps, Send(c), sent);
    var arrived := Next(sent, Arrive(id));
    run', steps' := Extend(run', steps', Arrive(id), arrived);
    var told := Next(arrived, Reply(c, true));
    run', steps' := Extend(run', steps', Reply(c, true), told);
    assert told.clients == Told(w, c).clients;
  }

  lemma TwoJobsStarted(first: Task, second: Task) returns (run: seq<World>, steps: seq<Step>)
    requires TaskOk(first) && TaskOk(second)
    ensures IsRun(run, steps) && Initial(run[0])
    ensures run[|steps|] == World(map[], [], [], [], {},
                                  Two(Client(first, [], false, false), Client(second, [], false, false)))
  {
    var w0 := World(map[], [], [], [], {}, map[]);
    var w1 := w0.(clients := map[0 := Client(first, [], false, false)]);
    run, steps := Extend([w0], [], Start(0, first), w1);
    var w2 := w0.(clients := map[0 := Client(first, [], false, false), 1 := Client(second, [], false, false)]);
    run, steps := Extend(run, steps, Start(1, second), w2);
  }

  /** The first job has told the index its two deletes. */
  lemma FirstJobDeletes(ns: string, a: string, batch: seq<(VectorId, Meta)>, second: Task)
    returns (run: seq<World>, steps: seq<Step>)
    requires TaskOk(Scrape(ns, a, batch)) && TaskOk(second) && batch != []
    ensures IsRun(run, steps) && Initial(run[0])
    ensures var w := run[|steps|];
            && LogOk(w) && w.lost == {} && w.log == [0, 1] && w.owner == [0, 0]
            && w.sent == [DropSource(ns, Website, a), DropUrl(ns, a)]
            && w.clients == Two(Client(Scrape(ns, a, batch), [0, 1], false, false), Client(second, [], false, false))
  {
    run, steps := FirstDelete(ns, a, batch, second);
    var w, q := run[|steps|], Client(Scrape(ns, a, batch), [0], false, false);
    SecondDeleteIsNext(ns, a, batch, w);
    ToldFirst(w, q, Client(second, [], false, false));
    run, steps := Tell(run, steps, 0);
    assert Asked(q, 1).ids == [0, 1];
  }

  lemma FirstDelete(ns: string, a: string, batch: seq<(VectorId, Meta)>, second: Task)
    returns (run: seq<World>, steps: seq<Step>)
    requires TaskOk(Scrape(ns, a, batch)) && TaskOk(second) && batch != []
    ensures IsRun(run, steps) && Initial(run[0])
    ensures var w := run[|steps|];
            && LogOk(w) && w.lost == {} && w.log == [0] && w.owner == [0] && w.sent == [DropSource(ns, Website, a)]
            && w.clients == Two(Client(Scrape(ns, a, batch), [0], false, false), Client(second, [], false, false))
  {
    run, steps := TwoJobsStarted(Scrape(ns, a, batch), second);
    var w, q := run[|steps|], Client(Scrape(ns, a, batch), [], false, false);
    ToldFirst(w, q, Client(second, [], false, false));
    run, steps := Tell(run, steps, 0);
    assert Asked(q, 0).ids == [0];
  }

  lemma SecondDeleteIsNext(ns: string, a: string, batch: seq<(VectorId, Meta)>, w: World)
    requires LogOk(w) && w.lost == {} && 0 in w.clients && w.sent == [DropSource(ns, Website, a)]
    requires w.clients[0] == Client(Scrape(ns, a, batch), [0], false, false)
    ensures Ready(w, 0) && Told(w, 0).sent == [DropSource(ns, Website, a), DropUrl(ns, a)]
  {
  }

  /** Two jobs of one user on different sources, the first of which has crawled the page
      that is the second's source: each has told the index what comes before the overlap. */
  lemma TwoJobsUnderWay(ns: string, a: string, b: string, batch: seq<(VectorId, Meta)>, other: seq<(VectorId, Meta)>)
    returns (run: seq<World>, steps: seq<Step>)
    requires TaskOk(Scrape(ns, a, batch)) && TaskOk(Scrape(ns, b, other)) && batch != [] && a != b
    ensures IsRun(run, steps) && Initial(run[0])
    ensures var w := run[|steps|];
            && LogOk(w) && w.lost == {} && w.log == [0, 1, 2] && w.owner == [0, 0, 1]
            && w.sent == [DropSource(ns, Website, a), DropUrl(ns, a), DropSource(ns, Website, b)]
            && w.clients == Two(Client(Scrape(ns, a, batch), [0, 1], false, false),
                                Client(Scrape(ns, b, other), [2], false, false))
  {
    run, steps := FirstJobDeletes(ns, a, batch, Scrape(ns, b, other));
    var q := Client(Scrape(ns, b, other), [], false, false);
    ToldSecond(run[|steps|], Client(Scrape(ns, a, batch), [0, 1], false, false), q);
    run, steps := Tell(run, steps, 1);
    assert Asked(q, 2).ids == [2];
  }

  /** The second job's delete by URL is on its way while the first job saves and is done. */
  lemma DeleteOvertaken(ns: string, a: string, b: string, batch: seq<(VectorId, Meta)>, other: seq<(VectorId, Meta)>)
    returns (run: seq<World>, steps: seq<Step>)
    requires TaskOk(Scrape(ns, a, batch)) && TaskOk(Scrape(ns, b, other)) && batch != [] && a != b
    ensures IsRun(run, steps) && Initial(run[0])
    ensures var w := run[|steps|];
            && LogOk(w) && w.lost == {} && w.log == [0, 1, 2, 4] && |w.sent| == 5 && w.sent[3] == DropUrl(ns, b)
            && w.clients == Two(Client(Scrape(ns, a, batch), [0, 1, 4], false, false),
                                Client(Scrape(ns, b, other), [2, 3], true, false))
  {
    run, steps := DeleteSent(ns, a, b, batch, other);
    var q := Client(Scrape(ns, a, batch), [0, 1], false, false);
    ToldFirst(run[|steps|], q, Client(Scrape(ns, b, other), [2, 3], true, false));
    run, steps := Tell(run, steps, 0);
    assert Asked(q, 4).ids == [0, 1, 4];
  }

  lemma DeleteSent(ns: string, a: string, b: string, batch: seq<(VectorId, Meta)>, other: seq<(VectorId, Meta)>)
    returns (run: seq<World>, steps: seq<Step>)
    requires TaskOk(Scrape(ns, a, batch)) && TaskOk(Scrape(ns, b, other)) && batch != [] && a != b
    ensures IsRun(run, steps) && Initial(run[0])
    ensures var w := run[|steps|];
            && LogOk(w) && w.lost == {} && w.log == [0, 1, 2] && |w.sent| == 4 && w.sent[3] == DropUrl(ns, b)
            && w.clients == Two(Client(Scrape(ns, a, batch), [0, 1], false, false),
                                Client(Scrape(ns, b, other), [2, 3], true, false))
  {
    run, steps := TwoJobsUnderWay(ns, a, b, batch, other);
    var sent := Next(run[|steps|], Send(1));
    run, steps := Extend(run, steps, Send(1), sent);
    assert sent.clients[1].ids == [2, 3] && sent.clients.Keys == {0, 1};
  }

  /** The refresh is not exact when handlers interleave: the second job's delete by URL,
      arriving after the first job's save, takes that page's vectors, and both jobs end well. */
  lemma LateDeleteLosesPage(ns: string, a: string, b: string, batch: seq<(VectorId, Meta)>, other: seq<(VectorId, Meta)>, p: nat)
    returns (run: seq<World>, steps: seq<Step>)
    requires TaskOk(Scrape(ns, a, batch)) && TaskOk(Scrape(ns, b, other)) && a != b
    requires p < |batch| && batch[p].1.url == b
    ensures IsRun(run, steps) && Initial(run[0])
    ensures var w := run[|steps|];
            && IsJob(w, 0, ns, a, batch) && Done(w.clients[0]) && OnlyJob(w, 0, ns, a)
            && !ExactlyStored(w.index, ns, a, batch)
  {
    run, steps := DeleteOvertaken(ns, a, b, batch, other);
    var saved := run[|steps|];
    var late := Next(saved, Arrive(3));
    run, steps := Extend(run, steps, Arrive(3), late);
    var at := DoneIsExactIff(run, steps, |steps|, 0, ns, a, batch);
    assert late.log == [0, 1, 2, 4, 3] && late.log[at] == 4;
    assert Removes(late.sent[late.log[4]], ns, batch[p]);
  }
}
