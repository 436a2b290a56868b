/** Scrape jobs: pages are cut into chunks, the vectors of the source are replaced in
    the index, and the pages are charged to the source row. */
module Ingest {
  import opened Text
  import opened Options
  import opened Urls
  import opened Chunks
  import opened Crawl
  import Bfs

  // ---- chunks -----------------------------------------------------------

  datatype SourceType = Website | Document

  datatype RagChunk = RagChunk(
    url: string, pageTitle: string, text: string, chunkIndex: nat,
    widgetKey: string, sourceType: SourceType, sourceKey: string)

  function PageChunks(page: Page, texts: seq<string>, from: nat, widgetKey: string, sourceURL: string): seq<RagChunk>
    requires from <= |texts|
    decreases |texts| - from
  {
    if from == |texts| then []
    else [RagChunk(page.url, page.title, texts[from], from, widgetKey, Website, sourceURL)]
         + PageChunks(page, texts, from + 1, widgetKey, sourceURL)
  }

  function ChunksFrom(pages: seq<Page>, from: nat, widgetKey: string, sourceURL: string): seq<RagChunk>
    requires from <= |pages|
    decreases |pages| - from
  {
    if from == |pages| then []
    else PageChunks(pages[from], ChunksOf(pages[from].text, 500, 75), 0, widgetKey, sourceURL)
         + ChunksFrom(pages, from + 1, widgetKey, sourceURL)
  }

  method BuildRAGChunks(widgetKey: string, sourceURL: string, pages: seq<Page>) returns (chunks: seq<RagChunk>)
    ensures chunks == ChunksFrom(pages, 0, widgetKey, sourceURL)
  {
    chunks := [];
    for p := 0 to |pages|
      invariant chunks + ChunksFrom(pages, p, widgetKey, sourceURL) == ChunksFrom(pages, 0, widgetKey, sourceURL)
    {
      var page := pages[p];
      var pageChunks := ChunkText(page.text, 500, 75);
      ChunksStep(chunks, pages, p, widgetKey, sourceURL);
      chunks := NumberChunks(chunks, page, pageChunks, widgetKey, sourceURL);
    }
  }

  lemma ChunksStep(before: seq<RagChunk>, pages: seq<Page>, p: nat, widgetKey: string, sourceURL: string)
    requires p < |pages|
    ensures before + ChunksFrom(pages, p, widgetKey, sourceURL) ==
            (before + PageChunks(pages[p], ChunksOf(pages[p].text, 500, 75), 0, widgetKey, sourceURL))
            + ChunksFrom(pages, p + 1, widgetKey, sourceURL)
  {
    Associate(before, PageChunks(pages[p], ChunksOf(pages[p].text, 500, 75), 0, widgetKey, sourceURL),
              ChunksFrom(pages, p + 1, widgetKey, sourceURL));
  }

  /** The inner loop: the numbered chunks of one page behind those of the pages before. */
  method NumberChunks(before: seq<RagChunk>, page: Page, texts: seq<string>, widgetKey: string, sourceURL: string)
    returns (chunks: seq<RagChunk>)
    ensures chunks == before + PageChunks(page, texts, 0, widgetKey, sourceURL)
  {
    chunks := before;
    for i := 0 to |texts|
      invariant chunks + PageChunks(page, texts, i, widgetKey, sourceURL) ==
                before + PageChunks(page, texts, 0, widgetKey, sourceURL)
    {
      var chunk := RagChunk(page.url, page.title, texts[i], i, widgetKey, Website, sourceURL);
      Associate(chunks, [chunk], PageChunks(page, texts, i + 1, widgetKey, sourceURL));
      chunks := chunks + [chunk];
    }
  }

  // ---- vectors ----------------------------------------------------------

  /** Vector ids: the digest of the joined parts, taken as injective, or an id that
      some other scheme produced. */
  datatype VectorId =
    | Stable(namespace: string, sourceType: SourceType, sourceKey: string, url: string, chunkIndex: nat)
    | Foreign(text: string)

  datatype Meta = Meta(
    url: string, pageTitle: string, chunkIndex: nat, text: string,
    widgetKey: string, sourceType: SourceType, sourceKey: string)

  type Vectors = map<VectorId, Meta>

  function RemoveDashes(s: string): string {
    if s == "" then "" else (if s[0] == '-' then "" else [s[0]]) + RemoveDashes(s[1..])
  }

  function PineconeNamespace(userID: string): string {
    "user_" + RemoveDashes(Trim(userID, GO_SPACE))
  }

  function StripDoc(s: string): string {
    if "doc:" <= s then s[4..] else s
  }

  /** The key of a source, with the fallback for an empty one; key and URL are trimmed. */
  function KeyOrUrl(sourceType: SourceType, key: string, url: string): string {
    if key != "" then key
    else if sourceType == Document && "doc:" <= url then Trim(StripDoc(url), GO_SPACE)
    else url
  }

  function SourceKeyOf(c: RagChunk): string {
    KeyOrUrl(c.sourceType, Trim(c.sourceKey, GO_SPACE), Trim(c.url, GO_SPACE))
  }

  function StablePineconeVectorID(namespace: string, sourceType: SourceType, sourceKey: string, url: string, chunkIndex: nat): VectorId {
    Stable(Trim(namespace, GO_SPACE), sourceType, Trim(sourceKey, GO_SPACE), Trim(url, GO_SPACE), chunkIndex)
  }

  function VectorOf(namespace: string, c: RagChunk): (VectorId, Meta) {
    var ty, key := c.sourceType, SourceKeyOf(c);
    (StablePineconeVectorID(namespace, ty, key, c.url, c.chunkIndex),
     Meta(c.url, Trim(c.pageTitle, GO_SPACE), c.chunkIndex, Trim(c.text, GO_SPACE), Trim(c.widgetKey, GO_SPACE), ty, key))
  }

  /** The vector a chunk yields; blank chunks and failed embeddings yield none. */
  function Embedded(namespace: string, embeds: string -> bool, c: RagChunk): Option<(VectorId, Meta)> {
    var text := Trim(c.text, GO_SPACE);
    if text == "" || !embeds(text) then None else Some(VectorOf(namespace, c))
  }

  function Somes<X, Y>(f: X -> Option<Y>, xs: seq<X>, from: nat): seq<Y>
    requires from <= |xs|
    decreases |xs| - from
  {
    if from == |xs| then []
    else (if f(xs[from]).None? then [] else [f(xs[from]).value]) + Somes(f, xs, from + 1)
  }

  function Embedder(namespace: string, embeds: string -> bool): RagChunk -> Option<(VectorId, Meta)> {
    c => Embedded(namespace, embeds, c)
  }

  function VectorsOf(namespace: string, chunks: seq<RagChunk>, embeds: string -> bool): seq<(VectorId, Meta)> {
    Somes(Embedder(namespace, embeds), chunks, 0)
  }

  function Put(m: Vectors, vs: seq<(VectorId, Meta)>): Vectors {
    if vs == [] then m else Put(m, vs[..|vs| - 1])[vs[|vs| - 1].0 := vs[|vs| - 1].1]
  }

  function WithoutSource(m: Vectors, sourceType: SourceType, sourceKey: string): Vectors {
    map id | id in m && !(m[id].sourceType == sourceType && m[id].sourceKey == sourceKey) :: m[id]
  }

  function WithoutUrl(m: Vectors, url: string): Vectors {
    map id | id in m && m[id].url != url :: m[id]
  }

  // ---- ids and metadata agree -------------------------------------------

  /** Ids made by this program agree with the metadata they are stored with. */
  ghost predicate Agrees(id: VectorId, meta: Meta) {
    id.Stable? ==> meta.sourceType == id.sourceType && meta.sourceKey == id.sourceKey
  }

  ghost predicate Consistent(m: Vectors) {
    forall id :: id in m ==> Agrees(id, m[id])
  }

  lemma KeyOrUrlIsBare(sourceType: SourceType, key: string, url: string)
    requires IsBare(key, GO_SPACE) && IsBare(url, GO_SPACE)
    ensures IsBare(KeyOrUrl(sourceType, key, url), GO_SPACE)
  {
    TrimIsBare(StripDoc(url), GO_SPACE);
  }

  lemma KeyIsBare(c: RagChunk)
    ensures IsBare(SourceKeyOf(c), GO_SPACE)
  {
    TrimIsBare(c.sourceKey, GO_SPACE);
    TrimIsBare(c.url, GO_SPACE);
    KeyOrUrlIsBare(c.sourceType, Trim(c.sourceKey, GO_SPACE), Trim(c.url, GO_SPACE));
  }

  lemma VectorAgrees(namespace: string, c: RagChunk)
    ensures var v := VectorOf(namespace, c);
            v.0.Stable? && v.0.sourceType == v.1.sourceType == c.sourceType && v.0.sourceKey == v.1.sourceKey
  {
    KeyIsBare(c);
    TrimKeepsBare(SourceKeyOf(c), GO_SPACE);
  }

  ghost predicate AllAgree(vs: seq<(VectorId, Meta)>) {
    forall i :: 0 <= i < |vs| ==> Agrees(vs[i].0, vs[i].1)
  }

  ghost predicate YieldsAgreeing(f: RagChunk -> Option<(VectorId, Meta)>) {
    forall c :: f(c).Some? ==> Agrees(f(c).value.0, f(c).value.1)
  }

  lemma EmbedderAgrees(namespace: string, embeds: string -> bool)
    ensures YieldsAgreeing(Embedder(namespace, embeds))
  {
    var f := Embedder(namespace, embeds);
    forall c | f(c).Some? ensures Agrees(f(c).value.0, f(c).value.1) {
      assert f(c) == Some(VectorOf(namespace, c));
      VectorAgrees(namespace, c);
    }
  }

  lemma {:induction false} SomesAgree(f: RagChunk -> Option<(VectorId, Meta)>, xs: seq<RagChunk>, from: nat)
    requires from <= |xs| && YieldsAgreeing(f)
    ensures AllAgree(Somes(f, xs, from))
    decreases |xs| - from
  {
    if from == |xs| {
    } else {
      SomesAgree(f, xs, from + 1);
      SomesStep(f, xs, from);
    }
  }

  lemma {:induction false} PutKeepsConsistent(m: Vectors, vs: seq<(VectorId, Meta)>)
    requires Consistent(m) && AllAgree(vs)
    ensures Consistent(Put(m, vs))
  {
    if vs == [] {
    } else {
      PutKeepsConsistent(m, vs[..|vs| - 1]);
      assert Agrees(vs[|vs| - 1].0, vs[|vs| - 1].1);
    }
  }

  lemma SomesStep<X, Y>(f: X -> Option<Y>, xs: seq<X>, i: nat)
    requires i < |xs|
    ensures f(xs[i]).None? ==> Somes(f, xs, i) == Somes(f, xs, i + 1)
    ensures f(xs[i]).Some? ==> Somes(f, xs, i) == [f(xs[i]).value] + Somes(f, xs, i + 1)
  {
  }

  /** The loop of the upsert over the chunks, with what one round appends as a parameter. */
  method CollectSomes<X, Y>(f: X -> Option<Y>, xs: seq<X>) returns (ys: seq<Y>)
    ensures ys == Somes(f, xs, 0)
  {
    ys := [];
    for i := 0 to |xs|
      invariant ys + Somes(f, xs, i) == Somes(f, xs, 0)
    {
      var y := f(xs[i]);
      SomesStep(f, xs, i);
      if y.None? {
        continue;
      }
      Associate(ys, [y.value], Somes(f, xs, i + 1));
      ys := ys + [y.value];
    }
  }

  // ---- index requests ---------------------------------------------------

  /** What the configuration resolves to before any request is sent. */
  datatype Service = NoKey | InfoError | NoHost | Ready

  /** How an index request ends: done, done although an error is reported, or not done. */
  datatype Call = Success | Lost | Rejected

  type Index = map<string, Vectors>

  /** The index after a request, and whether the request is reported as a success. */
  datatype Answer = Answer(index: Index, ok: bool)

  function In(index: Index, ns: string): Vectors {
    if ns in index then index[ns] else map[]
  }

  ghost predicate AllConsistent(index: Index) {
    forall ns :: ns in index ==> Consistent(index[ns])
  }

  function DeleteBySource(service: Service, index: Index, ns: string, sourceType: SourceType, sourceKey: string, call: Call): Answer {
    if Trim(sourceKey, GO_SPACE) == "" || service.NoKey? || service.NoHost? then Answer(index, true)
    else if service.InfoError? then Answer(index, false)
    else Answer(if call.Rejected? then index
                else index[ns := WithoutSource(In(index, ns), sourceType, Trim(sourceKey, GO_SPACE))],
                call.Success?)
  }

  function DeleteByUrl(service: Service, index: Index, ns: string, url: string, call: Call): Answer {
    if Trim(url, GO_SPACE) == "" || service.NoKey? || service.NoHost? then Answer(index, true)
    else if service.InfoError? then Answer(index, false)
    else Answer(if call.Rejected? then index else index[ns := WithoutUrl(In(index, ns), Trim(url, GO_SPACE))], call.Success?)
  }

  function Upsert(service: Service, index: Index, ns: string, vectors: seq<(VectorId, Meta)>, call: Call): Answer {
    if service.NoKey? then Answer(index, true)
    else if !service.Ready? then Answer(index, false)
    else if vectors == [] then Answer(index, true)
    else Answer(if call.Rejected? then index else index[ns := Put(In(index, ns), vectors)], call.Success?)
  }

  /** The three requests of a job; the second one may fail without stopping the job. */
  function Replace(service: Service, index: Index, ns: string, sourceURL: string, vectors: seq<(VectorId, Meta)>,
                   delSource: Call, delUrl: Call, upsert: Call): Answer {
    var d := DeleteBySource(service, index, ns, Website, sourceURL, delSource);
    if !d.ok then d
    else Upsert(service, DeleteByUrl(service, d.index, ns, sourceURL, delUrl).index, ns, vectors, upsert)
  }

  lemma DeletesKeepConsistent(m: Vectors, sourceType: SourceType, key: string, url: string)
    requires Consistent(m)
    ensures Consistent(WithoutSource(m, sourceType, key)) && Consistent(WithoutUrl(m, url))
  {
  }

  lemma DeleteBySourceKeepsConsistent(service: Service, index: Index, ns: string, sourceType: SourceType, key: string, call: Call)
    requires AllConsistent(index)
    ensures AllConsistent(DeleteBySource(service, index, ns, sourceType, key, call).index)
  {
    DeletesKeepConsistent(In(index, ns), sourceType, Trim(key, GO_SPACE), "");
  }

  lemma DeleteByUrlKeepsConsistent(service: Service, index: Index, ns: string, url: string, call: Call)
    requires AllConsistent(index)
    ensures AllConsistent(DeleteByUrl(service, index, ns, url, call).index)
  {
    DeletesKeepConsistent(In(index, ns), Website, "", Trim(url, GO_SPACE));
  }

  lemma UpsertOfAgreeing(service: Service, index: Index, ns: string, vs: seq<(VectorId, Meta)>, call: Call)
    requires AllConsistent(index) && AllAgree(vs)
    ensures AllConsistent(Upsert(service, index, ns, vs, call).index)
  {
    PutKeepsConsistent(In(index, ns), vs);
  }

  /** The requests of this program keep every namespace consistent, whatever they answer. */
  lemma UpsertKeepsConsistent(service: Service, index: Index, ns: string, chunks: seq<RagChunk>, embeds: string -> bool, call: Call)
    requires AllConsistent(index)
    ensures AllConsistent(Upsert(service, index, ns, VectorsOf(ns, chunks, embeds), call).index)
  {
    EmbedderAgrees(ns, embeds);
    SomesAgree(Embedder(ns, embeds), chunks, 0);
    UpsertOfAgreeing(service, index, ns, VectorsOf(ns, chunks, embeds), call);
  }

  /** The two requests of a removal; the second one may fail without stopping it. */
  function Removal(service: Service, index: Index, ns: string, key: string, delSource: Call, delUrl: Call): Answer {
    var d := DeleteBySource(service, index, ns, Website, key, delSource);
    if d.ok then Answer(DeleteByUrl(service, d.index, ns, key, delUrl).index, true) else d
  }

  // ---- the store --------------------------------------------------------

  datatype Source = Source(title: string, scrapedPages: nat)
  datatype Status = Queued | Scraping | Indexing | Done | Failed
  datatype Job = Job(status: Status, progress: int, completed: bool)

  function Clamp(progress: int): int {
    if progress < 0 then 0 else if progress > 100 then 100 else progress
  }

  function SetJob(jobs: map<string, Job>, id: string, status: Status, progress: int): map<string, Job> {
    if id in jobs then jobs[id := Job(status, Clamp(progress), status == Done || status == Failed)] else jobs
  }

  /** A job row that is closed is done or failed, completed, and at 100 percent. */
  lemma ClosedJob(jobs: map<string, Job>, id: string, done: bool)
    ensures var after := SetJob(jobs, id, if done then Done else Failed, 100);
            && after.Keys == jobs.Keys && (forall k :: k in after && k != id ==> after[k] == jobs[k])
            && (id in after ==> after[id] == Job(if done then Done else Failed, 100, true))
  {
  }

  lemma SetJobTwice(jobs: map<string, Job>, id: string, s: Status, p: int, t: Status, q: int)
    ensures SetJob(SetJob(jobs, id, s, p), id, t, q) == SetJob(jobs, id, t, q)
  {
  }

  /** The pages a job crawls: none without budget or with an invalid URL. */
  function Reached(net: string -> Response, start: Option<Url>, maxPages: int): seq<Page> {
    var n := Normalize(start);
    if maxPages <= 0 || n.None? then [] else CrawlPages(net, BaseHost(n.value), Print(n.value), maxPages)
  }

  function TitleOf(sourceURL: string, first: Page): string {
    if Trim(first.title, GO_SPACE) != "" then Trim(first.title, GO_SPACE) else sourceURL
  }

  function Charged(sources: map<(string, string), Source>, userID: string, sourceURL: string, pages: seq<Page>): map<(string, string), Source>
    requires pages != []
  {
    if (userID, sourceURL) in sources then
      sources[(userID, sourceURL) := Source(TitleOf(sourceURL, pages[0]), |pages|)]
    else sources
  }

  datatype DeleteReply = Malformed | IndexFailed | Removed

  class Store {
    const service: Service
    const embeds: string -> bool
    var index: Index
    var sources: map<(string, string), Source>
    var jobs: map<string, Job>

    constructor (service: Service, embeds: string -> bool)
      ensures this.service == service && this.embeds == embeds
      ensures index == map[] && sources == map[] && jobs == map[] && AllConsistent(index)
    {
      this.service, this.embeds := service, embeds;
      index, sources, jobs := map[], map[], map[];
    }

    method PineconeDeleteBySource(userID: string, sourceType: SourceType, sourceKey: string, call: Call) returns (ok: bool)
      modifies this`index
      ensures Answer(index, ok) ==
              DeleteBySource(service, old(index), PineconeNamespace(userID), sourceType, sourceKey, call)
      ensures AllConsistent(old(index)) ==> AllConsistent(index)
    {
      if AllConsistent(index) {
        DeleteBySourceKeepsConsistent(service, index, PineconeNamespace(userID), sourceType, sourceKey, call);
      }
      if Trim(sourceKey, GO_SPACE) == "" || service.NoKey? { return true; }
      if service.InfoError? { return false; }
      if service.NoHost? { return true; }
      var ns := PineconeNamespace(userID);
      if !call.Rejected? {
        index := index[ns := WithoutSource(In(index, ns), sourceType, Trim(sourceKey, GO_SPACE))];
      }
      return call.Success?;
    }

    method PineconeDeleteByURL(userID: string, sourceURL: string, call: Call) returns (ok: bool)
      modifies this`index
      ensures Answer(index, ok) == DeleteByUrl(service, old(index), PineconeNamespace(userID), sourceURL, call)
      ensures AllConsistent(old(index)) ==> AllConsistent(index)
    {
      if AllConsistent(index) {
        DeleteByUrlKeepsConsistent(service, index, PineconeNamespace(userID), sourceURL, call);
      }
      if Trim(sourceURL, GO_SPACE) == "" || service.NoKey? { return true; }
      if service.InfoError? { return false; }
      if service.NoHost? { return true; }
      var ns := PineconeNamespace(userID);
      if !call.Rejected? { index := index[ns := WithoutUrl(In(index, ns), Trim(sourceURL, GO_SPACE))]; }
      return call.Success?;
    }

    method PineconeUpsertChunks(userID: string, chunks: seq<RagChunk>, call: Call)
      returns (ok: bool, ghost vectors: seq<(VectorId, Meta)>)
      modifies this`index
      ensures vectors == VectorsOf(PineconeNamespace(userID), chunks, embeds)
      ensures Answer(index, ok) == Upsert(service, old(index), PineconeNamespace(userID), vectors, call)
      ensures AllConsistent(old(index)) ==> AllConsistent(index)
    {
      var ns := PineconeNamespace(userID);
      vectors := VectorsOf(ns, chunks, embeds);
      if AllConsistent(index) { UpsertKeepsConsistent(service, index, ns, chunks, embeds, call); }
      if service.NoKey? { return true, vectors; }
      if service.InfoError? || service.NoHost? { return false, vectors; }
      var batch := CollectSomes(Embedder(ns, embeds), chunks);
      if |batch| == 0 { return true, vectors; }
      if !call.Rejected? { index := index[ns := Put(In(index, ns), batch)]; }
      return call.Success?, vectors;
    }

    method UpdateScrapeJob(jobID: string, status: Status, progress0: int)
      modifies this`jobs
      ensures jobs == SetJob(old(jobs), jobID, status, progress0)
      ensures jobs.Keys == old(jobs).Keys && forall id :: id in jobs && id != jobID ==> jobs[id] == old(jobs)[id]
      ensures jobID in jobs ==>
                && jobs[jobID].status == status && (jobs[jobID].completed <==> status == Done || status == Failed)
                && (0 <= progress0 <= 100 ==> jobs[jobID].progress == progress0)
                && (progress0 < 0 ==> jobs[jobID].progress == 0) && (progress0 > 100 ==> jobs[jobID].progress == 100)
    {
      var progress := progress0;
      if progress < 0 { progress := 0; }
      if progress > 100 { progress := 100; }
      if jobID in jobs {
        jobs := jobs[jobID := Job(status, progress, status == Done || status == Failed)];
      }
    }

    /** The indexing half of a job: delete by source, delete by URL, upsert. */
    method ReplaceVectors(userID: string, sourceURL: string, jobID: string, chunks: seq<RagChunk>,
                          delSource: Call, delUrl: Call, upsert: Call)
      returns (ok: bool, ghost vectors: seq<(VectorId, Meta)>, ghost progress: int)
      modifies this`index, this`jobs
      ensures jobs == SetJob(old(jobs), jobID, Indexing, progress)
      ensures vectors == VectorsOf(PineconeNamespace(userID), chunks, embeds)
      ensures Answer(index, ok) ==
              Replace(service, old(index), PineconeNamespace(userID), sourceURL, vectors, delSource, delUrl, upsert)
      ensures AllConsistent(old(index)) ==> AllConsistent(index)
    {
      vectors := VectorsOf(PineconeNamespace(userID), chunks, embeds);
      UpdateScrapeJob(jobID, Indexing, 70);
      ok := PineconeDeleteBySource(userID, Website, sourceURL, delSource);
      if !ok {
        return false, vectors, 70;
      }
      var _ := PineconeDeleteByURL(userID, sourceURL, delUrl);
      SetJobTwice(old(jobs), jobID, Indexing, 70, Indexing, 85);
      UpdateScrapeJob(jobID, Indexing, 85);
      ok, vectors := PineconeUpsertChunks(userID, chunks, upsert);
      progress := 85;
    }

    /** The first half: crawl and cut. Without pages there are no chunks. */
    method CrawlAndCut(sourceURL: string, start: Option<Url>, jobID: string, maxPages: int, widgetKey: string,
                       net: string -> Response) returns (pages: seq<Page>, chunks: seq<RagChunk>, ghost progress: int)
      modifies this`jobs
      ensures jobs == if progress == 0 then old(jobs) else SetJob(old(jobs), jobID, Scraping, progress)
      ensures pages == Reached(net, start, maxPages)
      ensures chunks == ChunksFrom(pages, 0, widgetKey, sourceURL)
      ensures pages == [] ==> chunks == []
    {
      if maxPages <= 0 {
        return [], [], 0;
      }
      UpdateScrapeJob(jobID, Scraping, 20);
      var crawl, _ := CrawlWebsite(net, start, maxPages);
      if !crawl.Pages? {
        return [], [], 20;
      }
      SetJobTwice(old(jobs), jobID, Scraping, 20, Scraping, 55);
      UpdateScrapeJob(jobID, Scraping, 55);
      pages := crawl.pages;
      chunks := BuildRAGChunks(widgetKey, sourceURL, pages);
      progress := 55;
    }

    /** The row update of a finished job; a row deleted meanwhile stays deleted. */
    method ChargeSource(userID: string, sourceURL: string, pages: seq<Page>)
      requires pages != []
      modifies this`sources
      ensures sources == Charged(old(sources), userID, sourceURL, pages)
    {
      var title := sourceURL;
      if Trim(pages[0].title, GO_SPACE) != "" {
        title := Trim(pages[0].title, GO_SPACE);
      }
      if (userID, sourceURL) in sources {
        sources := sources[(userID, sourceURL) := Source(title, |pages|)];
      }
    }

    /** The second half of a job: index the chunks, charge the pages. */
    method IndexAndCharge(userID: string, sourceURL: string, jobID: string, pages: seq<Page>, chunks: seq<RagChunk>,
                          delSource: Call, delUrl: Call, upsert: Call)
      returns (done: bool, ghost vectors: seq<(VectorId, Meta)>, ghost indexed: int)
      requires pages == [] ==> chunks == []
      modifies this`index, this`sources, this`jobs
      ensures jobs == if chunks == [] then old(jobs) else SetJob(old(jobs), jobID, Indexing, indexed)
      ensures chunks == [] ==> !done && index == old(index)
      ensures chunks != [] ==>
                && vectors == VectorsOf(PineconeNamespace(userID), chunks, embeds)
                && Answer(index, done) ==
                   Replace(service, old(index), PineconeNamespace(userID), sourceURL, vectors, delSource, delUrl, upsert)
      ensures sources == if done then Charged(old(sources), userID, sourceURL, pages) else old(sources)
      ensures AllConsistent(old(index)) ==> AllConsistent(index)
    {
      vectors, indexed := [], 0;
      done := false;
      if |chunks| != 0 {
        done, vectors, indexed := ReplaceVectors(userID, sourceURL, jobID, chunks, delSource, delUrl, upsert);
      }
      if done {
        ChargeSource(userID, sourceURL, pages);
      }
    }

    /** One scrape job from crawl to charge. `net` is the crawled web, `start` the
        parse of the source URL, and the three calls are how the index answers. */
    method RunScrapeJob(userID: string, sourceURL: string, start: Option<Url>, jobID: string, maxPages: int,
                        widgetKey: string, net: string -> Response, delSource: Call, delUrl: Call, upsert: Call)
      returns (done: bool, ghost pages: seq<Page>, ghost chunks: seq<RagChunk>, ghost vectors: seq<(VectorId, Meta)>)
      modifies this`index, this`sources, this`jobs
      ensures jobs == SetJob(old(jobs), jobID, if done then Done else Failed, 100)
      ensures pages == Reached(net, start, maxPages)
      ensures chunks == ChunksFrom(pages, 0, widgetKey, sourceURL)
      ensures chunks == [] ==> !done && index == old(index)
      ensures chunks != [] ==>
                && vectors == VectorsOf(PineconeNamespace(userID), chunks, embeds)
                && Answer(index, done) ==
                   Replace(service, old(index), PineconeNamespace(userID), sourceURL, vectors, delSource, delUrl, upsert)
      ensures done ==> pages != []
      ensures sources == if done then Charged(old(sources), userID, sourceURL, pages) else old(sources)
      ensures AllConsistent(old(index)) ==> AllConsistent(index)
    {
      var crawled, cut, progress := CrawlAndCut(sourceURL, start, jobID, maxPages, widgetKey, net);
      pages, chunks := crawled, cut;
      ghost var indexed;
      done, vectors, indexed := IndexAndCharge(userID, sourceURL, jobID, crawled, cut, delSource, delUrl, upsert);
      CloseJob(old(jobs), jobID, progress, indexed, if done then Done else Failed);
      UpdateScrapeJob(jobID, if done then Done else Failed, 100);
    }

    method RemoveVectors(userID: string, key: string, delSource: Call, delUrl: Call) returns (ok: bool)
      modifies this`index
      ensures Answer(index, ok) == Removal(service, old(index), PineconeNamespace(userID), key, delSource, delUrl)
      ensures AllConsistent(old(index)) ==> AllConsistent(index)
    {
      ok := PineconeDeleteBySource(userID, Website, key, delSource);
      if ok {
        var _ := PineconeDeleteByURL(userID, key, delUrl);
      }
    }

    /** The row goes only after the vectors; a failing delete by URL is ignored. */
    method DeleteKey(userID: string, key: string, delSource: Call, delUrl: Call) returns (removed: bool)
      modifies this`index, this`sources
      ensures Answer(index, removed) == Removal(service, old(index), PineconeNamespace(userID), key, delSource, delUrl)
      ensures sources == if removed then old(sources) - {(userID, key)} else old(sources)
      ensures AllConsistent(old(index)) ==> AllConsistent(index)
    {
      removed := RemoveVectors(userID, key, delSource, delUrl);
      if removed {
        sources := sources - {(userID, key)};
      }
    }

    /** Any spelling of a URL addresses the row of its normal form. */
    method DeleteSource(userID: string, raw: Option<Url>, delSource: Call, delUrl: Call)
      returns (reply: DeleteReply, ghost key: string)
      modifies this`index, this`sources
      ensures reply == Malformed <==> Normalize(raw).None?
      ensures reply == Malformed ==> index == old(index) && sources == old(sources)
      ensures reply != Malformed ==>
                && key == Print(Normalize(raw).value)
                && Answer(index, reply == Removed) ==
                   Removal(service, old(index), PineconeNamespace(userID), key, delSource, delUrl)
                && sources == if reply == Removed then old(sources) - {(userID, key)} else old(sources)
      ensures AllConsistent(old(index)) ==> AllConsistent(index)
    {
      var normalized := NormalizeScrapeURL(raw);
      if normalized.None? {
        return Malformed, "";
      }
      var sourceURL := Print(normalized.value);
      key := sourceURL;
      var removed := DeleteKey(userID, sourceURL, delSource, delUrl);
      reply := if removed then Removed else IndexFailed;
    }
  }

  /** Whatever the job row went through, the closing update decides it. */
  lemma CloseJob(jobs: map<string, Job>, id: string, p: int, q: int, t: Status)
    ensures SetJob(SetJob(jobs, id, Scraping, p), id, t, 100) == SetJob(jobs, id, t, 100)
    ensures SetJob(SetJob(jobs, id, Indexing, q), id, t, 100) == SetJob(jobs, id, t, 100)
    ensures SetJob(SetJob(SetJob(jobs, id, Scraping, p), id, Indexing, q), id, t, 100) == SetJob(jobs, id, t, 100)
  {
    SetJobTwice(jobs, id, Indexing, q, t, 100);
    SetJobTwice(SetJob(jobs, id, Scraping, p), id, Indexing, q, t, 100);
    SetJobTwice(jobs, id, Scraping, p, t, 100);
  }
}
