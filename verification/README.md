# Konvoq backend: models and proofs

A Dafny 4.11 project that models the stateful parts of the Konvoq chat-widget
backend and of its embeddable widget, and proves what they are meant to guarantee.
`dafny verify dfyconfig.toml` checks all of it.

Every component has the same layers. Functions on values say what one step
computes. Methods and classes follow the program's own code, loops and
assignments included, and are proved equal to those functions. Lemmas prove what
the program promises about the functions: over every input, every run, or every
interleaving of the SQL statements of concurrent handlers. Where a promised
property turned out false of the code, a lemma gives a concrete run that breaks
it, and another lemma the exact condition under which it holds.

| files | component |
|---|---|
| `Text`, `Options`, `Listing`, `Splitting` | trimming, words, joining, sorted listings, splitting at a separator |
| `Percent`, `Urls`, `Chunks`, `Bfs`, `Crawl` | percent-encoding over UTF-8, URL normal form, word windows, breadth-first crawl with a page budget |
| `Ingest`, `Refresh`, `IndexRaces` | the scrape job, what it leaves in the vector index, alone and when requests of other handlers interleave |
| `Quota` | the page quota |
| `Stream`, `Answer` | the widget's incremental event parser, and the server that prints for it |
| `Outbox`, `OutboxRuns` | webhook delivery with retries: tick by tick, and statement by statement |
| `WidgetCache`, `CacheRaces` | the widget configuration cache: atomic handlers, and interleaved ones on a clock |
| `Chat`, `Sessions`, `Codes` | conversations, login sessions and verification codes in the database |
| `Migrator` | schema migrations under crashes and overlapping runs |
| `Quoting`, `PrettyLog` | the log handler and its `key=value` tail |

What the proofs found out about the code:

- Normalisation trims the decoded path only, so a slash at the end makes the path be
  encoded anew: `/wiki/Foo_(bar)` keeps its parentheses and `/wiki/Foo_(bar)/` does not,
  and the two address two source rows (`Urls.AppendedSlashIff`, `Urls.ParenthesesSplitRows`).
  So does a bare `?`, which survives normalisation (`Urls.BareQuestionMarkSplitsRows`).
  `Urls.SameRowIff` has the exact condition.
- Links are compared by host name before the host is trimmed, so a crawl stays on its
  host exactly when the host's name has no blank at either end
  (`Urls.LinksStayInsideIff`).
- Two overlapping scrapes can each spend the whole page quota
  (`Quota.OverlapExceedsLimit`). The user stays within the limit, whatever the jobs
  under way do, exactly when the rows fit with every row at the largest budget of a
  job on it (`Quota.StaysWithinIff`).
- A job that ends well can have lost pages: the delete by URL of another source's job,
  or the removal of that source, takes a page that both have crawled
  (`IndexRaces.LateDeleteLosesPage`). The refresh is exact if and only if no such
  request arrives after the job's own upsert (`IndexRaces.DoneIsExactIff`).
- A manual retry can leave an event `retrying` with no attempt, exactly when it hits the
  event in flight before its last attempt (`OutboxRuns.RetryMayLeaveBareIff`). It can be
  followed by nine deliveries instead of eight exactly when it also comes before that
  delivery (`OutboxRuns.RetryMayExceedIff`).
- With interleaved handlers an entry is stale after a write and its deletion exactly when
  it was read before the write and set after the deletion (`CacheRaces.StaleEntryIff`).
  A reply is at most 601999 milliseconds old when it is determined; counted from
  serving, a stall comes on top, so ten minutes and two seconds hold for stalls of at
  most a millisecond (`CacheRaces.StalenessIff`). Deleting a widget keeps the cache
  coherent only when the widget had no entry (`WidgetCache.DeleteIsCoherentIff`).
- Deleting a widget while one of its requests is in flight can lose a message count
  (`Chat.DeletedWidgetLosesCount`, `Chat.CountIsMissedIff`, `Chat.AccountingIsExactIff`).
- A slow refresh that signed in the same second brings a rotated token pair back
  (`Sessions.SlowRefreshRestoresOldPair`); a past token stays rejected exactly when
  no refresh in flight carries it (`Sessions.RejectedForeverIff`).
- The limit of three verification codes an hour never refuses a request
  (`Codes.RequestIsNeverRefused`).
- The migration lock is not needed for safety: overlapping migrators still execute
  every script at most once (`Migrator.ExactlyOnce`).
- Log tails whose keys have no `=` are never ambiguous (`Quoting.PrintTailInjective`);
  with one, two lists can print the same tail (`Quoting.AmbiguousTail`). The reader given
  here reads a tail back exactly when no key contains `=`; blanks and quotes in keys do
  no harm to it (`Quoting.TailReadsBackIff`).

## Model

| member | source | states |
|---|---|---|
| `Urls.NormalizeScrapeURL` | controller/scraper_controller.go:272-291 | the field assignments compute the normal form, and refuse a URL that does not parse or is neither http nor https |
| `Urls.NormalFormIff` | controller/scraper_controller.go:277-288 | normalising reaches the normal form and moves exactly the URLs that are not in it |
| `Urls.NormalizeIdempotent` | controller/scraper_controller.go:272-291 | normalising twice is normalising once |
| `Percent.UnescapeEscaped` | controller/scraper_controller.go:290 | a host or path that was encoded for printing decodes to itself, whatever characters it has |
| `Urls.EscapedPathFacts` | controller/scraper_controller.go:290 | the printed path is a valid encoding of the path, whether the written form was kept or not |
| `Urls.PrintInjective` | controller/scraper_controller.go:290 | the printed key of a source row determines scheme, host, path, the path's printed form and the bare question mark |
| `Urls.PlainUrlPrints` | controller/scraper_controller.go:290 | a URL of plain characters is printed as it stands: scheme, host, path and bare question mark |
| `Urls.KeyIsStable` | controller/scraper_controller.go:186-194 | printing a normalised URL, parsing it again and normalising changes nothing, so a job that starts from the stored key crawls the same URL |
| `Urls.ReparsedSharesRow` | controller/scraper_controller.go:349 | printing and parsing a URL before normalising it leads to the same key |
| `Urls.SameRowIff` | controller/scraper_controller.go:573-586 | two spellings address one row exactly when scheme, host up to case and outer blanks, the bare question mark, the decoded path up to trailing slashes and what is kept of its written form agree |
| `Urls.AppendedSlashIff` | controller/scraper_controller.go:284-290 | one more slash at the end of the path leads to another row exactly when the path has a valid written form unlike the printer's own and no slash to trim |
| `Urls.ParenthesesSplitRows` | controller/scraper_controller.go:284-290 | counterexample: "/a(b)" is printed as it stands, "/a(b)/" as "/a%28b%29" |
| `Urls.BareQuestionMarkSplitsRows` | controller/scraper_controller.go:277-290 | counterexample: a bare question mark alone makes a second row |
| `Urls.ExtractInternalLinks` | controller/scraper_controller.go:311-362 | the link loop, set and sort give the increasing listing of exactly the crawlable normal links of the page |
| `Urls.CrawlableLink` | controller/scraper_controller.go:342-353 | one href passes the host, extension and scheme filters, then is normalised, or is dropped |
| `Urls.LinksListing` | controller/scraper_controller.go:316-361 | links are sorted, without repetition, and are all the links there are |
| `Urls.LinkIff` | controller/scraper_controller.go:316-354 | the links of a page are exactly the keys of its hrefs that resolve to a web URL of the crawled host, whatever the case, with a path that does not end in a listed extension |
| `Urls.SkippedIff` | controller/scraper_controller.go:364-375 | a path is left out exactly if, outer blanks aside, it ends in a listed extension in whatever case |
| `Urls.HostnameOf` | controller/scraper_controller.go:194 | a port of any digits and brackets do not belong to the name of a host; anything else does |
| `Urls.LinksAreInternal` | controller/scraper_controller.go:342-353 | every extracted link is a printed normal URL, on the host of the crawl if that host's name has no outer blank |
| `Urls.LinksStayInsideIff` | controller/scraper_controller.go:343-353 | all links of all pages stay on the host of the crawl exactly when that host's name has no outer blank |
| `Listing.SortedKeys` | controller/scraper_controller.go:356-361 | listing a set of strings in any order and sorting gives its increasing listing |
| `Listing.ListingUnique` | controller/scraper_controller.go:356-361 | a set has one increasing listing, so map iteration order cannot show |
| `Text.LessIff` | controller/scraper_controller.go:360 | the order of the listing is lexicographic |
| `Chunks.ChunkText` | controller/scraper_controller.go:397-425 | the defaulting and the loop compute the windows of the words of a text |
| `Chunks.CutWindows` | controller/scraper_controller.go:413-423 | the loop cuts every window once and stops at the first that reaches the end |
| `Chunks.WindowsRecover` | controller/scraper_controller.go:413-423 | every later window adds a word, none exceeds the size, and cutting off the overlaps gives the words back |
| `Chunks.ChunksLoseNothing` | controller/scraper_controller.go:397-425 | for every text and every two integer sizes: re-reading the chunks recovers the word list, sizes are bounded, the count is at most words/step + 1, and there are none exactly for a blank text |
| `Chunks.DefaultSizes` | controller/scraper_controller.go:398-411 | a size that is not positive counts as 500, an overlap that does not fit as 75, or as none if 75 do not fit; sizes that fit are taken |
| `Chunks.ChunksAreNotBlank` | controller/scraper_controller.go:397-425 | no chunk is blank |
| `Bfs.Frontier` | controller/scraper_controller.go:200-262 | every reachable page not yet listed has a queued ancestor no farther than itself, although the queue may repeat entries |
| `Bfs.NextKeepsInv` | controller/scraper_controller.go:201-262 | one pop keeps the breadth-first invariant: queue sorted by distance and spanning two levels, visited closed under links up to the queue |
| `Bfs.RunKeepsInv` | controller/scraper_controller.go:200-262 | the whole loop keeps it and ends with the budget used up or the queue empty |
| `Bfs.CrawlIsBreadthFirst` | controller/scraper_controller.go:196-263 | over any graph: each page once, in non-decreasing shortest distance; a reachable page is missing only when the budget ran out, and is no nearer than a listed one |
| `Bfs.RunExtends` | controller/scraper_controller.go:200-262 | pages are only appended and never exceed the budget, on any graph, infinite ones included |
| `Bfs.BudgetPrefix` | controller/scraper_controller.go:200-262 | a run with a smaller budget returns the beginning of a run with a larger one |
| `Crawl.CrawlWebsite` | controller/scraper_controller.go:185-270 | the crawl from the normalised start, with its error cases, and with every URL it asks for |
| `Crawl.CrawlFrom` | controller/scraper_controller.go:196-263 | the loop over queue, visited set and page list computes the pages and marks exactly the visited set of the search |
| `Crawl.VisitPage` | controller/scraper_controller.go:207-256 | failed pages, pages with a status of 300 or above and blank pages are skipped and have no links; a kept page carries its title, text and links |
| `Crawl.PushUnvisited` | controller/scraper_controller.go:258-262 | only unvisited links are queued, repetitions included |
| `Crawl.CrawlIsExact` | controller/scraper_controller.go:196-263 | the crawl is breadth-first search over successful pages with pairwise distinct URLs |
| `Crawl.UnexhaustedCrawlIsComplete` | controller/scraper_controller.go:200-263 | if the budget is not used up, a URL is returned exactly when it is successful and reachable |
| `Crawl.PagesAreAnswers` | controller/scraper_controller.go:207-256 | every page is an answer below 300: stripped text and title of HTML, plain text and no title otherwise, and never a blank text |
| `Crawl.PageIff` | controller/scraper_controller.go:203-256 | a URL yields a page exactly when the crawl asked for it and it answered below 300 with a text that is not blank, whatever the budget |
| `Crawl.FetchedIff` | controller/scraper_controller.go:200-262 | with budget left, the crawl asks exactly for the start and for the links of its HTML pages |
| `Crawl.EdgeIff` | controller/scraper_controller.go:234-262 | links are followed only from HTML answers below 300 that have text |
| `Crawl.SmallerBudgetIsPrefix` | controller/scraper_controller.go:200-263 | budget k gives a prefix of any larger budget |
| `Crawl.VisitsAreInternal` | controller/scraper_controller.go:200-206 | every URL a crawl visits, whether it yields a page or not, is a normal URL, on the start host if that host's name has no outer blank |
| `Crawl.PagesAreInternal` | controller/scraper_controller.go:203-256 | every page of a crawl is one of its visits, with a normal URL, on the start host under the same condition, and has text |
| `Crawl.PlainHostIsBare` | controller/scraper_controller.go:190-194 | a start URL whose host has no blank at all meets that condition |
| `Ingest.BuildRAGChunks` | controller/scraper_controller.go:377-395 | the nested loops give one chunk per window, numbered per page, keyed to the source |
| `Ingest.CollectSomes` | controller/integrations.go:582-620 | the upsert loop keeps, in order, exactly the chunks with text and an embedding |
| `Ingest.VectorAgrees` | controller/integrations.go:588-619 | the id of every vector names the source type and key that its metadata has, for website and document chunks alike |
| `Ingest.UpsertKeepsConsistent` | controller/integrations.go:569-654 | an upsert keeps every namespace consistent (ids agree with metadata), with failed embeddings and failed requests too; so does every method of the store, from the empty index on |
| `Ingest.Store.PineconeDeleteBySource` | controller/integrations.go:698-718 | deletes exactly the vectors of one source type and key of one namespace, or nothing |
| `Ingest.Store.PineconeDeleteByURL` | controller/integrations.go:720-739 | deletes exactly the vectors of one URL of one namespace, or nothing |
| `Ingest.Store.PineconeUpsertChunks` | controller/integrations.go:569-654 | stores one vector per embeddable chunk under its stable id |
| `Ingest.Store.UpdateScrapeJob` | controller/scraper_controller.go:427-444 | clamps progress to 0..100 and completes the job on done and failed |
| `Ingest.ClosedJob` | controller/scraper_controller.go:129-183 | a closed job row is done or failed, completed and at 100 percent; no other row changes |
| `Ingest.Store.ReplaceVectors` | controller/scraper_controller.go:156-171 | delete by source, delete by URL, upsert; only the first and the last may fail the job |
| `Ingest.Store.CrawlAndCut` | controller/scraper_controller.go:129-150 | without budget, on a crawl error and without pages there are no chunks |
| `Ingest.Store.ChargeSource` | controller/scraper_controller.go:173-178 | the row gets the page count and the first title; a row deleted meanwhile stays deleted |
| `Ingest.Store.IndexAndCharge` | controller/scraper_controller.go:151-182 | charges the pages only after the index was replaced |
| `Ingest.Store.RunScrapeJob` | controller/scraper_controller.go:129-183 | a job ends done or failed at 100 percent; index, rows and job row are functions of the old state, the web and the index's answers |
| `Ingest.Store.DeleteKey` | controller/scraper_controller.go:577-586 | the source row goes only if the vectors of its key could be deleted |
| `Ingest.Store.DeleteSource` | controller/scraper_controller.go:560-593 | any spelling removes vectors and row of its normal form; a malformed URL changes nothing |
| `Refresh.ChunksFacts` | controller/scraper_controller.go:377-395 | the chunks of distinct pages have pairwise distinct (URL, index) keys, carry the source key, and are not blank |
| `Refresh.ChunksCarryPages` | controller/scraper_controller.go:377-395 | the chunks of a page stand together, in order, under its URL and title, have at most 500 words each and carry exactly the words of the page once the overlaps of 75 are cut off |
| `Refresh.PutFacts` | controller/integrations.go:622-653 | upserting a batch with distinct ids stores exactly the batch over the old vectors |
| `Refresh.PutIsRefresh` | controller/integrations.go:569-654 | after the deletes, the upsert makes the source's vectors exactly the batch, and leaves everything else as the deletes left it |
| `Refresh.BatchedIff` | controller/integrations.go:582-602 | a chunk of a crawl is in the batch exactly when its embedding succeeds; if all do, the batch has all chunks in order |
| `Refresh.PipelineVectors` | controller/scraper_controller.go:149-167 | the batch of a crawl has one vector per embedded chunk, in order, with distinct ids, all keyed to the source |
| `Refresh.FinishedJobRefreshes` | controller/scraper_controller.go:149-171 | whichever embeddings succeed, a finished job leaves exactly one vector per embedded chunk under the source, with the chunk's text, title, URL, number and widget, ids distinct; of the rest only vectors whose URL is the source URL are lost; other namespaces are untouched |
| `Refresh.GoodJobRefreshes` | controller/scraper_controller.go:149-171 | a job that ends well either had no API key and left the index alone, or refreshed its source |
| `Refresh.JobLeaves` | controller/scraper_controller.go:156-171 | what a job leaves in the index for every way its three requests can be answered, failures included |
| `Refresh.ReplaceOkIff` | controller/scraper_controller.go:156-171 | a job counts as done exactly without an API key, or with the service ready and the delete by source and the upsert successful |
| `Refresh.ScrapeToIndex` | controller/scraper_controller.go:129-183 | a job from the normalised source URL to the index, by the job's own code: if it ends well, the source has exactly one vector per embedded chunk of the crawled pages, with its content, and the row is charged with them under the title of the first |
| `Refresh.RemovedSourceLeavesNothing` | controller/scraper_controller.go:577-583 | a removed source leaves no vector under its key, and nothing else is lost but vectors of its URL |
| `Refresh.RemovalOkIff` | controller/scraper_controller.go:577-586 | a removal counts as done exactly without an API key, without a host, or after a successful delete by source; in the first two cases the index is as it was |
| `Refresh.CrawledPagesAreIndexable` | controller/scraper_controller.go:185-270 | what a crawl returns meets the refresh result's conditions: distinct page URLs without blanks |
| `Refresh.NamespaceInjective` | controller/integrations.go:538-540 | distinct users (UUIDs) have distinct namespaces |
| `IndexRaces.NextKeepsInv` | controller/integrations.go:698-770 | under any interleaving of jobs, removals and documents, requests follow their plans, and what was answered well has arrived, the first before any later one |
| `IndexRaces.RequestTakesExactly` | controller/integrations.go:698-770 | the loss of a single request: a delete takes exactly the vectors it hits, a save none but those of its own ids |
| `IndexRaces.LossHasCause` | controller/integrations.go:569-770 | over any stretch of any run a vector that is lost was hit by a delete that arrived in between or overwritten under its id |
| `IndexRaces.JobTakesOnlyItsUrl` | controller/scraper_controller.go:156-171 | of everything not keyed to its source a job's requests take only vectors whose URL is the source URL, and only in the user's namespace |
| `IndexRaces.DoneIsExactIff` | controller/scraper_controller.go:156-182 | with no other job on the source, the source's vectors are exactly the job's batch when it is done if and only if nothing that arrived after its upsert hits the batch |
| `IndexRaces.HitsIff` | controller/integrations.go:680-739 | a request hits the batch exactly when it deletes the URL of one of its pages, the source, or the whole namespace |
| `IndexRaces.DoneWithoutVectors` | controller/integrations.go:622-624 | a job none of whose chunks could be embedded leaves no vector under its key |
| `IndexRaces.SurvivorWasSavedLater` | controller/scraper_controller.go:577-586 | a vector under the key of a removed source was saved by a job on it after the removal's delete |
| `IndexRaces.LateDeleteLosesPage` | controller/scraper_controller.go:156-167 | counterexample: another source's delete by URL overtaken by the job's upsert takes a crawled page, and the job is done |
| `IndexRaces.CrawlMakesTask` | controller/scraper_controller.go:149-167 | the batch of a crawl makes a job of this model, whichever embeddings succeed |
| `IndexRaces.DocumentMakesTask` | controller/integrations.go:550-567 | so does the single chunk of a document |
| `IndexRaces.UninterruptedIsReplace` | controller/scraper_controller.go:156-171 | without interference the three requests do what the job model says |
| `IndexRaces.UninterruptedIsRemoval` | controller/scraper_controller.go:577-583 | without interference the two requests of a removal do what the store's removal does |
| `IndexRaces.DocumentIsRemoved` | controller/document_controller.go:168-173 | adding a document and then removing it leaves the index as before, less what carried the document's key or URL |
| `IndexRaces.EverythingIsRemoved` | controller/integrations.go:680-696 | removing everything empties the user's namespace and no other |
| `IndexRaces.BadReplyIff` | controller/scraper_controller.go:156-171 | a handler gives up exactly at a bad answer that is not that of its delete by URL |
| `Quota.Usage.Scrape` | controller/scraper_controller.go:55-99 | the two reads and the upsert admit with the limit less the other sources' pages, or refuse and change nothing |
| `Quota.Usage.TotalPages` | controller/scraper_controller.go:65-70 | the sum over the user's rows |
| `Quota.Usage.ScrapeToEnd` | controller/scraper_controller.go:53-183 | request and job together are the serial operation and stay within the limit |
| `Quota.Usage.DeleteSource` | controller/scraper_controller.go:586 | deleting a source gives its charge back |
| `Quota.ScrapeReplacesCharge` | controller/scraper_controller.go:72-99 | an admitted scrape replaces the charge of its own source, touches no other, and the sum stays within the limit |
| `Quota.ScrapeChargesExactly` | controller/scraper_controller.go:54-99 | a scrape charges nothing if the other sources use up the limit, else all pages found and indexed, up to what they leave |
| `Quota.UndisturbedRequest` | controller/scraper_controller.go:54-99 | the statements of a request that nothing comes between refuse it exactly if the other sources use up the limit, and else give its job all that they leave |
| `Quota.RemovalGivesBack` | controller/scraper_controller.go:586-601 | removing a source gives its charge back, removing everything all of it; no other user is touched |
| `Quota.SerialRunsStayWithinLimit` | controller/scraper_controller.go:53-183 | over any run of non-overlapping scrapes and deletes the sum never exceeds the plan limit |
| `Quota.EveryRowWithinLimit` | controller/scraper_controller.go:53-183 | under every interleaving of statements and jobs each row stays within the limit and at most five jobs run at once |
| `Quota.BudgetStillFitsIff` | controller/scraper_controller.go:72-77 | one step: a running job can finish within the limit, whatever it charges, exactly when its budget still fits beside the other rows |
| `Quota.WorstNeverGrows` | controller/scraper_controller.go:53-183 | without a new admission of the user no statement raises the sum of the rows, each taken at the largest budget of a job on it |
| `Quota.WorstIsReached` | controller/scraper_controller.go:129-183 | some continuation without admissions reaches that sum, through the five slots |
| `Quota.StaysWithinIff` | controller/scraper_controller.go:53-183 | every continuation without a new admission of the user stays within the limit exactly when that sum does |
| `Quota.OverlapExceedsLimit` | controller/scraper_controller.go:53-113 | counterexample: two overlapping requests use the limit twice |
| `Splitting.SplitConcat` | public/widget/src/widget/api.js:45-47 | splitting goes on where it stopped: only the last piece depends on what follows |
| `Splitting.SplitFrame` | public/widget/src/widget/api.js:46 | a piece without separator and without ambiguous end is split off whole |
| `Stream.ProcessEventLine` | public/widget/src/widget/api.js:23-39 | a line delivers its event only behind "data: " and only if it parses |
| `Stream.ProcessBlocks` | public/widget/src/widget/api.js:49-53 | the two inner loops deliver the events of every line of every completed block, in order |
| `Stream.ConsumeSSE` | public/widget/src/widget/api.js:18-71 | for arbitrary text and any cutting into reads, what is delivered depends only on the concatenation |
| `Stream.FinalBlock` | public/widget/src/widget/api.js:58-70 | an unterminated last block is dispatched if it starts with "data:" and parses |
| `Stream.HeadFrame` | public/widget/src/widget/api.js:41-56 | a complete printed frame delivers its event first, whatever follows |
| `Stream.BlockDeliversEveryLine` | public/widget/src/widget/api.js:45-53 | a complete block of several lines delivers the event of every data line in order, and nothing for the other lines, whatever follows |
| `Stream.BlankIsNeededInBlocks` | public/widget/src/widget/api.js:24-66 | "data:" without a blank delivers its event at the end of a stream and nothing in a completed block |
| `Stream.CutFrame` | public/widget/src/widget/api.js:58-70 | a frame cut off anywhere delivers its event exactly when its payload is complete |
| `Stream.ChainOfFrames` | public/widget/src/widget/api.js:41-70 | any reader that takes whole frames one by one and cut frames by their payload delivers exactly the complete events of a truncated stream |
| `Stream.TruncatedStream` | public/widget/src/widget/api.js:18-71 | a stream truncated anywhere delivers exactly the events whose payload was complete |
| `Stream.StreamRoundTrip` | public/widget/src/widget/api.js:18-71 | printing and consuming is the identity on event lists |
| `Answer.SplitAnswerChunks` | controller/public_controller.go:249-274 | the defaulting and the loop group the words, with a blank behind every chunk but the last |
| `Answer.GroupWords` | controller/public_controller.go:261-272 | the grouping loop |
| `Answer.ChunksCarryAnswer` | controller/public_controller.go:249-274 | the chunks joined carry exactly the words of the answer |
| `Answer.ChunkSizes` | controller/public_controller.go:249-274 | no chunk has more words than asked for, or than four, only the last has fewer, and the others end with a blank |
| `Answer.ResponseTokens` | controller/public_controller.go:223-247 | every event but the last is a token of at most four words, of exactly four unless it is the last token |
| `Answer.StreamWidgetResponse` | controller/public_controller.go:223-247 | writes one frame per token event, then the final event with the session |
| `Answer.WriteSSEEvent` | controller/public_controller.go:276-282 | appends one frame |
| `Answer.WidgetReceivesAnswer` | controller/public_controller.go:223-282 | server to widget: wherever the stream is cut off the widget's events are a beginning of the printed ones; a whole stream ends with the session and carries the answer's words |
| `Outbox.SelectFacts` | controller/integrations.go:880-887 | a batch holds at most its limit, increasing, due events only; a due event is left out only for a full batch of older ones |
| `Outbox.PickedIff` | controller/integrations.go:880-887 | a tick takes exactly the events that are pending or retrying, due by the clock, of an active configuration, and have fewer than fifty such events before them |
| `Outbox.Table.QueueWebhookEvent` | controller/integrations.go:864-871 | an event is queued exactly for an active configuration, pending, with eight attempts |
| `Outbox.Table.RetryWebhookEvent` | controller/leads_controller.go:192-205 | a manual retry of an enterprise user's own event makes it pending, without attempts, due now; any other changes nothing |
| `Outbox.Table.ProcessPendingWebhookEvents` | controller/integrations.go:879-960 | the loop over the batch handles every selected row once and no other |
| `Outbox.TickIsExact` | controller/integrations.go:879-960 | an event that the tick does not take stays as it is; a taken one gets one attempt and the status of its outcome, or death without an attempt for a blocked target |
| `Outbox.Table.ProcessRow` | controller/integrations.go:897-958 | mark, post and closing update: dead, stuck, delivered, or retrying with backoff |
| `Outbox.MissedTickConsumes` | controller/integrations.go:880-960 | a tick that passes over a due event consumes at least fifty attempts of older events |
| `Outbox.StepWhileWaiting` | controller/integrations.go:864-960 | no other step gives older events attempts back |
| `Outbox.NoStarvation` | controller/integrations.go:880-960 | with one worker and no manual retry, a due event whose configuration stays active is picked within (attempts left to older events)/50 + 1 ticks |
| `OutboxRuns.NextKeepsInv` | controller/integrations.go:879-960 | every statement of worker, queue, configuration and manual retry keeps the outbox invariant |
| `OutboxRuns.OutboxSafety` | controller/integrations.go:896-946 | at every moment of every run: attempts within the maximum; retrying below it and, unless a retry hit it in flight, above zero; posts since the last retry within the maximum, one more only if that retry came between mark and post; an event that dies of a failed update after eight failures or more dies at least 635 seconds after the first |
| `OutboxRuns.BackoffShape` | controller/integrations.go:944 | the backoff is non-decreasing, between 5 and 600 seconds, and reaches the cap with the eighth attempt |
| `OutboxRuns.StuckUntilRetried` | controller/integrations.go:889-915 | over any run, an event that is neither pending nor retrying and that the worker has let go of keeps its row until a manual retry: nothing moves it, no batch selects it, it is not posted |
| `OutboxRuns.AbandonedIsStuck` | controller/integrations.go:911-914 | an event whose request cannot be built gets into that state, exactly unless a manual retry has taken its attempt back since the mark |
| `OutboxRuns.DeliveredIsFinal` | controller/integrations.go:925-929 | over any run, an accepted delivery is the last one until a manual retry: the event stays delivered and is not posted again |
| `OutboxRuns.HeldWasFetched` | controller/integrations.go:880-902 | over any run, a row the worker holds was read by its last fetch while pending or retrying, due, and of an active configuration |
| `OutboxRuns.QueuedWasActive` | controller/integrations.go:864-871 | over any run, every event was queued for a configuration that was active at the time |
| `OutboxRuns.SwitchedOff` | controller/integrations.go:864-871 | over any run, a configuration that is switched off gets no new event until it is switched on |
| `OutboxRuns.RetryMayLeaveBareIff` | controller/leads_controller.go:198 | after a manual retry some continuation without another one reaches retrying with zero attempts exactly when the retry hits the event in flight and not on its last attempt |
| `OutboxRuns.RetryMayExceedIff` | controller/integrations.go:903-946 | after a manual retry some continuation without another one posts the event more than eight times exactly when the retry comes between mark and post of a handling that is not the last attempt |
| `OutboxRuns.ReachHead` | controller/integrations.go:880-902 | whatever rows and older events are in the way, blocked targets and an active configuration bring the worker to a retrying event |
| `OutboxRuns.NineDeliveries` | controller/integrations.go:903-946 | the bound on posts is attained: a run with nine deliveries since the last manual retry |
| `OutboxRuns.InterruptedRetryingWithoutAttempt` | controller/leads_controller.go:198 | counterexample: a retry in flight leaves a retrying event with zero attempts and one delivery made |
| `OutboxRuns.StatementsComposeToHandled` | controller/integrations.go:897-958 | without interference the worker's statements compose to the tick model's row update |
| `WidgetCache.IsWidgetRequestAllowed` | controller/widget_security.go:112-132 | the loop decides whether some allowed domain, wildcard or not, matches |
| `WidgetCache.AllowedIff` | controller/widget_security.go:112-132 | an empty list admits everything; another admits a non-empty domain exactly if some entry is that domain, or is "*." and a base that the domain equals or stands below, a dot between |
| `WidgetCache.SuffixAloneIsDenied` | controller/widget_security.go:124-129 | "*." and a base does not admit a domain that only ends in the letters of the base |
| `WidgetCache.ReadIsReply` | controller/public_controller.go:21-88 | on a hit and on a fill alike, the configuration is served exactly from an active row of the key whose list admits the domain, with that row's content; else the reply is the matching refusal |
| `WidgetCache.ReplyIsUnique` | controller/public_controller.go:21-88 | there is only one such reply |
| `WidgetCache.Widgets.PublicWidgetConfig` | controller/public_controller.go:21-88 | the hit path and the fill path compute the cached read, which with a coherent cache is the right reply to the table |
| `WidgetCache.Widgets.CreateWidget` | controller/widget_controller.go:17-65 | insert or overwrite the user's row, then drop its key |
| `WidgetCache.CreateWrites` | controller/widget_controller.go:17-65 | the user's row, old or new, is active and has the given content; no other row changes |
| `WidgetCache.Widgets.UpdateWidget` | controller/widget_controller.go:90-136 | overwrite what is given, then drop the key |
| `WidgetCache.ReplaceWrites` | controller/widget_controller.go:90-136 | the configuration is the given one, name and domains stay unless given; no other row changes |
| `WidgetCache.Widgets.RegenerateWidget` | controller/widget_controller.go:138-155 | replace the key, drop the old and the new one; a key of another user's row is refused, unless there is no row to write it to |
| `WidgetCache.RegenerateWrites` | controller/widget_controller.go:138-155 | the row gets the new key, unless another user has it, and keeps all else; no other row changes |
| `WidgetCache.Widgets.MergeConfig` | controller/persona_controller.go:46-99 | merge a patch into the configuration, then drop the key (persona, branding and navigation alike) |
| `WidgetCache.MergeWrites` | controller/persona_controller.go:46-99 | the patch wins, every other setting stays, and so does all else of the row; no other row changes |
| `WidgetCache.Widgets.DeleteWidget` | controller/widget_controller.go:157-164 | removes the row and leaves the cache alone |
| `WidgetCache.ApplyKeepsCoherent` | controller/public_controller.go:29-84 | every write, load and expiry keeps: an entry equals what the uncached path would build from the current row, which is active, and in production its domain list is not empty |
| `WidgetCache.RunsAreCoherent` | controller/widget_controller.go:58-60 | any run keeps coherence |
| `WidgetCache.CacheIsTransparent` | controller/public_controller.go:29-84 | after any run from an empty cache the handler replies to every request as it would without a cache |
| `WidgetCache.RegeneratedKeyIsGone` | controller/widget_controller.go:138-155 | no entry survives under a regenerated-away key, which is answered with not found |
| `WidgetCache.DeleteIsCoherentIff` | controller/widget_controller.go:157-164 | deletion keeps coherence exactly when the widget had no entry |
| `CacheRaces.RunKeepsInv` | controller/public_controller.go:27-84 | under any interleaving every entry and every pending reply was right at a recorded moment |
| `CacheRaces.BoundedStaleness` | controller/public_controller.go:27-84 | a served reply is what the uncached handler would have replied at most 601999 milliseconds before it was determined, for any writers, deletion included |
| `CacheRaces.OldestHit` | controller/public_controller.go:27-84 | the bound is attained: a run in which a hit is 601999 milliseconds old, and is then served after any stall |
| `CacheRaces.StalenessIff` | controller/public_controller.go:27-87 | counted from serving, replies with at most a given stall are right within a window exactly when the window is at least 601999 milliseconds and the stall |
| `CacheRaces.EntryOrigin` | controller/public_controller.go:50-84 | every entry was built from the row by one request and set by it, untouched since |
| `CacheRaces.StaleEntryIff` | controller/widget_controller.go:115-134 | after a write that changes the entry and the deletion that follows it, the entry is not right exactly when it was read before the write and set after the deletion |
| `CacheRaces.LateFillIsStale` | controller/public_controller.go:77-84 | counterexample: a fill after the writer's deletion leaves an entry that the row no longer justifies |
| `CacheRaces.StalledHandlerIsOlder` | controller/public_controller.go:77-87 | counterexample: counted from the moment of serving, no bound holds for a handler that stalls |
| `Chat.NextKeepsInv` | controller/chat_controller.go:28-93 | every statement of every handler keeps the accounting, ownership and binding invariant |
| `Chat.AccountingIsExactIff` | controller/chat_controller.go:76-93 | at every moment of every run a live conversation's count plus two per request between insert and count update equals its stored messages exactly when no count update was missed, is never more, and none is missed without a deleted widget |
| `Chat.CountIsMissedIff` | controller/public_controller.go:210-213 | a count update passes over a live conversation exactly when another widget than the request's is bound to it by then, which takes the deletion of the request's widget |
| `Chat.MessagesBelongToOwner` | controller/chat_controller.go:76-81 | every stored message belongs to the owner of its conversation |
| `Chat.ConversationsOnlyClose` | controller/chat_controller.go:161-178 | owners never change; a deleted conversation never revives, is never counted again and never gains a message |
| `Chat.ClearSessionIff` | controller/chat_controller.go:161-169 | clearing a session closes that conversation exactly if it is the user's, and no other |
| `Chat.ClearUserIff` | controller/chat_controller.go:171-178 | clearing everything closes all conversations of the user and nobody else's |
| `Chat.ClearedForGood` | controller/chat_controller.go:161-178 | over any run, a cleared conversation stays closed, gains no message and no count, and no request gets it again |
| `Chat.OpenIff` | controller/public_controller.go:149-184 | a request gets a conversation exactly if it is new, or the user's, not deleted and not bound to another widget, and the widget to bind still exists |
| `Chat.ChargeIff` | controller/chat_controller.go:51-61 | a chat is charged once exactly if the user has no limit or has used less |
| `Chat.InsertIff` | controller/chat_controller.go:76-88 | both messages are stored exactly if the conversation is still the user's, live and not bound to another widget |
| `Chat.DeleteWidgetUnbinds` | controller/widget_controller.go:157-164 | deleting a widget unbinds its conversations and changes nothing else of any |
| `Chat.UsageStaysWithinLimit` | controller/chat_controller.go:51-56 | only a charge raises the usage, by one, and never above the limit in force |
| `Chat.RunStaysWithinLimit` | controller/chat_controller.go:51-56 | while the limit does not change, usage that starts within it stays within it |
| `Chat.DeletedWidgetLosesCount` | controller/public_controller.go:195-213 | counterexample: a widget deleted while its request is in flight loses the count of two stored messages |
| `Chat.Database.UpsertConversation` | controller/public_controller.go:149-184 | returns the conversation exactly when it is new, or the caller's, not deleted and not bound to another widget, and no deleted widget has to be written; otherwise changes nothing |
| `Chat.Database.ChargeConversation` | controller/chat_controller.go:51-61 | charges exactly when there is no limit or the usage is below it |
| `Chat.Database.InsertMessages` | controller/chat_controller.go:76-88 | inserts both messages or none |
| `Chat.Database.CountMessages` | controller/chat_controller.go:90-92 | raises the count of a conversation that still matches |
| `Chat.Database.ClearChatSession` | controller/chat_controller.go:161-169 | closes one conversation of the user |
| `Chat.Database.ClearUserSessions` | controller/chat_controller.go:171-178 | closes all conversations of the user and no other |
| `Chat.Database.Chat` | controller/chat_controller.go:28-94 | an uninterrupted chat answers with one charge, two messages and a count two higher, stops at the limit with nothing stored, or changes nothing |
| `Chat.Database.PublicWebhook` | controller/public_controller.go:149-221 | an uninterrupted public request stores two messages, binds the conversation to the widget and charges nothing, or changes nothing |
| `Sessions.RevocationIsPermanent` | controller/auth_controller.go:434-435 | a revoked or deleted session stays so in every run, also when a refresh's update lands later |
| `Sessions.NothingRevivesSession` | controller/auth_controller.go:54-69 | a closed session authenticates and refreshes nothing ever again |
| `Sessions.LogoutRevokes` | controller/auth_controller.go:445-451 | logout revokes the session of the token and no other |
| `Sessions.RevokeOneRevokes` | controller/auth_controller.go:578-586 | revoking one session revokes it exactly if it is the user's |
| `Sessions.RevokeOthersRevokes` | controller/auth_controller.go:588-597 | revoking all others revokes the user's sessions but the kept one, which stays as it is, and nobody else's |
| `Sessions.LogoutAllRevokes` | controller/auth_controller.go:599-608 | logging out everywhere revokes all sessions of the user and nobody else's |
| `Sessions.ExpiryRevokes` | controller/integrations.go:1031 | the maintenance task revokes exactly what has expired |
| `Sessions.RevokedForGood` | controller/auth_controller.go:578-608 | over any run, a session that a revoking handler hits accepts no token ever again; one that it does not hit keeps its row in that statement |
| `Sessions.LoginIsAccepted` | controller/auth_controller.go:325-354 | over any run, the tokens of a login are accepted exactly until their lifetimes are over, while nothing rotates, revokes or deletes the session |
| `Sessions.RotationIsAccepted` | controller/auth_controller.go:412-435 | so are the tokens that a refresh puts in the row |
| `Sessions.AcceptedTokensAreOneIssuance` | controller/auth_controller.go:418-435 | the access and refresh token a session accepts at any moment come from one issuance for its user |
| `Sessions.RejectedForeverIff` | controller/auth_controller.go:412-435 | a token of a past second that its row no longer stores can return exactly when a refresh in flight carries it |
| `Sessions.RotationRejectsOldPair` | controller/auth_controller.go:412-435 | a rotation in a later second rejects the old pair in every continuation, if no other refresh in flight carries it |
| `Sessions.SlowRefreshRestoresOldPair` | controller/auth_controller.go:412-435 | counterexample: a stalled refresh of the same second puts the replaced pair back |
| `Sessions.Table.Login` | controller/auth_controller.go:325-354 | a login stores one fresh pair under a new id |
| `Sessions.Table.AuthenticateUser` | controller/auth_controller.go:35-69 | accepts exactly the unexpired access token stored in a row that is not revoked |
| `Sessions.Table.RefreshToken` | controller/auth_controller.go:384-443 | an uninterrupted refresh replaces both tokens exactly for the stored, unexpired, unrevoked refresh token, and the old one is refused afterwards if its second is past |
| `Sessions.Table.RevokeWhere` | controller/auth_controller.go:578-608 | revokes exactly the rows the statement names (logout, revoke one, others, all, expired) |
| `Codes.CodeSafety` | controller/auth_controller.go:288-315 | in every run a code is compared at most the allowed number of times, redeemed at most once, never after its expiry |
| `Codes.OneOpenCode` | controller/auth_controller.go:227-230 | a user never has two unused codes |
| `Codes.RedeemedIff` | controller/auth_controller.go:292-315 | a guess succeeds exactly for the user's last requested, unused, unexpired code with attempts left and the same text |
| `Codes.RequestIsNeverRefused` | controller/auth_controller.go:220-225 | in every run fewer than three codes count against the hourly limit, so a request always issues the new newest code |
| `Codes.LimitIff` | controller/auth_controller.go:220-236 | on any table, a request changes nothing exactly if three unused codes of the user are less than an hour old; else it uses up the user's codes and adds a fresh one |
| `Codes.RequestedCodeRedeems` | controller/auth_controller.go:220-315 | over any run, the code just requested redeems exactly with the right guess, until its lifetime is over and while fewer wrong guesses than allowed were made |
| `Codes.SpentForGood` | controller/auth_controller.go:288-315 | over any run, every guess but a wrong one spends the code: until a new request no guess finds one |
| `Codes.Table.RequestCode` | controller/auth_controller.go:220-236 | the count, the update and the insert compute the request transaction |
| `Codes.Table.VerifyCode` | controller/auth_controller.go:288-315 | the branches compute the verify transaction and its outcome |
| `Migrator.MigrationFiles` | migrations/migrator.go:39-51 | the increasing listing of exactly the non-directory names with the suffix |
| `Migrator.ScriptIff` | migrations/migrator.go:46-54 | a script is a name that ends in .sql in whatever case, and its id is what is left without that |
| `Migrator.Database.Run` | migrations/migrator.go:16-85 | whatever the crash point or failing script, records are those of the files up to some point, the schema has executed exactly the newly recorded scripts in order, and a completed run reached the end |
| `Migrator.RunTwice` | migrations/migrator.go:16-85 | a completed run followed by another is a no-op: records and schema stay, and the second one cannot fail |
| `Migrator.RestartReachesSameEnd` | migrations/migrator.go:53-83 | restarting after a crash at any file reaches the records of an uninterrupted run |
| `Migrator.DistinctFilesAllRecorded` | migrations/migrator.go:53-83 | with distinct ids a fresh database records exactly the sorted files |
| `Migrator.ExtendedKeepsDistinct` | migrations/migrator.go:54-62 | no id is recorded twice by a run |
| `Migrator.ExactlyOnce` | migrations/migrator.go:53-83 | for any overlaps, crashes and directories: no script is recorded twice and the schema is the fold of the recorded scripts |
| `Migrator.RecordedIsPrefix` | migrations/migrator.go:53-83 | with one directory the records are always those of a prefix of the sorted files, also when migrators overlap |
| `Migrator.CompletedRecordsAll` | migrations/migrator.go:53-84 | a migrator that has passed all files has all of them recorded |
| `Migrator.CompletedMakesNoOps` | migrations/migrator.go:53-84 | once all files are recorded, records and schema stay the same for the rest of the run, for migrators under way and for those that start later |
| `Quoting.UnhexHex` | platform/logger/pretty_handler.go:206-214 | the hexadecimal escapes of quoting decode to the character code |
| `Quoting.ReadValueBack` | platform/logger/pretty_handler.go:206-214 | a printed value, quoted or not, reads back as itself whatever it contains |
| `Quoting.QuotedIff` | platform/logger/pretty_handler.go:206-214 | a value is quoted exactly if it is empty or has a blank, tab, line break, equals sign or quote |
| `Quoting.ReadTailBack` | platform/logger/pretty_handler.go:112-115 | a printed tail reads back as its list of pairs |
| `Quoting.TailReadsBackIff` | platform/logger/pretty_handler.go:112-181 | for the reader given here it does so exactly when no key contains an equals sign |
| `Quoting.PrintTailInjective` | platform/logger/pretty_handler.go:112-181 | for any reader: lists of pairs without an equals sign in their keys never print the same tail |
| `Quoting.AmbiguousTail` | platform/logger/pretty_handler.go:112-181 | counterexample: with an equals sign in a key two lists print the same tail |
| `Quoting.TailIsOneLine` | platform/logger/pretty_handler.go:112-181 | a tail has no line break if no key has one, whatever the values contain |
| `PrettyLog.DerivingIsNesting` | platform/logger/pretty_handler.go:96-174 | any chain of WithAttrs and WithGroup prints the same pairs as one record with nested group attributes |
| `PrettyLog.DottedKey` | platform/logger/pretty_handler.go:152-174 | a key in groups is printed as the dotted path of their names; a group without a name adds nothing, an attribute without a key is dropped |
| `PrettyLog.DerivedTailReadsBackIff` | platform/logger/pretty_handler.go:96-181 | the tail of a derived handler reads back as the flattened nested record exactly when no full key contains an equals sign |
| `PrettyLog.AppendAttr` | platform/logger/pretty_handler.go:152-174 | the recursion appends one part per pair the attribute flattens to |
| `PrettyLog.Handler.WithAttrs` | platform/logger/pretty_handler.go:124-139 | the derived handler has one more chunk, shares no slice with the caller, and modifies nothing |
| `PrettyLog.Handler.WithGroup` | platform/logger/pretty_handler.go:141-150 | the derived handler has one more group and modifies nothing |
| `PrettyLog.Handler.Tail` | platform/logger/pretty_handler.go:96-115 | the loops over chunks and record print the tail of the handler's pairs, with the source position last |
| `PrettyLog.SourceReadsBackIff` | platform/logger/pretty_handler.go:107-115 | with a bare source position the tail reads back, position included, exactly when no key contains an equals sign |
| `PrettyLog.SiblingsAreIndependent` | platform/logger/pretty_handler.go:124-150 | overwriting the caller's slice and deriving again change neither parent nor derived handlers |

## Left out

- URL parsing but for the path, reference resolution (section 5.2 of RFC 3986), and URLs without an authority. An href enters the model dropped or resolved.
- Paths that decode to bytes that are not UTF-8: a text is a sequence of Unicode characters.
- HTML parsing and stripping, redirects, DNS and address checks: the web is a fixed function from URL to failure or (title, text, hrefs).
- Byte order of strings is modelled on characters, and case folding of hosts on ASCII.
- The digest in a vector id: ids are the tuples it is computed from, taken to be unambiguous.
- JSON: an abstract codec whose texts have no newline and no outer blanks, and of which no proper prefix parses.
- Bytes cut inside a character (TextDecoder), and the reply path of a writer that cannot flush.
- `Urls.NormalizeScrapeURL`: starts from a parsed URL with a path and its written form; parsing the rest is library behaviour.
- `Ingest.Store.ReplaceVectors`: the three requests run back to back here; other handlers come between them in `IndexRaces`.
- `Ingest.Store.RunScrapeJob`: atomic towards other jobs, likewise; `Refresh.ScrapeToIndex` ties its source URL to the parsed start.
- `Refresh.FinishedJobRefreshes`: a job that runs alone; `IndexRaces.DoneIsExactIff` has the others.
- `Refresh.RemovedSourceLeavesNothing`: a removal that runs alone; `IndexRaces.SurvivorWasSavedLater` has the others.
- `Quota.BudgetStillFitsIff`: one finishing step; `Quota.StaysWithinIff` has whole runs.
- Database failures, and in `Codes` transactions that are not serialised.
- `Sessions.ExpiryRevokes`: rows without an expiry; a session has one from its creation on.
- Ties of creation times: rows stand in the order of their ids.
- User and account deletion.
- `Chat.Database.Chat`: retrieval and the model's answer, which decide only the content of a message.
- `Sessions.Table.Login`: the mail address inside a token, cookies and CSRF.
- Hashing and signing, taken to be injective.
- `WidgetCache.Widgets.MergeConfig`: the three update handlers differ in the keys they patch; the configuration is a map of texts.
- `Outbox.Table.ProcessRow`: the delivery itself, signature and target check, which decide only the outcome.
- `Migrator.Database.Run`: the advisory lock, which is an input; its release through a pooled connection is not claimed.
- `PrettyLog.Handler.Tail`: colours, time, level and message.
- `Quoting.TailReadsBackIff`: strings that are not valid Unicode.
- Claims the code does not support, hence not made: first-in first-out analytics, unlimited documents for a zero limit, one active flow per user under concurrent requests, idempotence of domain normalisation on hosts with several trailing dots.
- Mail, retrieval queries, documents, leads, flows, inbox, dashboards and the other list and get handlers: no property beyond one body.
