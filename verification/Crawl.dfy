/** The website crawler. The network is a fixed oracle: what a URL answers does not
    change during one crawl. */
module Crawl {
  import opened Text
  import opened Options
  import opened Urls
  import opened Bfs
  import opened Listing

  /** A response body, with the texts the stripping functions make of it. */
  datatype Body = Body(isHtml: bool, plain: string, stripped: string, title: string, hrefs: seq<Href>)

  datatype Response =
    | Refused         // the outbound check rejects the target
    | RequestFailed   // the request cannot be built or sent
    | ReadFailed
    | Answered(status: int, body: Body)

  datatype Page = Page(url: string, title: string, text: string)

  datatype CrawlResult = InvalidUrl | NoPages | Pages(pages: seq<Page>)

  /** What one visit keeps: the guards of the crawl loop, in order. */
  function VisitOf(net: string -> Response, baseHost: string, current: string): Visit<Page> {
    match net(current)
    case Refused => Skipped
    case RequestFailed => Skipped
    case ReadFailed => Skipped
    case Answered(status, body) =>
      var text := if body.isHtml then body.stripped else body.plain;
      if status >= 300 || Trim(text, GO_SPACE) == "" then Skipped
      else Kept(Page(current, if body.isHtml then body.title else "", text),
                if body.isHtml then Links(baseHost, body.hrefs) else [])
  }

  function Graph(net: string -> Response, baseHost: string): string -> Visit<Page> {
    u => VisitOf(net, baseHost, u)
  }

  function CrawlPages(net: string -> Response, baseHost: string, start: string, maxPages: nat): seq<Page> {
    Run(Graph(net, baseHost), [start], {}, [], maxPages)
  }

  /** The URLs the crawl marks as visited and asks the network for, failures included. */
  function Fetches(net: string -> Response, baseHost: string, start: string, maxPages: nat): set<string> {
    Visited(Graph(net, baseHost), [start], {}, [], maxPages)
  }

  function BaseHost(start: Url): string {
    ToLower(Hostname(start.host))
  }

  /** The body of the loop up to the appended page. */
  method VisitPage(net: string -> Response, baseHost: string, current: string) returns (v: Visit<Page>)
    ensures v == VisitOf(net, baseHost, current)
  {
    var resp := net(current);
    if !resp.Answered? {
      return Skipped;
    }
    if resp.status >= 300 {
      return Skipped;
    }
    var text, title, links := resp.body.plain, "", [];
    if resp.body.isHtml {
      text := resp.body.stripped;
      title := resp.body.title;
      links := ExtractInternalLinks(baseHost, resp.body.hrefs);
    }
    if Trim(text, GO_SPACE) == "" {
      return Skipped;
    }
    return Kept(Page(current, title, text), links);
  }

  method CrawlWebsite(net: string -> Response, startURL: Option<Url>, maxPages: nat)
    returns (r: CrawlResult, ghost fetched: set<string>)
    ensures r.InvalidUrl? <==> Normalize(startURL).None?
    ensures Normalize(startURL).Some? ==>
              var start := Normalize(startURL).value;
              var pages := CrawlPages(net, BaseHost(start), Print(start), maxPages);
              && r == (if pages == [] then NoPages else Pages(pages))
              && fetched == Fetches(net, BaseHost(start), Print(start), maxPages)
    ensures r.InvalidUrl? ==> fetched == {}
  {
    var normalized := NormalizeScrapeURL(startURL);
    if normalized.None? {
      return InvalidUrl, {};
    }
    var baseHost := ToLower(Hostname(normalized.value.host));
    var pages;
    pages, fetched := CrawlFrom(net, baseHost, Print(normalized.value), maxPages);
    if |pages| == 0 {
      return NoPages, fetched;
    }
    return Pages(pages), fetched;
  }

  /** The crawl loop, with the URLs it marked as visited as a ghost result. */
  method CrawlFrom(net: string -> Response, baseHost: string, start: string, maxPages: nat)
    returns (pages: seq<Page>, ghost fetched: set<string>)
    ensures pages == CrawlPages(net, baseHost, start, maxPages)
    ensures fetched == Fetches(net, baseHost, start, maxPages)
  {
    var queue := [start];
    var visited: set<string> := {};
    pages := [];
    ghost var g := Graph(net, baseHost);
    while |queue| > 0 && |pages| < maxPages
      invariant |pages| <= maxPages
      invariant Search(g, queue, visited, pages, maxPages) == Search(g, [start], {}, [], maxPages)
      decreases maxPages - |pages|, |queue|
    {
      var current := queue[0];
      queue := queue[1..];
      if current in visited {
        continue;
      }
      visited := visited + {current};
      var v := VisitPage(net, baseHost, current);
      assert v == g(current);
      if v.Skipped? {
        continue;
      }
      pages := pages + [v.page];
      var added := PushUnvisited(v.links, visited);
      queue := queue + added;
    }
    fetched := visited;
  }

  /** The links to append: those not yet visited, duplicates in the queue included. */
  method PushUnvisited(links: seq<string>, visited: set<string>) returns (added: seq<string>)
    ensures added == Fresh(links, visited)
  {
    added := [];
    for k := 0 to |links|
      invariant added + Fresh(links[k..], visited) == Fresh(links, visited)
    {
      assert links[k..][1..] == links[k + 1..];
      if links[k] !in visited {
        added := added + [links[k]];
      }
    }
  }

  // ---- what the crawl delivers ------------------------------------------

  /** The crawl is exact breadth-first search over the successful pages: pages come in
      non-decreasing link distance, each once, and a successful page within reach is
      missing only when the budget is used up, never in favour of a farther one. */
  lemma CrawlIsExact(net: string -> Response, baseHost: string, start: string, maxPages: nat) returns (dist: seq<nat>)
    ensures var g, pages := Graph(net, baseHost), CrawlPages(net, baseHost, start, maxPages);
            && |dist| == |pages| <= maxPages
            && (forall i :: 0 <= i < |pages| ==>
                  g(pages[i].url).Kept? && g(pages[i].url).page == pages[i] &&
                  Distance(g, start, pages[i].url, dist[i]))
            && (forall i, j :: 0 <= i < j < |pages| ==> pages[i].url != pages[j].url && dist[i] <= dist[j])
            && (forall v, n: nat :: Walk(g, start, v, n) && g(v).Kept? && (forall i :: 0 <= i < |pages| ==> pages[i].url != v) ==>
                  |pages| == maxPages && forall i :: 0 <= i < |dist| ==> dist[i] <= n)
  {
    var g, pages := Graph(net, baseHost), CrawlPages(net, baseHost, start, maxPages);
    var order;
    order, dist := CrawlIsBreadthFirst(g, start, maxPages);
    forall i | 0 <= i < |pages| ensures pages[i] == g(order[i]).page && pages[i].url == order[i] {
    }
    forall v, n: nat | Walk(g, start, v, n) && g(v).Kept? && (forall i :: 0 <= i < |pages| ==> pages[i].url != v)
      ensures |pages| == maxPages && forall i :: 0 <= i < |dist| ==> dist[i] <= n
    {
      assert v !in order;
    }
  }

  /** What a page of a crawl is, in terms of the answers of the network: the text of a
      successful answer that is not blank; a title only if the answer is HTML. */
  lemma PagesAreAnswers(net: string -> Response, baseHost: string, start: string, maxPages: nat, p: Page)
    requires p in CrawlPages(net, baseHost, start, maxPages)
    ensures net(p.url).Answered? && net(p.url).status < 300
    ensures var body := net(p.url).body;
            && (body.isHtml ==> p.text == body.stripped && p.title == body.title)
            && (!body.isHtml ==> p.text == body.plain && p.title == "")
    ensures Trim(p.text, GO_SPACE) != ""
  {
    var dist := CrawlIsExact(net, baseHost, start, maxPages);
    var i :| 0 <= i < |dist| && CrawlPages(net, baseHost, start, maxPages)[i] == p;
  }

  /** A URL yields a page exactly when the crawl asked for it and it answered below 300 with
      a text that is not blank, whatever the budget. */
  lemma PageIff(net: string -> Response, baseHost: string, start: string, maxPages: nat, u: string)
    ensures (exists p :: p in CrawlPages(net, baseHost, start, maxPages) && p.url == u) <==>
            && u in Fetches(net, baseHost, start, maxPages)
            && net(u).Answered? && net(u).status < 300
            && Trim(if net(u).body.isHtml then net(u).body.stripped else net(u).body.plain, GO_SPACE) != ""
  {
    var g, pages := Graph(net, baseHost), CrawlPages(net, baseHost, start, maxPages);
    if p :| p in pages && p.url == u {
      PagesAreAnswers(net, baseHost, start, maxPages, p);
      ListedAreVisited(g, [start], {}, [], maxPages, p);
      var v :| v in Visited(g, [start], {}, [], maxPages) && g(v).Kept? && g(v).page == p;
    }
    if u in Fetches(net, baseHost, start, maxPages) && g(u).Kept? {
      VisitedAreListed(g, [start], {}, [], maxPages, u);
      assert g(u).page in pages && g(u).page.url == u;
    }
  }

  /** The links the search follows: those of an HTML answer below 300 that has text. */
  lemma EdgeIff(net: string -> Response, baseHost: string, v: string, u: string)
    ensures Edge(Graph(net, baseHost), v, u) <==>
            && net(v).Answered? && net(v).status < 300 && net(v).body.isHtml
            && Trim(net(v).body.stripped, GO_SPACE) != "" && u in LinkSet(baseHost, net(v).body.hrefs)
  {
    if net(v).Answered? {
      var hrefs := net(v).body.hrefs;
      LinksListing(baseHost, hrefs);
      assert u in Elements(Links(baseHost, hrefs)) <==> u in LinkSet(baseHost, hrefs);
    }
  }

  lemma FetchedHasCause(net: string -> Response, baseHost: string, start: string, maxPages: nat, u: string)
    returns (p: Page)
    requires u in Fetches(net, baseHost, start, maxPages) && u != start
    ensures p in CrawlPages(net, baseHost, start, maxPages) && net(p.url).Answered? && net(p.url).body.isHtml
    ensures u in LinkSet(baseHost, net(p.url).body.hrefs)
  {
    var g := Graph(net, baseHost);
    VisitedHaveCause(g, [start], {}, [], maxPages, u);
    var v :| v in Visited(g, [start], {}, [], maxPages) && Edge(g, v, u);
    VisitedAreListed(g, [start], {}, [], maxPages, v);
    EdgeIff(net, baseHost, v, u);
    p := g(v).page;
  }

  lemma LinkIsFetched(net: string -> Response, baseHost: string, start: string, maxPages: nat, p: Page, u: string)
    requires |CrawlPages(net, baseHost, start, maxPages)| < maxPages && p in CrawlPages(net, baseHost, start, maxPages)
    requires net(p.url).Answered? && net(p.url).body.isHtml && u in LinkSet(baseHost, net(p.url).body.hrefs)
    ensures u in Fetches(net, baseHost, start, maxPages)
  {
    PagesAreAnswers(net, baseHost, start, maxPages, p);
    PageIff(net, baseHost, start, maxPages, p.url);
    EdgeIff(net, baseHost, p.url, u);
    LinksAreVisited(Graph(net, baseHost), [start], {}, [], maxPages, p.url, u);
  }

  /** With budget left, the crawl asks for the start and for the links of its HTML pages, and
      for nothing else. */
  lemma FetchedIff(net: string -> Response, baseHost: string, start: string, maxPages: nat, u: string)
    requires |CrawlPages(net, baseHost, start, maxPages)| < maxPages
    ensures u in Fetches(net, baseHost, start, maxPages) <==>
            || u == start
            || exists p :: p in CrawlPages(net, baseHost, start, maxPages) &&
                 net(p.url).Answered? && net(p.url).body.isHtml && u in LinkSet(baseHost, net(p.url).body.hrefs)
  {
    var pages := CrawlPages(net, baseHost, start, maxPages);
    if u == start {
      QueueIsVisited(Graph(net, baseHost), [start], {}, [], maxPages, start);
    } else if u in Fetches(net, baseHost, start, maxPages) {
      var p := FetchedHasCause(net, baseHost, start, maxPages, u);
    }
    if p :| p in pages && net(p.url).Answered? && net(p.url).body.isHtml && u in LinkSet(baseHost, net(p.url).body.hrefs) {
      LinkIsFetched(net, baseHost, start, maxPages, p, u);
    }
  }

  /** When the budget is not used up, the pages are exactly the successful URLs within reach. */
  lemma UnexhaustedCrawlIsComplete(net: string -> Response, baseHost: string, start: string, maxPages: nat, v: string)
    requires |CrawlPages(net, baseHost, start, maxPages)| < maxPages
    ensures (exists i :: 0 <= i < |CrawlPages(net, baseHost, start, maxPages)| &&
                         CrawlPages(net, baseHost, start, maxPages)[i].url == v) <==>
            (Graph(net, baseHost)(v).Kept? && exists n: nat :: Walk(Graph(net, baseHost), start, v, n))
  {
    var g, pages := Graph(net, baseHost), CrawlPages(net, baseHost, start, maxPages);
    var dist := CrawlIsExact(net, baseHost, start, maxPages);
    if i :| 0 <= i < |pages| && pages[i].url == v {
      assert Walk(g, start, v, dist[i]);
    }
  }

  /** A crawl with a smaller budget is the beginning of the crawl with a larger one. */
  lemma SmallerBudgetIsPrefix(net: string -> Response, baseHost: string, start: string, small: nat, large: nat)
    requires small <= large
    ensures var full := CrawlPages(net, baseHost, start, large);
            CrawlPages(net, baseHost, start, small) == full[..Min(small, |full|)]
  {
    BudgetPrefix(Graph(net, baseHost), [start], {}, [], small, large);
  }

  ghost predicate AllWellFormed(hrefs: seq<Href>) {
    forall i :: 0 <= i < |hrefs| && hrefs[i].Resolved? ==> WellFormed(hrefs[i].absolute)
  }

  /** Every parsed link anywhere on the net is what a parser returns. */
  ghost predicate WellFormedNet(net: string -> Response) {
    forall x :: net(x).Answered? ==> AllWellFormed(net(x).body.hrefs)
  }

  ghost predicate Inside(base: string, s: string) {
    IsKey(s) && (IsBare(base, GO_SPACE) ==> IsInternal(base, s))
  }

  /** Every URL a crawl visits, whether it yields a page or not, is a normal URL; and if the
      name of the start's host has no blank at either end, it is on that host: the crawler
      asks no other host for anything. */
  lemma VisitsAreInternal(net: string -> Response, startURL: Url, maxPages: nat, u: string)
    requires WellFormed(startURL) && Normalize(Some(startURL)).Some? && WellFormedNet(net)
    requires var start := Normalize(Some(startURL)).value; u in Fetches(net, BaseHost(start), Print(start), maxPages)
    ensures IsKey(u)
    ensures var base := BaseHost(Normalize(Some(startURL)).value);
            IsBare(base, GO_SPACE) ==> IsInternal(base, u)
  {
    var start := Normalize(Some(startURL)).value;
    StartIsInternal(startURL);
    LowerTwice(Hostname(start.host));
    FetchesStayInside(net, BaseHost(start), Print(start), maxPages, u);
  }

  lemma FetchesStayInside(net: string -> Response, base: string, start: string, maxPages: nat, u: string)
    requires ToLower(base) == base && WellFormedNet(net) && Inside(base, start)
    requires u in Fetches(net, base, start, maxPages)
    ensures Inside(base, u)
  {
    var g := Graph(net, base);
    var inside := (s: string) => Inside(base, s);
    forall x, y | inside(x) && Edge(g, x, y) ensures inside(y) {
      EdgeStaysInside(net, base, x, y);
    }
    VisitedClosed(g, [start], {}, [], maxPages, inside);
  }

  /** Every page of a crawl is one of its visits, so it has a normal URL, on the host of the
      start under the same condition; and no page is blank. */
  lemma PagesAreInternal(net: string -> Response, startURL: Url, maxPages: nat)
    requires WellFormed(startURL) && Normalize(Some(startURL)).Some? && WellFormedNet(net)
    ensures var start := Normalize(Some(startURL)).value;
            forall p :: p in CrawlPages(net, BaseHost(start), Print(start), maxPages) ==>
              && p.url in Fetches(net, BaseHost(start), Print(start), maxPages)
              && Inside(BaseHost(start), p.url) && Trim(p.text, GO_SPACE) != ""
  {
    var start := Normalize(Some(startURL)).value;
    var base := BaseHost(start);
    var g := Graph(net, base);
    forall p | p in CrawlPages(net, base, Print(start), maxPages)
      ensures p.url in Fetches(net, base, Print(start), maxPages)
      ensures Inside(base, p.url) && Trim(p.text, GO_SPACE) != ""
    {
      ListedAreVisited(g, [Print(start)], {}, [], maxPages, p);
      var u :| u in Visited(g, [Print(start)], {}, [], maxPages) && g(u).Kept? && g(u).page == p;
      VisitsAreInternal(net, startURL, maxPages, p.url);
    }
  }

  lemma EdgeStaysInside(net: string -> Response, base: string, x: string, y: string)
    requires ToLower(base) == base && WellFormedNet(net)
    requires Edge(Graph(net, base), x, y)
    ensures Inside(base, y)
  {
    LinksAreInternal(base, net(x).body.hrefs);
  }

  lemma LowerTwice(s: string)
    ensures ToLower(ToLower(s)) == ToLower(s)
  {
  }

  lemma StartIsInternal(u: Url)
    requires WellFormed(u) && Normalize(Some(u)).Some?
    ensures var n := Normalize(Some(u)).value; IsInternal(BaseHost(n), Print(n)) && Inside(BaseHost(n), Print(n))
  {
    var n := Normalize(Some(u)).value;
    NormalFormIff(u);
    HostnameLower(n.host);
    LowerIff(n.host);
  }

  /** A start whose host has no blank anywhere keeps its crawl on that host. */
  lemma PlainHostIsBare(u: Url)
    requires NoneIn(u.host, GO_SPACE) && Normalize(Some(u)).Some?
    ensures IsBare(BaseHost(Normalize(Some(u)).value), GO_SPACE)
  {
    var h := u.host;
    TrimKeepsBare(h, GO_SPACE);
    HostnameLower(h);
    LowerTwice(Hostname(h));
    HostnamePlain(h);
    LowerBare(Hostname(h));
  }

  lemma HostnamePlain(host: string)
    requires NoneIn(host, GO_SPACE)
    ensures IsBare(Hostname(host), GO_SPACE)
  {
    var p := StripPort(host);
    assert NoneIn(p, GO_SPACE);
    var b := StripBrackets(p);
    assert b == p || b == p[1..|p| - 1];
  }
}
