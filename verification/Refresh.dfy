/** What a finished scrape job leaves in the index. */
module Refresh {
  import opened Text
  import opened Options
  import opened Percent
  import opened Urls
  import opened Chunks
  import opened Crawl
  import opened Ingest

  // ---- chunk keys -------------------------------------------------------

  ghost predicate DistinctUrls(pages: seq<Page>) {
    forall i, j :: 0 <= i < j < |pages| ==> pages[i].url != pages[j].url
  }

  ghost predicate DistinctKeys(chunks: seq<RagChunk>) {
    forall i, j :: 0 <= i < j < |chunks| ==>
      chunks[i].url != chunks[j].url || chunks[i].chunkIndex != chunks[j].chunkIndex
  }

  /** A chunk worth a vector that belongs to the source and to one of the pages from a position on. */
  ghost predicate ChunkOf(c: RagChunk, pages: seq<Page>, from: nat, sourceURL: string) {
    && Trim(c.text, GO_SPACE) != "" && c.sourceType == Website && c.sourceKey == sourceURL
    && exists p :: from <= p < |pages| && pages[p].url == c.url
  }

  lemma {:induction false} PageChunksFacts(page: Page, texts: seq<string>, from: nat, widgetKey: string, sourceURL: string)
    requires from <= |texts|
    ensures var cs := PageChunks(page, texts, from, widgetKey, sourceURL);
            && |cs| == |texts| - from
            && forall i :: 0 <= i < |cs| ==>
                 cs[i] == RagChunk(page.url, page.title, texts[from + i], from + i, widgetKey, Website, sourceURL)
    decreases |texts| - from
  {
    if from == |texts| {
    } else {
      PageChunksFacts(page, texts, from + 1, widgetKey, sourceURL);
    }
  }

  lemma ChunkTextsNotBlank(text: string)
    ensures forall i :: 0 <= i < |ChunksOf(text, 500, 75)| ==> Trim(ChunksOf(text, 500, 75)[i], GO_SPACE) != ""
  {
    forall i | 0 <= i < |ChunksOf(text, 500, 75)| ensures Trim(ChunksOf(text, 500, 75)[i], GO_SPACE) != "" {
      ChunksAreNotBlank(text, 500, 75, i);
    }
  }

  lemma {:induction false} ChunksFacts(pages: seq<Page>, from: nat, widgetKey: string, sourceURL: string)
    requires from <= |pages| && DistinctUrls(pages)
    ensures var cs := ChunksFrom(pages, from, widgetKey, sourceURL);
            && DistinctKeys(cs)
            && forall c :: c in cs ==> ChunkOf(c, pages, from, sourceURL)
    decreases |pages| - from
  {
    if from == |pages| {
    } else {
      var texts := ChunksOf(pages[from].text, 500, 75);
      ChunkTextsNotBlank(pages[from].text);
      PageChunksFacts(pages[from], texts, 0, widgetKey, sourceURL);
      ChunksFacts(pages, from + 1, widgetKey, sourceURL);
      var first := PageChunks(pages[from], texts, 0, widgetKey, sourceURL);
      var later := ChunksFrom(pages, from + 1, widgetKey, sourceURL);
      forall c | c in later ensures c.url != pages[from].url && ChunkOf(c, pages, from, sourceURL) {
        assert ChunkOf(c, pages, from + 1, sourceURL);
      }
      forall c | c in first ensures c.url == pages[from].url && ChunkOf(c, pages, from, sourceURL) {
      }
      DistinctKeysConcat(first, later, pages[from].url);
    }
  }

  /** Chunks of one page, all of them in order. */
  ghost predicate IsNumbered(cs: seq<RagChunk>, page: Page, widgetKey: string, sourceURL: string) {
    forall k :: 0 <= k < |cs| ==>
      && cs[k].url == page.url && cs[k].pageTitle == page.title && cs[k].chunkIndex == k
      && cs[k].widgetKey == widgetKey && cs[k].sourceType == Website && cs[k].sourceKey == sourceURL
  }

  ghost function TextsOf(cs: seq<RagChunk>): (texts: seq<string>)
    ensures |texts| == |cs| && forall k :: 0 <= k < |cs| ==> texts[k] == cs[k].text
  {
    seq(|cs|, k requires 0 <= k < |cs| => cs[k].text)
  }

  lemma {:induction false} StretchOfPage(pages: seq<Page>, from: nat, i: nat, widgetKey: string, sourceURL: string)
    returns (before: seq<RagChunk>, own: seq<RagChunk>, after: seq<RagChunk>)
    requires from <= i < |pages|
    ensures ChunksFrom(pages, from, widgetKey, sourceURL) == before + (own + after)
    ensures IsNumbered(own, pages[i], widgetKey, sourceURL) && TextsOf(own) == ChunksOf(pages[i].text, 500, 75)
    decreases i - from
  {
    var texts := ChunksOf(pages[from].text, 500, 75);
    var first := PageChunks(pages[from], texts, 0, widgetKey, sourceURL);
    if i == from {
      PageChunksFacts(pages[from], texts, 0, widgetKey, sourceURL);
      before, own, after := [], first, ChunksFrom(pages, from + 1, widgetKey, sourceURL);
      assert [] + (own + after) == own + after;
    } else {
      before, own, after := StretchOfPage(pages, from + 1, i, widgetKey, sourceURL);
      Associate(first, before, own + after);
      before := first + before;
    }
  }

  lemma TextsCarry(text: string, texts: seq<string>)
    requires texts == ChunksOf(text, 500, 75)
    ensures Recover(SplitAll(texts), 75) == Fields(text, GO_SPACE)
    ensures forall k :: 0 <= k < |texts| ==> 0 < |Fields(texts[k], GO_SPACE)| <= 500
  {
    var ws := ChunksLoseNothing(text, 500, 75);
    assert SizeOf(500) == 500 && StepOf(500, 75) == 425;
    forall k | 0 <= k < |texts| ensures 0 < |Fields(texts[k], GO_SPACE)| <= 500 {
      assert ws[k] == Fields(texts[k], GO_SPACE);
    }
  }

  /** The chunks of a page stand together, in order and under the page's URL and title, have
      at most 500 words each, and carry exactly the words of the page once the overlaps of
      75 words are cut off. */
  lemma ChunksCarryPages(pages: seq<Page>, i: nat, widgetKey: string, sourceURL: string)
    returns (before: seq<RagChunk>, own: seq<RagChunk>, after: seq<RagChunk>)
    requires i < |pages|
    ensures ChunksFrom(pages, 0, widgetKey, sourceURL) == before + (own + after)
    ensures IsNumbered(own, pages[i], widgetKey, sourceURL)
    ensures Recover(SplitAll(TextsOf(own)), 75) == Fields(pages[i].text, GO_SPACE)
    ensures forall k :: 0 <= k < |own| ==> 0 < |Fields(own[k].text, GO_SPACE)| <= 500
  {
    before, own, after := StretchOfPage(pages, 0, i, widgetKey, sourceURL);
    var texts := TextsOf(own);
    TextsCarry(pages[i].text, texts);
    forall k | 0 <= k < |own| ensures 0 < |Fields(own[k].text, GO_SPACE)| <= 500 {
      assert texts[k] == own[k].text;
    }
  }

  lemma DistinctKeysConcat(a: seq<RagChunk>, b: seq<RagChunk>, url: string)
    requires DistinctKeys(a) && DistinctKeys(b)
    requires forall c :: c in a ==> c.url == url
    requires forall c :: c in b ==> c.url != url
    ensures DistinctKeys(a + b)
  {
    forall i, j | 0 <= i < j < |a + b|
      ensures (a + b)[i].url != (a + b)[j].url || (a + b)[i].chunkIndex != (a + b)[j].chunkIndex
    {
      if i < |a| && j >= |a| {
        assert a[i] in a && b[j - |a|] in b;
      }
    }
  }

  // ---- vectors ----------------------------------------------------------

  ghost predicate DistinctIds(vs: seq<(VectorId, Meta)>) {
    forall i, j :: 0 <= i < j < |vs| ==> vs[i].0 != vs[j].0
  }

  ghost function Ids(vs: seq<(VectorId, Meta)>): set<VectorId> {
    set i | 0 <= i < |vs| :: vs[i].0
  }

  lemma IdsStep(vs: seq<(VectorId, Meta)>)
    requires vs != []
    ensures Ids(vs) == Ids(vs[..|vs| - 1]) + {vs[|vs| - 1].0}
  {
    var n := |vs| - 1;
    forall id | id in Ids(vs[..n]) ensures id in Ids(vs) {
      var i :| 0 <= i < n && vs[..n][i].0 == id;
      assert vs[i].0 == id;
    }
    forall id | id in Ids(vs) && id != vs[n].0 ensures id in Ids(vs[..n]) {
      var i :| 0 <= i < |vs| && vs[i].0 == id;
      assert vs[..n][i].0 == id;
    }
  }

  lemma {:induction false} PutKeys(m: Vectors, vs: seq<(VectorId, Meta)>)
    ensures Put(m, vs).Keys == m.Keys + Ids(vs)
  {
    if vs == [] {
    } else {
      PutKeys(m, vs[..|vs| - 1]);
      IdsStep(vs);
    }
  }

  lemma {:induction false} PutKeeps(m: Vectors, vs: seq<(VectorId, Meta)>, id: VectorId)
    requires id in m && id !in Ids(vs)
    ensures id in Put(m, vs) && Put(m, vs)[id] == m[id]
  {
    if vs == [] {
    } else {
      IdsStep(vs);
      PutKeeps(m, vs[..|vs| - 1], id);
    }
  }

  lemma {:induction false} PutStores(m: Vectors, vs: seq<(VectorId, Meta)>, i: nat)
    requires DistinctIds(vs) && i < |vs|
    ensures vs[i].0 in Put(m, vs) && Put(m, vs)[vs[i].0] == vs[i].1
  {
    var n := |vs| - 1;
    if i == n {
    } else {
      assert vs[..n][i] == vs[i];
      PutStores(m, vs[..n], i);
    }
  }

  /** Upserting a batch with distinct ids stores exactly the batch over the old vectors. */
  lemma PutFacts(m: Vectors, vs: seq<(VectorId, Meta)>)
    requires DistinctIds(vs)
    ensures Put(m, vs).Keys == m.Keys + Ids(vs)
    ensures forall i :: 0 <= i < |vs| ==> vs[i].0 in Put(m, vs) && Put(m, vs)[vs[i].0] == vs[i].1
    ensures forall id :: id in m && id !in Ids(vs) ==> Put(m, vs)[id] == m[id]
  {
    PutKeys(m, vs);
    forall i | 0 <= i < |vs| ensures vs[i].0 in Put(m, vs) && Put(m, vs)[vs[i].0] == vs[i].1 { PutStores(m, vs, i); }
    forall id | id in m && id !in Ids(vs) ensures Put(m, vs)[id] == m[id] { PutKeeps(m, vs, id); }
  }

  /** A text without blanks, as every printed URL is. */
  ghost predicate Tight(s: string) {
    s != "" && NoneIn(s, GO_SPACE)
  }

  lemma TightKey(c: RagChunk)
    requires Tight(c.sourceKey)
    ensures SourceKeyOf(c) == c.sourceKey
  {
    TrimOfTight(c.sourceKey);
  }

  lemma TrimOfTight(s: string)
    requires Tight(s)
    ensures Trim(s, GO_SPACE) == s
  {
  }

  lemma TightId(ns: string, sourceKey: string, url: string, chunkIndex: nat)
    requires Tight(sourceKey) && Tight(url)
    ensures StablePineconeVectorID(ns, Website, sourceKey, url, chunkIndex) ==
            Stable(Trim(ns, GO_SPACE), Website, sourceKey, url, chunkIndex)
  {
    TrimOfTight(sourceKey);
    TrimOfTight(url);
  }

  ghost predicate KeyedVector(v: (VectorId, Meta), c: RagChunk, sourceURL: string) {
    && v.0.Stable? && v.0.sourceType == Website && v.0.sourceKey == sourceURL
    && v.0.url == c.url && v.0.chunkIndex == c.chunkIndex
    && v.1.sourceType == Website && v.1.sourceKey == sourceURL
  }

  /** The vector of a website chunk with tight keys. */
  lemma VectorOfFacts(ns: string, c: RagChunk)
    requires c.sourceType == Website && Tight(c.sourceKey) && Tight(c.url)
    ensures KeyedVector(VectorOf(ns, c), c, c.sourceKey)
  {
    TightKey(c);
    TightId(ns, c.sourceKey, c.url, c.chunkIndex);
  }

  predicate Embeds(c: RagChunk, embeds: string -> bool) {
    Trim(c.text, GO_SPACE) != "" && embeds(Trim(c.text, GO_SPACE))
  }

  /** The elements from a position on that satisfy a test, in order. */
  ghost function Picked<X>(p: X -> bool, xs: seq<X>, from: nat): seq<X>
    requires from <= |xs|
    decreases |xs| - from
  {
    if from == |xs| then []
    else (if p(xs[from]) then [xs[from]] else []) + Picked(p, xs, from + 1)
  }

  lemma PickedStep<X>(p: X -> bool, xs: seq<X>, from: nat)
    requires from < |xs|
    ensures Picked(p, xs, from) ==
            if p(xs[from]) then [xs[from]] + Picked(p, xs, from + 1) else Picked(p, xs, from + 1)
  {
  }

  lemma BehindFront<X>(x: X, xs: seq<X>, i: nat)
    requires 0 < i <= |xs|
    ensures ([x] + xs)[i] == xs[i - 1]
  {
  }

  lemma {:induction false} PickedAt<X>(p: X -> bool, xs: seq<X>, from: nat, i: nat) returns (k: nat)
    requires from <= |xs| && i < |Picked(p, xs, from)|
    ensures from <= k < |xs| && xs[k] == Picked(p, xs, from)[i] && p(xs[k])
    decreases |xs| - from
  {
    PickedStep(p, xs, from);
    if !p(xs[from]) {
      k := PickedAt(p, xs, from + 1, i);
    } else if i == 0 {
      k := from;
    } else {
      k := PickedAt(p, xs, from + 1, i - 1);
      BehindFront(xs[from], Picked(p, xs, from + 1), i);
    }
  }

  lemma InFront<X>(x: X, y: X, ys: seq<X>)
    requires x == y || x in ys
    ensures x in [y] + ys
  {
    if x == y { assert ([y] + ys)[0] == x; }
  }

  lemma {:induction false} PickedHas<X>(p: X -> bool, xs: seq<X>, from: nat, k: nat)
    requires from <= k < |xs| && p(xs[k])
    ensures xs[k] in Picked(p, xs, from)
    decreases |xs| - from
  {
    PickedStep(p, xs, from);
    var later := Picked(p, xs, from + 1);
    if k == from {
      InFront(xs[k], xs[from], later);
    } else {
      PickedHas(p, xs, from + 1, k);
      InFront(xs[k], xs[from], later);
    }
  }

  lemma {:induction false} PickedAll<X>(p: X -> bool, xs: seq<X>, from: nat)
    requires from <= |xs| && forall k :: from <= k < |xs| ==> p(xs[k])
    ensures Picked(p, xs, from) == xs[from..]
    decreases |xs| - from
  {
    if from == |xs| {
    } else {
      PickedStep(p, xs, from);
      PickedAll(p, xs, from + 1);
      assert xs[from..] == [xs[from]] + xs[from + 1..];
    }
  }

  ghost predicate Maps<X, Y>(f: X -> Option<Y>, xs: seq<X>, ys: seq<Y>) {
    |ys| == |xs| && forall i :: 0 <= i < |ys| ==> f(xs[i]) == Some(ys[i])
  }

  lemma MapsStep<X, Y>(f: X -> Option<Y>, x: X, xs: seq<X>, ys: seq<Y>)
    requires f(x).Some? && Maps(f, xs, ys)
    ensures Maps(f, [x] + xs, [f(x).value] + ys)
  {
  }

  /** What a partial function yields is what it yields on the elements it is defined on. */
  lemma {:induction false} SomesArePicked<X, Y>(f: X -> Option<Y>, p: X -> bool, xs: seq<X>, from: nat)
    requires from <= |xs| && forall k :: 0 <= k < |xs| ==> (f(xs[k]).Some? <==> p(xs[k]))
    ensures Maps(f, Picked(p, xs, from), Somes(f, xs, from))
    decreases |xs| - from
  {
    if from == |xs| {
    } else {
      PickedStep(p, xs, from);
      SomesStep(f, xs, from);
      SomesArePicked(f, p, xs, from + 1);
      if p(xs[from]) {
        MapsStep(f, xs[from], Picked(p, xs, from + 1), Somes(f, xs, from + 1));
      }
    }
  }

  lemma KeysApart(c: RagChunk, later: seq<RagChunk>)
    requires DistinctKeys(later)
    requires forall j :: 0 <= j < |later| ==> c.url != later[j].url || c.chunkIndex != later[j].chunkIndex
    ensures DistinctKeys([c] + later)
  {
  }

  lemma {:induction false} PickedDistinct(p: RagChunk -> bool, chunks: seq<RagChunk>, from: nat)
    requires from <= |chunks| && DistinctKeys(chunks)
    ensures DistinctKeys(Picked(p, chunks, from))
    decreases |chunks| - from
  {
    if from == |chunks| {
    } else {
      PickedStep(p, chunks, from);
      PickedDistinct(p, chunks, from + 1);
      var later := Picked(p, chunks, from + 1);
      forall j | 0 <= j < |later|
        ensures chunks[from].url != later[j].url || chunks[from].chunkIndex != later[j].chunkIndex
      {
        var k := PickedAt(p, chunks, from + 1, j);
      }
      KeysApart(chunks[from], later);
    }
  }

  /** The chunks that yield a vector: those that are not blank and whose embedding succeeds. */
  ghost function Embeddable(chunks: seq<RagChunk>, embeds: string -> bool): seq<RagChunk> {
    Picked(c => Embeds(c, embeds), chunks, 0)
  }

  lemma EmbedderYields(ns: string, embeds: string -> bool, c: RagChunk)
    ensures Embedder(ns, embeds)(c) == if Embeds(c, embeds) then Some(VectorOf(ns, c)) else None
  {
  }

  ghost predicate AreVectorsOf(ns: string, vs: seq<(VectorId, Meta)>, chunks: seq<RagChunk>) {
    |vs| == |chunks| && forall i :: 0 <= i < |vs| ==> vs[i] == VectorOf(ns, chunks[i])
  }

  lemma VectorsAreEmbeddable(ns: string, chunks: seq<RagChunk>, embeds: string -> bool)
    ensures AreVectorsOf(ns, VectorsOf(ns, chunks, embeds), Embeddable(chunks, embeds))
  {
    var f, p := Embedder(ns, embeds), (c: RagChunk) => Embeds(c, embeds);
    forall k | 0 <= k < |chunks| ensures f(chunks[k]).Some? <==> p(chunks[k]) {
      EmbedderYields(ns, embeds, chunks[k]);
    }
    SomesArePicked(f, p, chunks, 0);
    var some, vs := Embeddable(chunks, embeds), VectorsOf(ns, chunks, embeds);
    forall i | 0 <= i < |vs| ensures vs[i] == VectorOf(ns, some[i]) {
      EmbedderYields(ns, embeds, some[i]);
    }
  }

  ghost predicate Indexable(c: RagChunk, sourceURL: string) {
    c.sourceType == Website && c.sourceKey == sourceURL && Tight(c.url)
  }

  /** Every vector of the batch carries the source's key in its id and its metadata. */
  ghost predicate AllKeyed(vs: seq<(VectorId, Meta)>, sourceURL: string) {
    forall i :: 0 <= i < |vs| ==>
      vs[i].0.Stable? && vs[i].0.sourceType == vs[i].1.sourceType == Website &&
      vs[i].0.sourceKey == vs[i].1.sourceKey == sourceURL
  }

  lemma KeyedVectors(ns: string, vs: seq<(VectorId, Meta)>, chunks: seq<RagChunk>, sourceURL: string)
    requires AreVectorsOf(ns, vs, chunks) && DistinctKeys(chunks) && Tight(sourceURL)
    requires forall i :: 0 <= i < |chunks| ==> Indexable(chunks[i], sourceURL)
    ensures DistinctIds(vs) && AllKeyed(vs, sourceURL)
  {
    forall i | 0 <= i < |vs| ensures KeyedVector(vs[i], chunks[i], sourceURL) {
      assert Indexable(chunks[i], sourceURL);
      VectorOfFacts(ns, chunks[i]);
    }
  }

  lemma VectorsOfChunks(ns: string, chunks: seq<RagChunk>, embeds: string -> bool, sourceURL: string)
    requires DistinctKeys(chunks) && Tight(sourceURL)
    requires forall c :: c in chunks ==> Indexable(c, sourceURL)
    ensures var vs := VectorsOf(ns, chunks, embeds);
            AreVectorsOf(ns, vs, Embeddable(chunks, embeds)) && DistinctIds(vs) && AllKeyed(vs, sourceURL)
  {
    var some := Embeddable(chunks, embeds);
    VectorsAreEmbeddable(ns, chunks, embeds);
    PickedDistinct(c => Embeds(c, embeds), chunks, 0);
    forall i | 0 <= i < |some| ensures Indexable(some[i], sourceURL) {
      var k := PickedAt(c => Embeds(c, embeds), chunks, 0, i);
    }
    KeyedVectors(ns, VectorsOf(ns, chunks, embeds), some, sourceURL);
  }

  // ---- the refreshed namespace ------------------------------------------

  ghost predicate Keyed(meta: Meta, sourceURL: string) {
    meta.sourceType == Website && meta.sourceKey == sourceURL
  }

  /** The new namespace: exactly the batch under the source, and of everything else
      all but, if the second delete was applied, the vectors of the source's own URL. */
  ghost predicate IsRefreshOf(m: Vectors, m': Vectors, sourceURL: string, vs: seq<(VectorId, Meta)>, urlDeleted: bool) {
    && (forall id :: id in m' && Keyed(m'[id], sourceURL) <==> id in Ids(vs))
    && (forall i :: 0 <= i < |vs| ==> vs[i].0 in m' && m'[vs[i].0] == vs[i].1)
    && (forall id :: id in m' && !Keyed(m'[id], sourceURL) <==>
          id in m && !Keyed(m[id], sourceURL) && !(urlDeleted && m[id].url == sourceURL))
    && (forall id :: id in m' && !Keyed(m'[id], sourceURL) ==> m'[id] == m[id])
  }

  /** What the two deletes leave. */
  ghost predicate IsKept(m: Vectors, base: Vectors, sourceURL: string, urlDeleted: bool) {
    && (forall id :: id in base <==>
          id in m && !Keyed(m[id], sourceURL) && !(urlDeleted && m[id].url == sourceURL))
    && (forall id :: id in base ==> base[id] == m[id])
  }

  /** The namespace holds a chunk's vector: its id, and all of its content. */
  ghost predicate HoldsChunk(m: Vectors, ns: string, sourceURL: string, c: RagChunk) {
    var id := Stable(Trim(ns, GO_SPACE), Website, sourceURL, c.url, c.chunkIndex);
    && id in m
    && m[id].text == Trim(c.text, GO_SPACE) && m[id].pageTitle == Trim(c.pageTitle, GO_SPACE)
    && m[id].url == c.url && m[id].chunkIndex == c.chunkIndex && m[id].widgetKey == Trim(c.widgetKey, GO_SPACE)
    && m[id].sourceType == Website && m[id].sourceKey == sourceURL
  }

  ghost predicate HoldsChunks(m: Vectors, ns: string, sourceURL: string, chunks: seq<RagChunk>) {
    forall i :: 0 <= i < |chunks| ==> HoldsChunk(m, ns, sourceURL, chunks[i])
  }

  lemma VectorHoldsChunk(m: Vectors, ns: string, sourceURL: string, c: RagChunk)
    requires Indexable(c, sourceURL) && Tight(sourceURL)
    requires VectorOf(ns, c).0 in m && m[VectorOf(ns, c).0] == VectorOf(ns, c).1
    ensures HoldsChunk(m, ns, sourceURL, c)
  {
    TightKey(c);
    TightId(ns, sourceURL, c.url, c.chunkIndex);
  }

  lemma RefreshHoldsChunks(m: Vectors, m': Vectors, ns: string, sourceURL: string, chunks: seq<RagChunk>,
                           vs: seq<(VectorId, Meta)>, urlDeleted: bool)
    requires IsRefreshOf(m, m', sourceURL, vs, urlDeleted) && AreVectorsOf(ns, vs, chunks) && Tight(sourceURL)
    requires forall i :: 0 <= i < |chunks| ==> Indexable(chunks[i], sourceURL)
    ensures HoldsChunks(m', ns, sourceURL, chunks)
  {
    forall i | 0 <= i < |chunks| ensures HoldsChunk(m', ns, sourceURL, chunks[i]) {
      assert vs[i] == VectorOf(ns, chunks[i]);
      VectorHoldsChunk(m', ns, sourceURL, chunks[i]);
    }
  }

  lemma DeletesKeep(m: Vectors, sourceURL: string, urlDeleted: bool)
    ensures var kept := WithoutSource(m, Website, sourceURL);
            IsKept(m, if urlDeleted then WithoutUrl(kept, sourceURL) else kept, sourceURL, urlDeleted)
  {
  }

  lemma BatchIsKeyed(base: Vectors, vs: seq<(VectorId, Meta)>, sourceURL: string, id: VectorId)
    requires DistinctIds(vs) && AllKeyed(vs, sourceURL) && id in Ids(vs)
    ensures id in Put(base, vs) && Keyed(Put(base, vs)[id], sourceURL)
    ensures id.Stable? && id.sourceType == Website && id.sourceKey == sourceURL
  {
    PutFacts(base, vs);
    var i :| 0 <= i < |vs| && vs[i].0 == id;
    assert Put(base, vs)[vs[i].0] == vs[i].1;
  }

  lemma PutIsRefresh(m: Vectors, base: Vectors, sourceURL: string, vs: seq<(VectorId, Meta)>, urlDeleted: bool)
    requires Consistent(m) && IsKept(m, base, sourceURL, urlDeleted) && DistinctIds(vs) && AllKeyed(vs, sourceURL)
    ensures IsRefreshOf(m, Put(base, vs), sourceURL, vs, urlDeleted)
  {
    PutFacts(base, vs);
    forall id | id in Ids(vs)
      ensures id in Put(base, vs) && Keyed(Put(base, vs)[id], sourceURL) && id !in base
    {
      BatchIsKeyed(base, vs, sourceURL, id);
      assert id in base ==> Agrees(id, m[id]);
    }
    forall i | 0 <= i < |vs| ensures vs[i].0 in Ids(vs) {
    }
  }

  lemma PagesAreIndexable(pages: seq<Page>, widgetKey: string, sourceURL: string)
    requires DistinctUrls(pages) && forall p :: p in pages ==> Tight(p.url)
    ensures var chunks := ChunksFrom(pages, 0, widgetKey, sourceURL);
            DistinctKeys(chunks) && forall c :: c in chunks ==> Indexable(c, sourceURL) && Trim(c.text, GO_SPACE) != ""
  {
    ChunksFacts(pages, 0, widgetKey, sourceURL);
    forall c | c in ChunksFrom(pages, 0, widgetKey, sourceURL)
      ensures Indexable(c, sourceURL) && Trim(c.text, GO_SPACE) != ""
    {
      assert ChunkOf(c, pages, 0, sourceURL);
      var p :| 0 <= p < |pages| && pages[p].url == c.url;
      assert pages[p] in pages;
    }
  }

  /** The chunks of a crawl that make its batch: those whose embedding succeeds. */
  ghost function Batched(pages: seq<Page>, widgetKey: string, sourceURL: string, embeds: string -> bool): seq<RagChunk> {
    Embeddable(ChunksFrom(pages, 0, widgetKey, sourceURL), embeds)
  }

  lemma EmbeddableIff(chunks: seq<RagChunk>, embeds: string -> bool)
    ensures forall c :: c in Embeddable(chunks, embeds) <==> c in chunks && Embeds(c, embeds)
    ensures (forall c :: c in chunks ==> Embeds(c, embeds)) ==> Embeddable(chunks, embeds) == chunks
  {
    var p, some := (c: RagChunk) => Embeds(c, embeds), Embeddable(chunks, embeds);
    forall c | c in some ensures c in chunks && Embeds(c, embeds) {
      var i :| 0 <= i < |some| && some[i] == c;
      var k := PickedAt(p, chunks, 0, i);
      assert p(c);
    }
    forall c | c in chunks && Embeds(c, embeds) ensures c in some {
      var k :| 0 <= k < |chunks| && chunks[k] == c;
      assert p(chunks[k]);
      PickedHas(p, chunks, 0, k);
    }
    if forall c :: c in chunks ==> Embeds(c, embeds) {
      PickedAll(p, chunks, 0);
    }
  }

  /** A chunk of a crawl is in the batch exactly when its embedding succeeds; if all succeed,
      the batch has all chunks in order. */
  lemma BatchedIff(pages: seq<Page>, widgetKey: string, sourceURL: string, embeds: string -> bool)
    requires DistinctUrls(pages) && forall p :: p in pages ==> Tight(p.url)
    ensures var chunks := ChunksFrom(pages, 0, widgetKey, sourceURL);
            var some := Batched(pages, widgetKey, sourceURL, embeds);
            && (forall c :: c in some <==> c in chunks && embeds(Trim(c.text, GO_SPACE)))
            && ((forall c :: c in chunks ==> embeds(Trim(c.text, GO_SPACE))) ==> some == chunks)
  {
    PagesAreIndexable(pages, widgetKey, sourceURL);
    EmbeddableIff(ChunksFrom(pages, 0, widgetKey, sourceURL), embeds);
  }

  lemma BatchedIndexable(pages: seq<Page>, widgetKey: string, sourceURL: string, embeds: string -> bool)
    requires DistinctUrls(pages) && forall p :: p in pages ==> Tight(p.url)
    ensures var some := Batched(pages, widgetKey, sourceURL, embeds);
            forall i :: 0 <= i < |some| ==> Indexable(some[i], sourceURL)
  {
    var some := Batched(pages, widgetKey, sourceURL, embeds);
    PagesAreIndexable(pages, widgetKey, sourceURL);
    EmbeddableIff(ChunksFrom(pages, 0, widgetKey, sourceURL), embeds);
    forall i | 0 <= i < |some| ensures Indexable(some[i], sourceURL) {
      assert some[i] in some;
    }
  }

  /** The batch of a crawl: one vector per embedded chunk, with distinct ids, keyed to the
      source. */
  lemma PipelineVectors(ns: string, sourceURL: string, pages: seq<Page>, widgetKey: string, embeds: string -> bool)
    requires Tight(sourceURL) && DistinctUrls(pages) && forall p :: p in pages ==> Tight(p.url)
    ensures var vs := VectorsOf(ns, ChunksFrom(pages, 0, widgetKey, sourceURL), embeds);
            && AreVectorsOf(ns, vs, Batched(pages, widgetKey, sourceURL, embeds))
            && DistinctIds(vs) && AllKeyed(vs, sourceURL)
  {
    PagesAreIndexable(pages, widgetKey, sourceURL);
    VectorsOfChunks(ns, ChunksFrom(pages, 0, widgetKey, sourceURL), embeds, sourceURL);
  }

  /** The main result on the index: after a job whose requests were all answered, the source
      has exactly one vector per chunk of the crawled pages whose embedding succeeded, with
      distinct ids and the chunk's text, title, URL, number and widget; nothing else is lost
      but vectors whose URL is the source URL; other namespaces are untouched. */
  lemma FinishedJobRefreshes(index: Index, ns: string, sourceURL: string, pages: seq<Page>, widgetKey: string,
                             embeds: string -> bool, delSource: Call, delUrl: Call, upsert: Call)
    requires Tight(sourceURL) && DistinctUrls(pages)
    requires forall p :: p in pages ==> Tight(p.url)
    requires AllConsistent(index)
    ensures var vs := VectorsOf(ns, ChunksFrom(pages, 0, widgetKey, sourceURL), embeds);
            var answer := Replace(Ready, index, ns, sourceURL, vs, delSource, delUrl, upsert);
            && AreVectorsOf(ns, vs, Batched(pages, widgetKey, sourceURL, embeds)) && DistinctIds(vs)
            && (answer.ok ==>
                  && IsRefreshOf(In(index, ns), In(answer.index, ns), sourceURL, vs, !delUrl.Rejected?)
                  && HoldsChunks(In(answer.index, ns), ns, sourceURL, Batched(pages, widgetKey, sourceURL, embeds)))
            && (forall other :: other != ns ==> In(answer.index, other) == In(index, other))
  {
    var vs := VectorsOf(ns, ChunksFrom(pages, 0, widgetKey, sourceURL), embeds);
    PipelineVectors(ns, sourceURL, pages, widgetKey, embeds);
    var m := In(index, ns);
    var kept := WithoutSource(m, Website, sourceURL);
    DeletesKeep(m, sourceURL, !delUrl.Rejected?);
    PutIsRefresh(m, if delUrl.Rejected? then kept else WithoutUrl(kept, sourceURL), sourceURL, vs, !delUrl.Rejected?);
    ReplaceComputes(index, ns, sourceURL, vs, delSource, delUrl, upsert);
    var answer := Replace(Ready, index, ns, sourceURL, vs, delSource, delUrl, upsert);
    if answer.ok {
      BatchedIndexable(pages, widgetKey, sourceURL, embeds);
      RefreshHoldsChunks(m, In(answer.index, ns), ns, sourceURL, Batched(pages, widgetKey, sourceURL, embeds), vs,
                         !delUrl.Rejected?);
    }
  }

  lemma ReplaceComputes(index: Index, ns: string, sourceURL: string, vs: seq<(VectorId, Meta)>,
                        delSource: Call, delUrl: Call, upsert: Call)
    requires Tight(sourceURL)
    ensures var answer := Replace(Ready, index, ns, sourceURL, vs, delSource, delUrl, upsert);
            && (answer.ok ==>
                  In(answer.index, ns) ==
                  Put(if delUrl.Rejected? then WithoutSource(In(index, ns), Website, sourceURL)
                      else WithoutUrl(WithoutSource(In(index, ns), Website, sourceURL), sourceURL), vs))
            && (forall other :: other != ns ==> In(answer.index, other) == In(index, other))
  {
    assert Trim(sourceURL, GO_SPACE) == sourceURL;
  }

  /** When a job's requests count as done, whatever the service is like: not without the
      service, unless there is no API key, and not after a failed delete or upsert. */
  lemma ReplaceOkIff(service: Service, index: Index, ns: string, sourceURL: string, vs: seq<(VectorId, Meta)>,
                     delSource: Call, delUrl: Call, upsert: Call)
    requires Tight(sourceURL)
    ensures Replace(service, index, ns, sourceURL, vs, delSource, delUrl, upsert).ok <==>
            service.NoKey? || (service.Ready? && delSource.Success? && (vs == [] || upsert.Success?))
  {
    TrimOfTight(sourceURL);
  }

  /** What a job leaves in the index, however its requests are answered: without the service
      all as it was; with it, all as it was if the first delete was rejected, the source's
      vectors gone if that delete was applied but its answer lost, and else what the two
      deletes leave, with the batch on top unless the upsert was rejected. */
  lemma JobLeaves(service: Service, index: Index, ns: string, sourceURL: string, vs: seq<(VectorId, Meta)>,
                  delSource: Call, delUrl: Call, upsert: Call) returns (base: Vectors)
    requires Tight(sourceURL)
    ensures var answer := Replace(service, index, ns, sourceURL, vs, delSource, delUrl, upsert);
            var after := In(answer.index, ns);
            && (!service.Ready? || delSource.Rejected? ==> answer.index == index)
            && (service.Ready? && delSource.Lost? ==> IsKept(In(index, ns), after, sourceURL, false))
            && (service.Ready? && delSource.Success? ==>
                  && IsKept(In(index, ns), base, sourceURL, !delUrl.Rejected?)
                  && after == if upsert.Rejected? then base else Put(base, vs))
            && (forall other :: other != ns ==> In(answer.index, other) == In(index, other))
  {
    base := In(index, ns);
    if service.Ready? {
      DeletedBySource(index, ns, sourceURL, delSource);
      var d := DeleteBySource(Ready, index, ns, Website, sourceURL, delSource);
      if delSource.Success? {
        DeletedByUrl(In(index, ns), d.index, ns, sourceURL, delUrl);
        var u := DeleteByUrl(Ready, d.index, ns, sourceURL, delUrl);
        UpsertLeaves(u.index, ns, vs, upsert);
        base := In(u.index, ns);
      }
    } else {
      TrimOfTight(sourceURL);
    }
  }

  lemma DeletedBySource(index: Index, ns: string, sourceURL: string, call: Call)
    requires Tight(sourceURL)
    ensures var d := DeleteBySource(Ready, index, ns, Website, sourceURL, call);
            && d.ok == call.Success? && (call.Rejected? ==> d.index == index)
            && (!call.Rejected? ==>
                  && In(d.index, ns) == WithoutSource(In(index, ns), Website, sourceURL)
                  && IsKept(In(index, ns), In(d.index, ns), sourceURL, false))
            && (forall other :: other != ns ==> In(d.index, other) == In(index, other))
  {
    TrimOfTight(sourceURL);
    DeletesKeep(In(index, ns), sourceURL, false);
  }

  lemma UpsertLeaves(index: Index, ns: string, vs: seq<(VectorId, Meta)>, call: Call)
    ensures var after := Upsert(Ready, index, ns, vs, call).index;
            && In(after, ns) == (if call.Rejected? then In(index, ns) else Put(In(index, ns), vs))
            && (forall other :: other != ns ==> In(after, other) == In(index, other))
  {
  }

  lemma DeletedByUrl(m: Vectors, deleted: Index, ns: string, sourceURL: string, delUrl: Call)
    requires Tight(sourceURL) && In(deleted, ns) == WithoutSource(m, Website, sourceURL)
    ensures IsKept(m, In(DeleteByUrl(Ready, deleted, ns, sourceURL, delUrl).index, ns), sourceURL, !delUrl.Rejected?)
    ensures forall other :: other != ns ==>
              In(DeleteByUrl(Ready, deleted, ns, sourceURL, delUrl).index, other) == In(deleted, other)
  {
    TrimOfTight(sourceURL);
    DeletesKeep(m, sourceURL, !delUrl.Rejected?);
  }

  /** When a removal counts as done: only without an API key, without a host, or after a
      delete by source that succeeded; in the first two cases it has deleted nothing. */
  lemma RemovalOkIff(service: Service, index: Index, ns: string, sourceURL: string, delSource: Call, delUrl: Call)
    requires Tight(sourceURL)
    ensures var answer := Removal(service, index, ns, sourceURL, delSource, delUrl);
            && (answer.ok <==> service.NoKey? || service.NoHost? || (service.Ready? && delSource.Success?))
            && (!service.Ready? ==> answer.index == index)
  {
    TrimOfTight(sourceURL);
  }

  /** A removed source leaves no vector under its key, and takes along only vectors whose
      URL is the source URL; other namespaces are untouched. */
  lemma RemovedSourceLeavesNothing(index: Index, ns: string, sourceURL: string, delSource: Call, delUrl: Call)
    requires Tight(sourceURL)
    ensures var answer := Removal(Ready, index, ns, sourceURL, delSource, delUrl);
            var after := In(answer.index, ns);
            && (answer.ok ==>
                  && IsKept(In(index, ns), after, sourceURL, !delUrl.Rejected?)
                  && (forall id :: id in after ==> !Keyed(after[id], sourceURL)))
            && (forall other :: other != ns ==> In(answer.index, other) == In(index, other))
  {
    TrimOfTight(sourceURL);
    DeletesKeep(In(index, ns), sourceURL, !delUrl.Rejected?);
  }

  // ---- printed URLs are tight, namespaces are distinct ------------------

  lemma HostIsTight(host: string)
    ensures NoneIn(EscapeHost(host), GO_SPACE)
  {
    var e := EscapeHost(host);
    forall i | 0 <= i < |e| ensures e[i] !in GO_SPACE {
      EscapedChars(KeptInHost, host, i);
      assert !IsSpace(e[i]);
    }
  }

  lemma PathIsTight(e: string)
    requires ValidEncoded(e)
    ensures NoneIn(e, GO_SPACE)
  {
    forall i | 0 <= i < |e| ensures e[i] !in GO_SPACE {
      assert LeftInPath(e[i]) && !IsSpace(e[i]);
    }
  }

  lemma PrintIsTight(u: Url)
    requires IsNormal(u)
    ensures Tight(Print(u))
  {
    assert !IsSpace('h') && !IsSpace('t') && !IsSpace('p') && !IsSpace('s') && !IsSpace(':') && !IsSpace('/') && !IsSpace('?');
    assert NoneIn(u.scheme, GO_SPACE) && NoneIn("://", GO_SPACE) && NoneIn(Mark(u), GO_SPACE);
    EscapedPathFacts(u);
    PathIsTight(EscapedPath(u));
    HostIsTight(u.host);
    NoneInConcat(EscapedPath(u), Mark(u));
    NoneInConcat(EscapeHost(u.host), AfterHost(u));
    NoneInConcat("://", EscapeHost(u.host) + AfterHost(u));
    NoneInConcat(u.scheme, AfterScheme(u));
  }

  lemma NoneInConcat(a: string, b: string)
    requires NoneIn(a, GO_SPACE) && NoneIn(b, GO_SPACE)
    ensures NoneIn(a + b, GO_SPACE)
  {
  }

  /** The pages a crawl hands to the index have tight, pairwise distinct URLs. */
  lemma CrawledPagesAreIndexable(net: string -> Response, startURL: Url, maxPages: nat)
    requires WellFormed(startURL) && Normalize(Some(startURL)).Some?
    requires WellFormedNet(net)
    ensures var start := Normalize(Some(startURL)).value;
            var pages := CrawlPages(net, BaseHost(start), Print(start), maxPages);
            DistinctUrls(pages) && (forall p :: p in pages ==> Tight(p.url)) && Tight(Print(start))
  {
    var start := Normalize(Some(startURL)).value;
    NormalFormIff(startURL);
    PrintIsTight(start);
    var pages := CrawlPages(net, BaseHost(start), Print(start), maxPages);
    var dist := CrawlIsExact(net, BaseHost(start), Print(start), maxPages);
    PagesAreInternal(net, startURL, maxPages);
    forall p | p in pages ensures Tight(p.url) {
      var u :| IsNormal(u) && p.url == Print(u);
      PrintIsTight(u);
    }
  }

  /** A user id as the database prints it: 36 characters, dashes at four places. */
  ghost predicate IsUuid(s: string) {
    && |s| == 36 && NoneIn(s, GO_SPACE)
    && forall i :: 0 <= i < 36 ==> (s[i] == '-' <==> i == 8 || i == 13 || i == 18 || i == 23)
  }

  /** With dashes at the same places, what is left when they go decides the text. */
  lemma {:induction false} RemoveDashesInjective(a: string, b: string)
    requires |a| == |b| && forall i :: 0 <= i < |a| ==> (a[i] == '-' <==> b[i] == '-')
    requires RemoveDashes(a) == RemoveDashes(b)
    ensures a == b
  {
    if a == "" {
    } else {
      HeadAndDashes(a);
      HeadAndDashes(b);
      RemoveDashesInjective(a[1..], b[1..]);
    }
  }

  lemma HeadAndDashes(s: string)
    requires s != ""
    ensures s == [s[0]] + s[1..]
    ensures s[0] == '-' ==> RemoveDashes(s) == RemoveDashes(s[1..])
    ensures s[0] != '-' ==> RemoveDashes(s) != "" && RemoveDashes(s)[0] == s[0] && RemoveDashes(s)[1..] == RemoveDashes(s[1..])
  {
  }

  /** Distinct users have distinct namespaces. */
  lemma NamespaceInjective(a: string, b: string)
    requires IsUuid(a) && IsUuid(b) && PineconeNamespace(a) == PineconeNamespace(b)
    ensures a == b
  {
    assert Trim(a, GO_SPACE) == a && Trim(b, GO_SPACE) == b;
    assert RemoveDashes(a) == PineconeNamespace(a)[5..] && RemoveDashes(b) == PineconeNamespace(b)[5..];
    RemoveDashesInjective(a, b);
  }

  // ---- a whole job ------------------------------------------------------

  /** A job that ends well either had no API key, and left the index alone, or reached it. */
  lemma DoneMeansReadyOrNoKey(service: Service, index: Index, ns: string, sourceURL: string, vs: seq<(VectorId, Meta)>,
                              delSource: Call, delUrl: Call, upsert: Call)
    requires Tight(sourceURL)
    ensures var answer := Replace(service, index, ns, sourceURL, vs, delSource, delUrl, upsert);
            && (answer.ok ==> service.Ready? || service.NoKey?)
            && (service.NoKey? ==> answer == Answer(index, true))
  {
    TrimOfTight(sourceURL);
  }

  /** What the index and the other namespaces look like after a job that ended well. */
  ghost predicate Refreshed(service: Service, before: Index, after: Index, ns: string, sourceURL: string,
                            vs: seq<(VectorId, Meta)>, urlDeleted: bool) {
    && (service.NoKey? || service.Ready?)
    && (service.NoKey? ==> after == before)
    && (service.Ready? ==> DistinctIds(vs) && IsRefreshOf(In(before, ns), In(after, ns), sourceURL, vs, urlDeleted))
    && (forall other :: other != ns ==> In(after, other) == In(before, other))
  }

  lemma GoodJobRefreshes(service: Service, index: Index, ns: string, sourceURL: string, pages: seq<Page>, widgetKey: string,
                         embeds: string -> bool, delSource: Call, delUrl: Call, upsert: Call)
    requires Tight(sourceURL) && DistinctUrls(pages) && AllConsistent(index)
    requires forall p :: p in pages ==> Tight(p.url)
    ensures var vs := VectorsOf(ns, ChunksFrom(pages, 0, widgetKey, sourceURL), embeds);
            var answer := Replace(service, index, ns, sourceURL, vs, delSource, delUrl, upsert);
            && AreVectorsOf(ns, vs, Batched(pages, widgetKey, sourceURL, embeds))
            && (answer.ok ==> Refreshed(service, index, answer.index, ns, sourceURL, vs, !delUrl.Rejected?))
            && (answer.ok && service.Ready? ==>
                  HoldsChunks(In(answer.index, ns), ns, sourceURL, Batched(pages, widgetKey, sourceURL, embeds)))
  {
    var vs := VectorsOf(ns, ChunksFrom(pages, 0, widgetKey, sourceURL), embeds);
    FinishedJobRefreshes(index, ns, sourceURL, pages, widgetKey, embeds, delSource, delUrl, upsert);
    DoneMeansReadyOrNoKey(service, index, ns, sourceURL, vs, delSource, delUrl, upsert);
  }

  /** The crawl from a stored key is the crawl from the URL that was normalised to it. */
  lemma ReachedFromKey(net: string -> Response, raw: Url, maxPages: nat)
    requires WellFormed(raw) && Normalize(Some(raw)).Some?
    ensures var start := Normalize(Some(raw)).value;
            Reached(net, Some(Reparsed(start)), maxPages) ==
            if maxPages == 0 then [] else CrawlPages(net, BaseHost(start), Print(start), maxPages)
  {
    KeyIsStable(raw);
  }

  /** Only the row of the source changes, if it still exists: it gets the number of pages and
      the title of the first one, or else the URL for a title. */
  ghost predicate IsCharge(before: map<(string, string), Source>, after: map<(string, string), Source>,
                           userID: string, key: string, pages: seq<Page>) {
    && after.Keys == before.Keys
    && (forall k :: k in after && k != (userID, key) ==> after[k] == before[k])
    && (pages != [] && (userID, key) in after ==>
          && after[(userID, key)].scrapedPages == |pages|
          && after[(userID, key)].title ==
             if Trim(pages[0].title, GO_SPACE) != "" then Trim(pages[0].title, GO_SPACE) else key)
  }

  lemma ChargedIsCharge(sources: map<(string, string), Source>, userID: string, key: string, pages: seq<Page>)
    requires pages != []
    ensures IsCharge(sources, Charged(sources, userID, key, pages), userID, key, pages)
  {
    assert (userID, key) in sources ==> Charged(sources, userID, key, pages).Keys == sources.Keys;
  }

  /** A job from the normalised source URL to the index: if it ends well, the source's vectors
      are exactly one per embedded chunk of the crawled pages, with the chunk's content, and the
      source row is charged with these pages under the title of the first. */
  method ScrapeToIndex(store: Store, userID: string, raw: Url, jobID: string, maxPages: nat, widgetKey: string,
                       net: string -> Response, delSource: Call, delUrl: Call, upsert: Call)
    returns (done: bool, ghost pages: seq<Page>, ghost vs: seq<(VectorId, Meta)>)
    requires WellFormed(raw) && Normalize(Some(raw)).Some?
    requires WellFormedNet(net)
    requires AllConsistent(store.index)
    modifies store
    ensures AllConsistent(store.index)
    ensures var start := Normalize(Some(raw)).value;
            var key, ns := Print(start), PineconeNamespace(userID);
            done ==>
              && pages == CrawlPages(net, BaseHost(start), key, maxPages) != []
              && AreVectorsOf(ns, vs, Batched(pages, widgetKey, key, store.embeds))
              && Refreshed(store.service, old(store.index), store.index, ns, key, vs, !delUrl.Rejected?)
              && (store.service.Ready? ==>
                    HoldsChunks(In(store.index, ns), ns, key, Batched(pages, widgetKey, key, store.embeds)))
              && IsCharge(old(store.sources), store.sources, userID, key, pages)
  {
    var normalized := NormalizeScrapeURL(Some(raw));
    var start := normalized.value;
    var key := Print(start);
    ReachedFromKey(net, raw, maxPages);
    var parsed := Reparsed(start);
    CrawledPagesAreIndexable(net, raw, maxPages);
    ghost var before, chunks, rows := store.index, [], store.sources;
    done, pages, chunks, vs := store.RunScrapeJob(userID, key, Some(parsed), jobID, maxPages, widgetKey, net, delSource, delUrl, upsert);
    if done {
      GoodJobRefreshes(store.service, before, PineconeNamespace(userID), key, pages, widgetKey, store.embeds, delSource, delUrl, upsert);
      ChargedIsCharge(rows, userID, key, pages);
    }
  }
}
