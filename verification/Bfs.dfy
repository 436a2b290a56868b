/** The crawl loop as a function, and why it is breadth-first search although the
    queue may hold a node many times: duplicates are dropped when they are popped,
    not when they are pushed. */
module Bfs {

  /** What visiting a node yields: nothing, or a page and its outgoing links. */
  datatype Visit<+P> = Skipped | Kept(page: P, links: seq<string>)

  function Fresh(links: seq<string>, visited: set<string>): seq<string> {
    if links == [] then []
    else (if links[0] in visited then [] else [links[0]]) + Fresh(links[1..], visited)
  }

  /** The crawl loop, with the pages it yields and the nodes it has marked as visited when
      it ends, whether they yielded a page or not. The termination measure makes it total
      on every graph, an infinite one included. */
  function Search<P>(g: string -> Visit<P>, queue: seq<string>, visited: set<string>, pages: seq<P>, max: nat): (seq<P>, set<string>)
    decreases if |pages| <= max then max - |pages| else 0, |queue|
  {
    if queue == [] || |pages| >= max then (pages, visited)
    else
      var u := queue[0];
      if u in visited then Search(g, queue[1..], visited, pages, max)
      else
        match g(u)
        case Skipped => Search(g, queue[1..], visited + {u}, pages, max)
        case Kept(page, links) =>
          Search(g, queue[1..] + Fresh(links, visited + {u}), visited + {u}, pages + [page], max)
  }

  function Run<P>(g: string -> Visit<P>, queue: seq<string>, visited: set<string>, pages: seq<P>, max: nat): seq<P> {
    Search(g, queue, visited, pages, max).0
  }

  function Visited<P>(g: string -> Visit<P>, queue: seq<string>, visited: set<string>, pages: seq<P>, max: nat): set<string> {
    Search(g, queue, visited, pages, max).1
  }

  // ---- the reference: links, walks and shortest distances ---------------

  /** Links leave only nodes that yield a page. */
  ghost predicate Edge<P>(g: string -> Visit<P>, u: string, v: string) {
    g(u).Kept? && v in g(u).links
  }

  ghost predicate Walk<P>(g: string -> Visit<P>, start: string, v: string, n: nat)
    decreases n
  {
    if n == 0 then v == start else exists u :: Walk(g, start, u, n - 1) && Edge(g, u, v)
  }

  ghost predicate Distance<P>(g: string -> Visit<P>, start: string, v: string, d: nat) {
    Walk(g, start, v, d) && forall n: nat :: Walk(g, start, v, n) ==> d <= n
  }

  // ---- the invariant ----------------------------------------------------

  /** A loop state with ghost annotations: a level for every queue entry, the
      distance of every visited node, and the nodes that yielded pages, in order. */
  datatype State = State(queue: seq<string>, levels: seq<nat>, dist: map<string, nat>, order: seq<string>)

  ghost predicate Queued(s: State, v: string, n: nat)
    requires |s.levels| == |s.queue|
  {
    exists i :: 0 <= i < |s.queue| && s.queue[i] == v && s.levels[i] <= n
  }

  ghost predicate QueueOk<P>(g: string -> Visit<P>, start: string, s: State) {
    && |s.levels| == |s.queue|
    && (forall i, j :: 0 <= i < j < |s.levels| ==> s.levels[i] <= s.levels[j])
    && (forall i :: 0 <= i < |s.levels| ==> s.levels[i] <= s.levels[0] + 1)
    && (forall i :: 0 <= i < |s.queue| ==> Walk(g, start, s.queue[i], s.levels[i]))
  }

  ghost predicate VisitedOk<P>(g: string -> Visit<P>, start: string, s: State)
    requires |s.levels| == |s.queue|
  {
    && (forall x :: x in s.dist ==> Distance(g, start, x, s.dist[x]))
    && (forall x, i :: x in s.dist && 0 <= i < |s.levels| ==> s.dist[x] <= s.levels[i])
  }

  ghost predicate ClosedOk<P>(g: string -> Visit<P>, start: string, s: State)
    requires |s.levels| == |s.queue|
  {
    && (start in s.dist || Queued(s, start, 0))
    && (forall x, y :: x in s.dist && Edge(g, x, y) ==> y in s.dist || Queued(s, y, s.dist[x] + 1))
  }

  ghost predicate OrderOk<P>(g: string -> Visit<P>, s: State) {
    && (forall x :: x in s.order <==> x in s.dist && g(x).Kept?)
    && (forall i, j :: 0 <= i < j < |s.order| ==>
          s.order[i] != s.order[j] && s.dist[s.order[i]] <= s.dist[s.order[j]])
  }

  ghost predicate Inv<P>(g: string -> Visit<P>, start: string, s: State) {
    QueueOk(g, start, s) && VisitedOk(g, start, s) && ClosedOk(g, start, s) && OrderOk(g, s)
  }

  /** An unvisited node at the end of a walk is behind a queue entry of no larger level. */
  lemma {:induction false} Frontier<P>(g: string -> Visit<P>, start: string, s: State, v: string, n: nat)
    requires Inv(g, start, s) && Walk(g, start, v, n) && v !in s.dist
    ensures s.queue != [] && s.levels[0] <= n
    decreases n
  {
    if n == 0 {
      var i :| 0 <= i < |s.queue| && s.queue[i] == start && s.levels[i] <= 0;
    } else {
      var u :| Walk(g, start, u, n - 1) && Edge(g, u, v);
      if u in s.dist {
        assert s.dist[u] <= n - 1;
        var i :| 0 <= i < |s.queue| && s.queue[i] == v && s.levels[i] <= s.dist[u] + 1;
      } else {
        Frontier(g, start, s, u, n - 1);
      }
    }
  }

  lemma HeadDistance<P>(g: string -> Visit<P>, start: string, s: State)
    requires Inv(g, start, s) && s.queue != [] && s.queue[0] !in s.dist
    ensures Distance(g, start, s.queue[0], s.levels[0])
  {
    forall n: nat | Walk(g, start, s.queue[0], n) ensures s.levels[0] <= n {
      Frontier(g, start, s, s.queue[0], n);
    }
  }

  ghost function Repeat(n: nat, len: nat): seq<nat> {
    seq(len, _ => n)
  }

  /** One iteration of the loop on an annotated state. */
  ghost function Next<P>(g: string -> Visit<P>, s: State): State
    requires s.queue != [] && |s.levels| == |s.queue|
  {
    var u := s.queue[0];
    if u in s.dist then State(s.queue[1..], s.levels[1..], s.dist, s.order)
    else
      var added := if g(u).Skipped? then [] else Fresh(g(u).links, s.dist.Keys + {u});
      State(s.queue[1..] + added, s.levels[1..] + Repeat(s.levels[0] + 1, |added|), s.dist[u := s.levels[0]],
            if g(u).Skipped? then s.order else s.order + [u])
  }

  lemma {:induction false} FreshMembers(links: seq<string>, visited: set<string>)
    ensures forall v :: v in Fresh(links, visited) <==> v in links && v !in visited
  {
    if links == [] {
    } else {
      FreshMembers(links[1..], visited);
      assert links == [links[0]] + links[1..];
    }
  }

  lemma NextWalks<P>(g: string -> Visit<P>, start: string, s: State, i: nat)
    requires QueueOk(g, start, s) && s.queue != [] && |Next(g, s).levels| == |Next(g, s).queue| && i < |Next(g, s).queue|
    ensures Walk(g, start, Next(g, s).queue[i], Next(g, s).levels[i])
  {
    var u, t := s.queue[0], Next(g, s);
    if i < |s.queue| - 1 {
      assert t.queue[i] == s.queue[i + 1] && t.levels[i] == s.levels[i + 1];
    } else {
      var added := Fresh(g(u).links, s.dist.Keys + {u});
      FreshMembers(g(u).links, s.dist.Keys + {u});
      assert t.queue[i] == added[i - (|s.queue| - 1)] && t.queue[i] in added;
      assert Edge(g, u, t.queue[i]) && Walk(g, start, u, s.levels[0]);
    }
  }

  lemma NextLevels<P>(g: string -> Visit<P>, start: string, s: State)
    requires QueueOk(g, start, s) && s.queue != []
    ensures var t := Next(g, s);
            && |t.levels| == |t.queue|
            && (forall i, j :: 0 <= i < j < |t.levels| ==> t.levels[i] <= t.levels[j])
            && (forall i :: 0 <= i < |t.levels| ==> t.levels[i] <= t.levels[0] + 1)
  {
  }

  lemma NextQueue<P>(g: string -> Visit<P>, start: string, s: State)
    requires Inv(g, start, s) && s.queue != []
    ensures QueueOk(g, start, Next(g, s))
  {
    var t := Next(g, s);
    NextLevels(g, start, s);
    forall i | 0 <= i < |t.queue| ensures Walk(g, start, t.queue[i], t.levels[i]) { NextWalks(g, start, s, i); }
  }

  lemma NextVisited<P>(g: string -> Visit<P>, start: string, s: State)
    requires Inv(g, start, s) && s.queue != []
    requires |Next(g, s).levels| == |Next(g, s).queue|
    ensures VisitedOk(g, start, Next(g, s))
  {
    if s.queue[0] !in s.dist { HeadDistance(g, start, s); }
  }

  /** Entries behind the head stay queued. */
  lemma StillQueued<P>(g: string -> Visit<P>, s: State, v: string, n: nat)
    requires |s.levels| == |s.queue| && s.queue != [] && |Next(g, s).levels| == |Next(g, s).queue|
    requires Queued(s, v, n) && v != s.queue[0]
    ensures Queued(Next(g, s), v, n)
  {
    var i :| 0 <= i < |s.queue| && s.queue[i] == v && s.levels[i] <= n;
    var t := Next(g, s);
    assert t.queue[i - 1] == v && t.levels[i - 1] == s.levels[i];
  }

  lemma NewlyQueued<P>(g: string -> Visit<P>, s: State, y: string)
    requires |s.levels| == |s.queue| && s.queue != [] && s.queue[0] !in s.dist
    requires |Next(g, s).levels| == |Next(g, s).queue|
    requires Edge(g, s.queue[0], y) && y !in Next(g, s).dist
    ensures Queued(Next(g, s), y, s.levels[0] + 1)
  {
    var u, t := s.queue[0], Next(g, s);
    var added := Fresh(g(u).links, s.dist.Keys + {u});
    FreshMembers(g(u).links, s.dist.Keys + {u});
    QueuedAtEnd(t, s.queue[1..], s.levels[1..], added, s.levels[0] + 1, y);
  }

  lemma QueuedAtEnd(t: State, front: seq<string>, levels: seq<nat>, added: seq<string>, n: nat, y: string)
    requires t.queue == front + added && t.levels == levels + seq(|added|, _ => n)
    requires |levels| == |front| && y in added
    ensures Queued(t, y, n)
  {
    var j :| 0 <= j < |added| && added[j] == y;
    assert t.queue[|front| + j] == y && t.levels[|front| + j] == n;
  }

  lemma NextClosed<P>(g: string -> Visit<P>, start: string, s: State)
    requires Inv(g, start, s) && s.queue != []
    requires |Next(g, s).levels| == |Next(g, s).queue|
    ensures ClosedOk(g, start, Next(g, s))
  {
    var u, t := s.queue[0], Next(g, s);
    assert u in t.dist && forall x :: x in s.dist ==> x in t.dist && t.dist[x] == s.dist[x];
    if start !in t.dist { StillQueued(g, s, start, 0); }
    forall x, y | x in t.dist && Edge(g, x, y) && y !in t.dist ensures Queued(t, y, t.dist[x] + 1) {
      if x in s.dist {
        StillQueued(g, s, y, s.dist[x] + 1);
      } else {
        NewlyQueued(g, s, y);
      }
    }
  }

  lemma NextOrder<P>(g: string -> Visit<P>, start: string, s: State)
    requires Inv(g, start, s) && s.queue != []
    ensures OrderOk(g, Next(g, s))
  {
    var u, t := s.queue[0], Next(g, s);
    forall i, j | 0 <= i < j < |t.order|
      ensures t.order[i] != t.order[j] && t.dist[t.order[i]] <= t.dist[t.order[j]]
    {
      assert t.order[i] == s.order[i] && s.order[i] in s.order;
      if j < |s.order| { assert s.order[j] in s.order; }
    }
    assert forall x :: x in t.order <==> x in s.order || (u !in s.dist && g(u).Kept? && x == u);
  }

  lemma NextKeepsInv<P>(g: string -> Visit<P>, start: string, s: State)
    requires Inv(g, start, s) && s.queue != []
    ensures Inv(g, start, Next(g, s))
  {
    NextQueue(g, start, s);
    NextVisited(g, start, s);
    NextClosed(g, start, s);
    NextOrder(g, start, s);
  }

  // ---- whole runs -------------------------------------------------------

  ghost function PagesOf<P>(g: string -> Visit<P>, order: seq<string>): seq<P>
    requires forall i :: 0 <= i < |order| ==> g(order[i]).Kept?
  {
    seq(|order|, i requires 0 <= i < |order| => g(order[i]).page)
  }

  lemma {:induction false} RunKeepsInv<P>(g: string -> Visit<P>, start: string, s: State, max: nat)
    returns (last: State)
    requires Inv(g, start, s) && |s.order| <= max
    requires forall i :: 0 <= i < |s.order| ==> g(s.order[i]).Kept?
    ensures Inv(g, start, last) && |last.order| <= max
    ensures forall i :: 0 <= i < |last.order| ==> g(last.order[i]).Kept?
    ensures Run(g, s.queue, s.dist.Keys, PagesOf(g, s.order), max) == PagesOf(g, last.order)
    ensures last.queue == [] || |last.order| == max
    decreases max - |s.order|, |s.queue|
  {
    if s.queue == [] || |s.order| >= max {
      last := s;
    } else {
      var t := Next(g, s);
      NextKeepsInv(g, start, s);
      RunStep(g, s, max);
      last := RunKeepsInv(g, start, t, max);
    }
  }

  lemma RunStep<P>(g: string -> Visit<P>, s: State, max: nat)
    requires s.queue != [] && |s.levels| == |s.queue| && |s.order| < max
    requires forall i :: 0 <= i < |s.order| ==> g(s.order[i]).Kept?
    ensures forall i :: 0 <= i < |Next(g, s).order| ==> g(Next(g, s).order[i]).Kept?
    ensures Run(g, s.queue, s.dist.Keys, PagesOf(g, s.order), max) ==
            Run(g, Next(g, s).queue, Next(g, s).dist.Keys, PagesOf(g, Next(g, s).order), max)
  {
    var u, t := s.queue[0], Next(g, s);
    if u !in s.dist {
      assert t.dist.Keys == s.dist.Keys + {u};
      if g(u).Skipped? {
        assert s.queue[1..] + [] == s.queue[1..];
      } else {
        assert PagesOf(g, t.order) == PagesOf(g, s.order) + [g(u).page];
      }
    }
  }

  /** The crawl is breadth-first search. It yields one page per listed node, no node
      twice, in non-decreasing shortest distance from the start. A page-yielding
      node within reach that is not listed is missing only because the budget ran
      out, and it is no nearer to the start than any listed node. */
  lemma CrawlIsBreadthFirst<P>(g: string -> Visit<P>, start: string, max: nat)
    returns (order: seq<string>, dist: seq<nat>)
    ensures |dist| == |order| <= max
    ensures forall i :: 0 <= i < |order| ==> g(order[i]).Kept? && Distance(g, start, order[i], dist[i])
    ensures Run(g, [start], {}, [], max) == PagesOf(g, order)
    ensures forall i, j :: 0 <= i < j < |order| ==> order[i] != order[j] && dist[i] <= dist[j]
    ensures forall v, n: nat :: Walk(g, start, v, n) && g(v).Kept? && v !in order ==>
              |order| == max && forall i :: 0 <= i < |dist| ==> dist[i] <= n
  {
    var s := State([start], [0], map[], []);
    assert Queued(s, start, 0) by { assert s.queue[0] == start; }
    assert PagesOf(g, s.order) == [] && s.dist.Keys == {};
    assert Inv(g, start, s);
    var last := RunKeepsInv(g, start, s, max);
    order := last.order;
    forall i | 0 <= i < |order| ensures order[i] in last.dist { assert order[i] in last.order; }
    dist := seq(|order|, i requires 0 <= i < |order| => last.dist[order[i]]);
    forall v, n: nat | Walk(g, start, v, n) && g(v).Kept? && v !in order
      ensures |order| == max && forall i :: 0 <= i < |dist| ==> dist[i] <= n
    {
      Frontier(g, start, last, v, n);
    }
  }

  /** A run only appends pages. */
  lemma {:induction false} RunExtends<P>(g: string -> Visit<P>, queue: seq<string>, visited: set<string>, pages: seq<P>, max: nat)
    ensures pages <= Run(g, queue, visited, pages, max)
    ensures |pages| <= max ==> |Run(g, queue, visited, pages, max)| <= max
    decreases if |pages| <= max then max - |pages| else 0, |queue|
  {
    if queue != [] && |pages| < max {
      var u := queue[0];
      if u in visited {
        RunExtends(g, queue[1..], visited, pages, max);
      } else {
        match g(u)
        case Skipped => RunExtends(g, queue[1..], visited + {u}, pages, max);
        case Kept(page, links) =>
          RunExtends(g, queue[1..] + Fresh(links, visited + {u}), visited + {u}, pages + [page], max);
      }
    }
  }

  function Min(a: nat, b: nat): nat {
    if a <= b then a else b
  }

  /** A crawl with a small budget is the beginning of the crawl with a larger one. */
  lemma {:induction false} BudgetPrefix<P>(g: string -> Visit<P>, queue: seq<string>, visited: set<string>,
                                           pages: seq<P>, small: nat, large: nat)
    requires |pages| <= small <= large
    ensures var full := Run(g, queue, visited, pages, large);
            Run(g, queue, visited, pages, small) == full[..Min(small, |full|)]
    decreases large - |pages|, |queue|
  {
    RunExtends(g, queue, visited, pages, large);
    if queue == [] {
    } else if |pages| == small {
    } else {
      var u := queue[0];
      if u in visited {
        BudgetPrefix(g, queue[1..], visited, pages, small, large);
      } else {
        match g(u)
        case Skipped => BudgetPrefix(g, queue[1..], visited + {u}, pages, small, large);
        case Kept(page, links) =>
          BudgetPrefix(g, queue[1..] + Fresh(links, visited + {u}), visited + {u}, pages + [page], small, large);
      }
    }
  }

  /** Whatever holds of queue and visited set and passes along links holds of every node
      the loop ever visits. */
  lemma {:induction false} VisitedClosed<P>(g: string -> Visit<P>, queue: seq<string>, visited: set<string>,
                                            pages: seq<P>, max: nat, ok: string -> bool)
    requires forall i :: 0 <= i < |queue| ==> ok(queue[i])
    requires forall x :: x in visited ==> ok(x)
    requires forall x, y :: ok(x) && Edge(g, x, y) ==> ok(y)
    ensures forall x :: x in Visited(g, queue, visited, pages, max) ==> ok(x)
    decreases if |pages| <= max then max - |pages| else 0, |queue|
  {
    if queue == [] || |pages| >= max {
    } else {
      var u := queue[0];
      if u in visited {
        VisitedClosed(g, queue[1..], visited, pages, max, ok);
      } else {
        match g(u)
        case Skipped => VisitedClosed(g, queue[1..], visited + {u}, pages, max, ok);
        case Kept(page, links) =>
          FreshMembers(links, visited + {u});
          forall y | y in Fresh(links, visited + {u}) ensures ok(y) { assert Edge(g, u, y); }
          VisitedClosed(g, queue[1..] + Fresh(links, visited + {u}), visited + {u}, pages + [page], max, ok);
      }
    }
  }

  /** The loop visits only nodes within reach of the start, and every node it lists. */
  lemma {:induction false} ListedAreVisited<P>(g: string -> Visit<P>, queue: seq<string>, visited: set<string>,
                                               pages: seq<P>, max: nat, p: P)
    requires p in Run(g, queue, visited, pages, max) && p !in pages
    ensures exists u :: u in Visited(g, queue, visited, pages, max) && g(u).Kept? && g(u).page == p
    decreases if |pages| <= max then max - |pages| else 0, |queue|
  {
    if queue == [] || |pages| >= max {
    } else {
      var u := queue[0];
      if u in visited {
        ListedAreVisited(g, queue[1..], visited, pages, max, p);
      } else {
        match g(u)
        case Skipped => ListedAreVisited(g, queue[1..], visited + {u}, pages, max, p);
        case Kept(page, links) =>
          var next := queue[1..] + Fresh(links, visited + {u});
          if page == p {
            VisitedGrows(g, next, visited + {u}, pages + [page], max, u);
          } else {
            assert p !in pages + [page];
            ListedAreVisited(g, next, visited + {u}, pages + [page], max, p);
          }
      }
    }
  }

  lemma {:induction false} VisitedGrows<P>(g: string -> Visit<P>, queue: seq<string>, visited: set<string>,
                                           pages: seq<P>, max: nat, u: string)
    requires u in visited
    ensures u in Visited(g, queue, visited, pages, max)
    decreases if |pages| <= max then max - |pages| else 0, |queue|
  {
    if queue == [] || |pages| >= max {
    } else {
      var v := queue[0];
      if v in visited {
        VisitedGrows(g, queue[1..], visited, pages, max, u);
      } else {
        match g(v)
        case Skipped => VisitedGrows(g, queue[1..], visited + {v}, pages, max, u);
        case Kept(page, links) => VisitedGrows(g, queue[1..] + Fresh(links, visited + {v}), visited + {v}, pages + [page], max, u);
      }
    }
  }

  // ---- what is visited, and what of it is listed ------------------------

  /** A visited node that yields a page is listed: the budget ends the loop, it drops nothing. */
  lemma {:induction false} VisitedAreListed<P>(g: string -> Visit<P>, queue: seq<string>, visited: set<string>,
                                               pages: seq<P>, max: nat, u: string)
    requires u in Visited(g, queue, visited, pages, max) && u !in visited && g(u).Kept?
    ensures g(u).page in Run(g, queue, visited, pages, max)
    decreases if |pages| <= max then max - |pages| else 0, |queue|
  {
    if queue == [] || |pages| >= max {
    } else {
      var v := queue[0];
      if v in visited {
        VisitedAreListed(g, queue[1..], visited, pages, max, u);
      } else {
        match g(v)
        case Skipped => VisitedAreListed(g, queue[1..], visited + {v}, pages, max, u);
        case Kept(page, links) =>
          var next := queue[1..] + Fresh(links, visited + {v});
          if v == u {
            RunExtends(g, next, visited + {v}, pages + [page], max);
            assert (pages + [page])[|pages|] == page;
          } else {
            VisitedAreListed(g, next, visited + {v}, pages + [page], max, u);
          }
      }
    }
  }

  /** Nothing is visited but what stood in the queue or is linked by a visited node. */
  lemma {:induction false} VisitedHaveCause<P>(g: string -> Visit<P>, queue: seq<string>, visited: set<string>,
                                               pages: seq<P>, max: nat, u: string)
    requires u in Visited(g, queue, visited, pages, max) && u !in visited && u !in queue
    ensures exists v :: v in Visited(g, queue, visited, pages, max) && v !in visited && Edge(g, v, u)
    decreases if |pages| <= max then max - |pages| else 0, |queue|
  {
    if queue == [] || |pages| >= max {
    } else {
      var v := queue[0];
      if v in visited {
        VisitedHaveCause(g, queue[1..], visited, pages, max, u);
      } else {
        match g(v)
        case Skipped => VisitedHaveCause(g, queue[1..], visited + {v}, pages, max, u);
        case Kept(page, links) =>
          var added := Fresh(links, visited + {v});
          FreshMembers(links, visited + {v});
          VisitedGrows(g, queue[1..] + added, visited + {v}, pages + [page], max, v);
          if u in added {
            assert Edge(g, v, u);
          } else {
            VisitedHaveCause(g, queue[1..] + added, visited + {v}, pages + [page], max, u);
          }
      }
    }
  }

  /** With budget left, the whole queue is visited in the end. */
  lemma {:induction false} QueueIsVisited<P>(g: string -> Visit<P>, queue: seq<string>, visited: set<string>,
                                             pages: seq<P>, max: nat, u: string)
    requires |Run(g, queue, visited, pages, max)| < max && (u in queue || u in visited)
    ensures u in Visited(g, queue, visited, pages, max)
    decreases if |pages| <= max then max - |pages| else 0, |queue|
  {
    if u in visited {
      VisitedGrows(g, queue, visited, pages, max, u);
    } else if |pages| < max {
      var v := queue[0];
      if v in visited {
        QueueIsVisited(g, queue[1..], visited, pages, max, u);
      } else {
        match g(v)
        case Skipped => QueueIsVisited(g, queue[1..], visited + {v}, pages, max, u);
        case Kept(page, links) =>
          QueueIsVisited(g, queue[1..] + Fresh(links, visited + {v}), visited + {v}, pages + [page], max, u);
      }
    }
  }

  /** And so is every link of a visited node. */
  lemma {:induction false} LinksAreVisited<P>(g: string -> Visit<P>, queue: seq<string>, visited: set<string>,
                                              pages: seq<P>, max: nat, x: string, y: string)
    requires |Run(g, queue, visited, pages, max)| < max
    requires x in Visited(g, queue, visited, pages, max) && x !in visited && Edge(g, x, y)
    ensures y in Visited(g, queue, visited, pages, max)
    decreases if |pages| <= max then max - |pages| else 0, |queue|
  {
    if queue == [] || |pages| >= max {
    } else {
      var v := queue[0];
      if v in visited {
        LinksAreVisited(g, queue[1..], visited, pages, max, x, y);
      } else {
        match g(v)
        case Skipped => LinksAreVisited(g, queue[1..], visited + {v}, pages, max, x, y);
        case Kept(page, links) =>
          var next := queue[1..] + Fresh(links, visited + {v});
          if v == x {
            FreshMembers(links, visited + {v});
            QueueIsVisited(g, next, visited + {v}, pages + [page], max, y);
          } else {
            LinksAreVisited(g, next, visited + {v}, pages + [page], max, x, y);
          }
      }
    }
  }
}
