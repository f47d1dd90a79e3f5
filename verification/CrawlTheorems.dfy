/** What the crawl keeps whatever the network answers: the fetch budget, the size of the pool, where
    its entries come from, and that nothing it came across is lost without a reason. */
module CrawlTheorems {
  import opened Wrappers
  import opened Crawl

  // ----- the budget

  function PageFetches(log: seq<Exchange>, from: nat): nat {
    if |log| <= from then 0
    else PageFetches(log[..|log| - 1], from) + if log[|log| - 1].request.Page? then 1 else 0
  }

  lemma AskedOnce(log: seq<Exchange>, from: nat, e: Exchange)
    requires from <= |log|
    ensures PageFetches(log + [e], from) == PageFetches(log, from) + if e.request.Page? then 1 else 0
  {
    assert (log + [e])[..|log|] == log;
  }

  /** Spent and unspent fetches make the whole budget. */
  ghost predicate Budgeted(s: State, from: nat) {
    from <= |s.web.log| && PageFetches(s.web.log, from) + s.budget == MAX_SITEMAP_FETCHES
  }

  lemma VisitBudgeted(rules: Rules, net: Net, s: State, from: nat)
    requires s.queue != [] && s.budget > 0 && Budgeted(s, from)
    ensures Budgeted(Visit(rules, net, s), from)
  {
    var request := Page(s.queue[0]);
    AskedOnce(s.web.log, from, Exchange(request, net(|s.web.log|, request)));
  }

  lemma OpenBudgeted(rules: Rules, net: Net, host: string, s: State, from: nat)
    requires Budgeted(s, from)
    ensures Budgeted(Open(rules, net, host, s), from)
  {
    var request := RobotsOf(host);
    AskedOnce(s.web.log, from, Exchange(request, net(|s.web.log|, request)));
  }

  lemma {:induction false} DrainBudgeted(rules: Rules, net: Net, s: State, from: nat)
    requires Budgeted(s, from)
    ensures Budgeted(Drain(rules, net, s), from)
    decreases s.budget, |s.queue|
  {
    if !s.full && s.queue != [] && s.budget > 0 {
      VisitBudgeted(rules, net, s, from);
      DrainBudgeted(rules, net, Visit(rules, net, s), from);
    }
  }

  lemma {:induction false} HostsBudgeted(rules: Rules, net: Net, hosts: seq<string>, s: State, from: nat)
    requires Budgeted(s, from)
    ensures Budgeted(CrawlHosts(rules, net, hosts, s), from)
    decreases |hosts|
  {
    if hosts != [] {
      OpenBudgeted(rules, net, hosts[0], s, from);
      var begun := Open(rules, net, hosts[0], s);
      DrainBudgeted(rules, net, begun, from);
      HostsBudgeted(rules, net, hosts[1..], Drain(rules, net, begun), from);
    }
  }

  /** At most six sitemaps are fetched over all hosts together, whatever each of them answers. */
  lemma AtMostSixSitemaps(rules: Rules, net: Net, hosts: seq<string>, web: Web, notes: seq<Note>)
    ensures PageFetches(CrawlHosts(rules, net, hosts, Start(web, notes)).web.log, |web.log|) <= 6
  {
    HostsBudgeted(rules, net, hosts, Start(web, notes), |web.log|);
  }

  // ----- where the pool comes from, and that it is all there

  /** A location in a sitemap read since the crawl began. */
  ghost predicate Located(rules: Rules, log: seq<Exchange>, from: nat, loc: string) {
    exists i :: from <= i < |log| && InBody(rules, log[i], loc)
  }

  predicate InBody(rules: Rules, e: Exchange, loc: string) {
    Body(e).Some? && loc in rules.locs(Body(e).value)
  }

  /** The location is a page of the bank with this canonical form. */
  predicate PageAt(rules: Rules, loc: string, canonical: string) {
    !rules.isSitemap(loc) && rules.validate(loc) == Some(canonical)
  }

  lemma LocatedAfter(rules: Rules, log: seq<Exchange>, from: nat, e: Exchange, loc: string)
    requires from <= |log|
    ensures Located(rules, log + [e], from, loc) <==> Located(rules, log, from, loc) || InBody(rules, e, loc)
  {
    if Located(rules, log, from, loc) {
      var i :| from <= i < |log| && InBody(rules, log[i], loc);
      assert (log + [e])[i] == log[i];
    }
    if InBody(rules, e, loc) {
      assert (log + [e])[|log|] == e;
    }
  }

  // What one sitemap's locations come to.

  lemma {:induction false} GatherBounded(rules: Rules, locs: seq<string>, queue: seq<string>, pool: map<string, Channel>)
    requires |pool| <= MAX_POOL
    ensures var g := Gather(rules, locs, queue, pool);
            |g.pool| <= MAX_POOL && (g.full ==> |g.pool| == MAX_POOL)
  {
    if locs != [] {
      var canonical := rules.validate(locs[0]);
      if rules.isSitemap(locs[0]) {
        GatherBounded(rules, locs[1..], if locs[0] in queue then queue else queue + [locs[0]], pool);
      } else if canonical.None? {
        GatherBounded(rules, locs[1..], queue, pool);
      } else if |pool| < MAX_POOL {
        GatherBounded(rules, locs[1..], queue, if canonical.value in pool then pool else pool[canonical.value := Sitemap]);
      }
    }
  }

  lemma {:induction false} GatherPool(rules: Rules, locs: seq<string>, queue: seq<string>, pool: map<string, Channel>, u: string)
    requires forall v :: v in pool ==> pool[v] == Sitemap
    ensures var g := Gather(rules, locs, queue, pool);
            && (forall v :: v in g.pool ==> g.pool[v] == Sitemap)
            && (u in pool ==> u in g.pool)
            && (u in g.pool ==> u in pool || exists loc :: loc in locs && PageAt(rules, loc, u))
            && (!g.full && (exists loc :: loc in locs && PageAt(rules, loc, u)) ==> u in g.pool)
  {
    if locs != [] {
      var canonical := rules.validate(locs[0]);
      if rules.isSitemap(locs[0]) {
        GatherPool(rules, locs[1..], if locs[0] in queue then queue else queue + [locs[0]], pool, u);
      } else if canonical.None? {
        GatherPool(rules, locs[1..], queue, pool, u);
      } else if |pool| < MAX_POOL {
        assert PageAt(rules, locs[0], canonical.value);
        GatherPool(rules, locs[1..], queue, if canonical.value in pool then pool else pool[canonical.value := Sitemap], u);
      }
    }
  }

  lemma {:induction false} GatherQueue(rules: Rules, locs: seq<string>, queue: seq<string>, pool: map<string, Channel>, u: string)
    ensures var g := Gather(rules, locs, queue, pool);
            && (u in queue ==> u in g.queue)
            && (u in g.queue ==> u in queue || (u in locs && rules.isSitemap(u)))
            && (!g.full && u in locs && rules.isSitemap(u) ==> u in g.queue)
  {
    if locs != [] {
      var canonical := rules.validate(locs[0]);
      if rules.isSitemap(locs[0]) {
        GatherQueue(rules, locs[1..], if locs[0] in queue then queue else queue + [locs[0]], pool, u);
      } else if canonical.None? {
        GatherQueue(rules, locs[1..], queue, pool, u);
      } else if |pool| < MAX_POOL {
        GatherQueue(rules, locs[1..], queue, if canonical.value in pool then pool else pool[canonical.value := Sitemap], u);
      }
    }
  }

  /** The pool is within bounds, and full only at its bound. */
  ghost predicate Bounded(s: State) {
    |s.pool| <= MAX_POOL && (s.full ==> |s.pool| == MAX_POOL)
  }

  ghost predicate Listed(rules: Rules, log: seq<Exchange>, from: nat, u: string) {
    exists loc :: Located(rules, log, from, loc) && PageAt(rules, loc, u)
  }

  /** The pool holds the pages of the sitemaps read, and, unless it is full, all of them. */
  ghost predicate Pooled(rules: Rules, s: State, from: nat) {
    && from <= |s.web.log|
    && (forall u :: u in s.pool ==> s.pool[u] == Sitemap && Listed(rules, s.web.log, from, u))
    && (!s.full ==> forall u :: Listed(rules, s.web.log, from, u) ==> u in s.pool)
  }

  lemma ListedAfter(rules: Rules, log: seq<Exchange>, from: nat, e: Exchange, u: string)
    requires from <= |log|
    ensures Listed(rules, log + [e], from, u) <==>
              Listed(rules, log, from, u) || (Body(e).Some? && exists loc :: loc in rules.locs(Body(e).value) && PageAt(rules, loc, u))
  {
    if Listed(rules, log + [e], from, u) {
      var loc :| Located(rules, log + [e], from, loc) && PageAt(rules, loc, u);
      LocatedAfter(rules, log, from, e, loc);
    }
    if Listed(rules, log, from, u) {
      var loc :| Located(rules, log, from, loc) && PageAt(rules, loc, u);
      LocatedAfter(rules, log, from, e, loc);
    }
    if Body(e).Some? && exists loc :: loc in rules.locs(Body(e).value) && PageAt(rules, loc, u) {
      var loc :| loc in rules.locs(Body(e).value) && PageAt(rules, loc, u);
      LocatedAfter(rules, log, from, e, loc);
    }
  }

  lemma VisitPooled(rules: Rules, net: Net, s: State, from: nat)
    requires s.queue != [] && s.budget > 0 && !s.full && Bounded(s) && Pooled(rules, s, from)
    ensures Bounded(Visit(rules, net, s)) && Pooled(rules, Visit(rules, net, s), from)
  {
    var url := s.queue[0];
    if rules.validate(url).Some? {
      var e := Exchange(Page(url), net(|s.web.log|, Page(url)));
      forall u
        ensures u in Visit(rules, net, s).pool ==>
                  Visit(rules, net, s).pool[u] == Sitemap && Listed(rules, s.web.log + [e], from, u)
        ensures !Visit(rules, net, s).full && Listed(rules, s.web.log + [e], from, u) ==> u in Visit(rules, net, s).pool
      {
        ListedAfter(rules, s.web.log, from, e, u);
        if Body(e).Some? {
          GatherPool(rules, rules.locs(Body(e).value), s.queue[1..], s.pool, u);
        }
      }
      if Body(e).Some? {
        GatherBounded(rules, rules.locs(Body(e).value), s.queue[1..], s.pool);
      }
    }
  }

  lemma {:induction false} DrainPooled(rules: Rules, net: Net, s: State, from: nat)
    requires Bounded(s) && Pooled(rules, s, from)
    ensures Bounded(Drain(rules, net, s)) && Pooled(rules, Drain(rules, net, s), from)
    decreases s.budget, |s.queue|
  {
    if !s.full && s.queue != [] && s.budget > 0 {
      VisitPooled(rules, net, s, from);
      DrainPooled(rules, net, Visit(rules, net, s), from);
    }
  }

  lemma OpenPooled(rules: Rules, net: Net, host: string, s: State, from: nat)
    requires Bounded(s) && Pooled(rules, s, from)
    ensures Bounded(Open(rules, net, host, s)) && Pooled(rules, Open(rules, net, host, s), from)
  {
    var e := Exchange(RobotsOf(host), net(|s.web.log|, RobotsOf(host)));
    forall u
      ensures Listed(rules, s.web.log + [e], from, u) <==> Listed(rules, s.web.log, from, u)
    {
      ListedAfter(rules, s.web.log, from, e, u);
    }
  }

  lemma {:induction false} HostsPooled(rules: Rules, net: Net, hosts: seq<string>, s: State, from: nat)
    requires Bounded(s) && Pooled(rules, s, from)
    ensures Bounded(CrawlHosts(rules, net, hosts, s)) && Pooled(rules, CrawlHosts(rules, net, hosts, s), from)
    decreases |hosts|
  {
    if hosts != [] {
      OpenPooled(rules, net, hosts[0], s, from);
      var begun := Open(rules, net, hosts[0], s);
      DrainPooled(rules, net, begun, from);
      HostsPooled(rules, net, hosts[1..], Drain(rules, net, begun), from);
    }
  }

  /** The sitemap stage pools the pages of the sitemaps it reads and nothing else, at most three
      thousand of them; it loses one only when the pool is full. */
  lemma PoolIsWhatSitemapsList(rules: Rules, net: Net, hosts: seq<string>, web: Web, notes: seq<Note>)
    ensures var end := CrawlHosts(rules, net, hosts, Start(web, notes));
            && |end.pool| <= 3_000
            && (forall u :: u in end.pool ==> end.pool[u] == Sitemap && Listed(rules, end.web.log, |web.log|, u))
            && ((forall u :: Listed(rules, end.web.log, |web.log|, u) ==> u in end.pool) || |end.pool| == 3_000)
  {
    HostsPooled(rules, net, hosts, Start(web, notes), |web.log|);
  }

  // ----- no sitemap is forgotten

  /** A sitemap the crawl came across: a root of a host already begun, or named by a sitemap read. */
  ghost predicate Due(rules: Rules, web: Web, from: nat, hosts: seq<string>, u: string) {
    || (exists h :: h in hosts && h in web.robots && u in Roots(rules, h, web.robots[h]))
    || (Located(rules, web.log, from, u) && rules.isSitemap(u))
  }

  ghost predicate Fetched(log: seq<Exchange>, from: nat, u: string) {
    exists i :: from <= i < |log| && log[i].request == Page(u)
  }

  ghost predicate Handled(s: State, from: nat, u: string) {
    Fetched(s.web.log, from, u) || OutsideAllowlist(u) in s.notes
  }

  ghost predicate QueueIsDue(rules: Rules, s: State, from: nat, hosts: seq<string>) {
    && (forall u :: u in s.queue ==> Due(rules, s.web, from, hosts, u))
    && (forall u :: Fetched(s.web.log, from, u) ==> Due(rules, s.web, from, hosts, u) && rules.validate(u).Some?)
  }

  ghost predicate NoneForgotten(rules: Rules, s: State, from: nat, hosts: seq<string>) {
    s.full || s.budget == 0 || forall u :: Due(rules, s.web, from, hosts, u) ==> u in s.queue || Handled(s, from, u)
  }

  ghost predicate Accounted(rules: Rules, s: State, from: nat, hosts: seq<string>) {
    && from <= |s.web.log|
    && (forall h :: h in hosts ==> h in s.web.robots)
    && QueueIsDue(rules, s, from, hosts)
    && NoneForgotten(rules, s, from, hosts)
  }

  lemma FetchedAfter(log: seq<Exchange>, from: nat, e: Exchange, u: string)
    requires from <= |log|
    ensures Fetched(log + [e], from, u) <==> Fetched(log, from, u) || e.request == Page(u)
  {
    if Fetched(log, from, u) {
      var i :| from <= i < |log| && log[i].request == Page(u);
      assert (log + [e])[i] == log[i];
    }
    if e.request == Page(u) {
      assert (log + [e])[|log|] == e;
    }
  }

  lemma DueAfterPage(rules: Rules, net: Net, web: Web, from: nat, hosts: seq<string>, url: string, u: string)
    requires from <= |web.log|
    ensures var after := Ask(net, web, Page(url));
            var e := after.log[|web.log|];
            Due(rules, after, from, hosts, u) <==>
              Due(rules, web, from, hosts, u) || (rules.isSitemap(u) && InBody(rules, e, u))
  {
    var e := Exchange(Page(url), net(|web.log|, Page(url)));
    LocatedAfter(rules, web.log, from, e, u);
  }

  lemma DueAfterRobots(rules: Rules, net: Net, web: Web, from: nat, hosts: seq<string>, host: string, u: string)
    requires from <= |web.log|
    requires forall h :: h in hosts ==> h in web.robots
    ensures var after := AskRobots(net, web, host);
            && host in after.robots
            && (Due(rules, after, from, hosts + [host], u) <==>
                  Due(rules, web, from, hosts, u) || u in Roots(rules, host, after.robots[host]))
  {
    var after := AskRobots(net, web, host);
    var e := Exchange(RobotsOf(host), net(|web.log|, RobotsOf(host)));
    LocatedAfter(rules, web.log, from, e, u);
    if u in Roots(rules, host, after.robots[host]) {
      assert host in hosts + [host];
    }
    if exists h :: h in hosts && h in web.robots && u in Roots(rules, h, web.robots[h]) {
      var h :| h in hosts && h in web.robots && u in Roots(rules, h, web.robots[h]);
      assert h in hosts + [host] && after.robots[h] == web.robots[h];
    }
  }

  lemma VisitQueueIsDue(rules: Rules, net: Net, s: State, from: nat, hosts: seq<string>)
    requires s.queue != [] && s.budget > 0 && from <= |s.web.log| && QueueIsDue(rules, s, from, hosts)
    ensures QueueIsDue(rules, Visit(rules, net, s), from, hosts)
  {
    var url := s.queue[0];
    var after := Visit(rules, net, s);
    assert Due(rules, s.web, from, hosts, url);
    if rules.validate(url).Some? {
      var e := Exchange(Page(url), net(|s.web.log|, Page(url)));
      forall u
        ensures u in after.queue ==> Due(rules, after.web, from, hosts, u)
        ensures Fetched(after.web.log, from, u) ==> Due(rules, after.web, from, hosts, u) && rules.validate(u).Some?
      {
        DueAfterPage(rules, net, s.web, from, hosts, url, u);
        FetchedAfter(s.web.log, from, e, u);
        if Body(e).Some? {
          GatherQueue(rules, rules.locs(Body(e).value), s.queue[1..], s.pool, u);
        }
      }
    }
  }

  lemma VisitForgetsNone(rules: Rules, net: Net, s: State, from: nat, hosts: seq<string>)
    requires s.queue != [] && s.budget > 0 && !s.full && from <= |s.web.log|
    requires NoneForgotten(rules, s, from, hosts)
    ensures NoneForgotten(rules, Visit(rules, net, s), from, hosts)
  {
    var url := s.queue[0];
    var after := Visit(rules, net, s);
    assert s.queue == [url] + s.queue[1..];
    if rules.validate(url).Some? {
      var e := Exchange(Page(url), net(|s.web.log|, Page(url)));
      forall u | Due(rules, after.web, from, hosts, u)
        ensures after.full || u in after.queue || Handled(after, from, u)
      {
        DueAfterPage(rules, net, s.web, from, hosts, url, u);
        FetchedAfter(s.web.log, from, e, u);
        if Body(e).Some? {
          GatherQueue(rules, rules.locs(Body(e).value), s.queue[1..], s.pool, u);
        }
      }
    }
  }

  lemma {:induction false} DrainAccounted(rules: Rules, net: Net, s: State, from: nat, hosts: seq<string>)
    requires Accounted(rules, s, from, hosts)
    ensures Accounted(rules, Drain(rules, net, s), from, hosts)
    decreases s.budget, |s.queue|
  {
    if !s.full && s.queue != [] && s.budget > 0 {
      VisitQueueIsDue(rules, net, s, from, hosts);
      VisitForgetsNone(rules, net, s, from, hosts);
      DrainAccounted(rules, net, Visit(rules, net, s), from, hosts);
    }
  }

  lemma {:induction false} DrainEnds(rules: Rules, net: Net, s: State)
    ensures var end := Drain(rules, net, s);
            end.full || end.queue == [] || end.budget == 0
    decreases s.budget, |s.queue|
  {
    if !s.full && s.queue != [] && s.budget > 0 {
      DrainEnds(rules, net, Visit(rules, net, s));
    }
  }

  ghost predicate Finished(s: State) {
    s.full || s.queue == [] || s.budget == 0
  }

  lemma OpenAccounted(rules: Rules, net: Net, host: string, s: State, from: nat, hosts: seq<string>)
    requires Accounted(rules, s, from, hosts) && Finished(s)
    ensures Accounted(rules, Open(rules, net, host, s), from, hosts + [host])
  {
    var after := Open(rules, net, host, s);
    var e := Exchange(RobotsOf(host), net(|s.web.log|, RobotsOf(host)));
    forall u
      ensures u in after.queue ==> Due(rules, after.web, from, hosts + [host], u)
      ensures Fetched(after.web.log, from, u) ==> Due(rules, after.web, from, hosts + [host], u) && rules.validate(u).Some?
      ensures Due(rules, after.web, from, hosts + [host], u) ==>
                after.full || after.budget == 0 || u in after.queue || Handled(after, from, u)
    {
      DueAfterRobots(rules, net, s.web, from, hosts, host, u);
      FetchedAfter(s.web.log, from, e, u);
    }
  }

  /** Only sitemaps the crawl came across are fetched, and only within the allowlist. */
  ghost predicate FetchesAreDue(rules: Rules, s: State, from: nat, hosts: seq<string>) {
    forall u :: Fetched(s.web.log, from, u) ==> Due(rules, s.web, from, hosts, u) && rules.validate(u).Some?
  }

  lemma DueAmongMore(rules: Rules, s: State, from: nat, some: seq<string>, more: seq<string>)
    requires QueueIsDue(rules, s, from, some)
    requires forall h :: h in some ==> h in more
    ensures FetchesAreDue(rules, s, from, more)
  {
  }

  lemma {:induction false} HostsAccounted(rules: Rules, net: Net, hosts: seq<string>, s: State, from: nat, done: seq<string>)
    requires Accounted(rules, s, from, done) && Finished(s) && !s.full
    ensures var end := CrawlHosts(rules, net, hosts, s);
            && Finished(end) && (end.full || Accounted(rules, end, from, done + hosts))
            && FetchesAreDue(rules, end, from, done + hosts)
    decreases |hosts|
  {
    if hosts == [] {
      assert done + hosts == done;
    } else {
      OpenAccounted(rules, net, hosts[0], s, from, done);
      var begun := Open(rules, net, hosts[0], s);
      DrainAccounted(rules, net, begun, from, done + [hosts[0]]);
      DrainEnds(rules, net, begun);
      var after := Drain(rules, net, begun);
      if after.full {
        DueAmongMore(rules, after, from, done + [hosts[0]], done + hosts);
      } else {
        HostsAccounted(rules, net, hosts[1..], after, from, done + [hosts[0]]);
        assert done + [hosts[0]] + hosts[1..] == done + hosts;
      }
    }
  }

  /** No sitemap is forgotten: unless the pool filled up or all six fetches were made, every sitemap
      that a host's robots.txt declares, or that a sitemap read names, was fetched or noted as outside
      the allowlist. Conversely only such sitemaps are fetched, and only within the allowlist. */
  lemma NoSitemapForgotten(rules: Rules, net: Net, hosts: seq<string>, web: Web)
    ensures var end := CrawlHosts(rules, net, hosts, Start(web, []));
            end.full || end.budget == 0
            || forall u :: Due(rules, end.web, |web.log|, hosts, u) ==> Handled(end, |web.log|, u)
    ensures var end := CrawlHosts(rules, net, hosts, Start(web, []));
            forall u :: Fetched(end.web.log, |web.log|, u) ==>
              Due(rules, end.web, |web.log|, hosts, u) && rules.validate(u).Some?
  {
    HostsAccounted(rules, net, hosts, Start(web, []), |web.log|, []);
    assert [] + hosts == hosts;
  }

  // ----- robots.txt files

  /** Each host's robots.txt is asked for at most once, and its answer kept. */
  ghost predicate RobotsOnce(web: Web) {
    && (forall i :: 0 <= i < |web.log| && web.log[i].request.RobotsOf? ==> web.log[i].request.host in web.robots)
    && (forall i, j :: 0 <= i < j < |web.log| && web.log[i].request.RobotsOf? ==> web.log[i].request != web.log[j].request)
  }

  lemma AskKeepsRobots(net: Net, web: Web, url: string, host: string)
    requires RobotsOnce(web)
    ensures RobotsOnce(Ask(net, web, Page(url)))
    ensures RobotsOnce(AskRobots(net, web, host))
  {
  }

  lemma {:induction false} DrainRobotsOnce(rules: Rules, net: Net, s: State)
    requires RobotsOnce(s.web)
    ensures RobotsOnce(Drain(rules, net, s).web)
    decreases s.budget, |s.queue|
  {
    if !s.full && s.queue != [] && s.budget > 0 {
      AskKeepsRobots(net, s.web, s.queue[0], "");
      DrainRobotsOnce(rules, net, Visit(rules, net, s));
    }
  }

  lemma {:induction false} HostsRobotsOnce(rules: Rules, net: Net, hosts: seq<string>, s: State)
    requires RobotsOnce(s.web)
    ensures RobotsOnce(CrawlHosts(rules, net, hosts, s).web)
    decreases |hosts|
  {
    if hosts != [] {
      AskKeepsRobots(net, s.web, "", hosts[0]);
      var begun := Open(rules, net, hosts[0], s);
      DrainRobotsOnce(rules, net, begun);
      HostsRobotsOnce(rules, net, hosts[1..], Drain(rules, net, begun));
    }
  }

  lemma {:induction false} LinksRobotsOnce(rules: Rules, net: Net, urls: seq<string>, l: Linked)
    requires RobotsOnce(l.web)
    ensures RobotsOnce(LinkPages(rules, net, urls, l).web)
    decreases |urls|
  {
    if urls != [] {
      var host := rules.hostOf(urls[0]);
      AskKeepsRobots(net, l.web, "", host);
      AskKeepsRobots(net, AskRobots(net, l.web, host), urls[0], "");
      LinksRobotsOnce(rules, net, urls[1..], LinkPage(rules, net, urls[0], l));
    }
  }

  // ----- the links of the monitored pages

  /** The entries there were keep their channel; new ones are internal links. */
  ghost predicate Extends(before: map<string, Channel>, after: map<string, Channel>) {
    && (forall u :: u in before ==> u in after && after[u] == before[u])
    && (forall u :: u in after && u !in before ==> after[u] == InternalLink)
  }

  lemma {:induction false} AddedLinks(links: seq<string>, pool: map<string, Channel>)
    requires |pool| <= MAX_POOL
    ensures var (after, full) := AddLinks(links, pool);
            && Extends(pool, after)
            && |after| <= MAX_POOL && (full ==> |after| == MAX_POOL)
            && (forall u :: u in after ==> u in pool || u in links)
            && (!full ==> forall u :: u in links ==> u in after)
  {
    if links != [] && |pool| < MAX_POOL {
      AddedLinks(links[1..], if links[0] in pool then pool else pool[links[0] := InternalLink]);
    }
  }

  /** What became of a monitored page: denied, unavailable, or read. */
  ghost predicate Seen(rules: Rules, l: Linked, from: nat, url: string) {
    || RobotsDeny(url) in l.notes
    || PageUnavailable(url) in l.notes
    || exists i :: from <= i < |l.web.log| && l.web.log[i].request == Page(url) && Body(l.web.log[i]).Some?
  }

  /** A link of a monitored page that was read. */
  ghost predicate Linking(rules: Rules, log: seq<Exchange>, from: nat, u: string) {
    exists i :: from <= i < |log| && InLinks(rules, log[i], u)
  }

  predicate InLinks(rules: Rules, e: Exchange, u: string) {
    Body(e).Some? && u in rules.links(Body(e).value, e.request.url)
  }

  /** Against the pool and the log at the start of the stage. */
  ghost predicate LinkedUp(rules: Rules, l: Linked, from: nat, pool: map<string, Channel>) {
    && from <= |l.web.log|
    && Extends(pool, l.pool)
    && |l.pool| <= MAX_POOL && (l.full ==> |l.pool| == MAX_POOL)
    && (forall u :: u in l.pool ==> u in pool || Linking(rules, l.web.log, from, u))
    && (!l.full ==> forall u :: Linking(rules, l.web.log, from, u) ==> u in l.pool)
  }

  lemma LinkingAfter(rules: Rules, log: seq<Exchange>, from: nat, e: Exchange, u: string)
    requires from <= |log|
    ensures Linking(rules, log + [e], from, u) <==> Linking(rules, log, from, u) || InLinks(rules, e, u)
  {
    if Linking(rules, log, from, u) {
      var i :| from <= i < |log| && InLinks(rules, log[i], u);
      assert (log + [e])[i] == log[i];
    }
    if InLinks(rules, e, u) {
      assert (log + [e])[|log|] == e;
    }
  }

  lemma RobotsLinkedUp(rules: Rules, net: Net, host: string, l: Linked, from: nat, pool: map<string, Channel>)
    requires LinkedUp(rules, l, from, pool)
    ensures LinkedUp(rules, l.(web := AskRobots(net, l.web, host)), from, pool)
  {
    var e := Exchange(RobotsOf(host), net(|l.web.log|, RobotsOf(host)));
    forall u
      ensures Linking(rules, l.web.log + [e], from, u) <==> Linking(rules, l.web.log, from, u)
    {
      LinkingAfter(rules, l.web.log, from, e, u);
    }
  }

  lemma PageLinkedUp(rules: Rules, net: Net, url: string, l: Linked, from: nat, pool: map<string, Channel>)
    requires LinkedUp(rules, l, from, pool) && !l.full
    ensures LinkedUp(rules, LinkPage(rules, net, url, l), from, pool)
  {
    var host := rules.hostOf(url);
    RobotsLinkedUp(rules, net, host, l, from, pool);
    var asked := AskRobots(net, l.web, host);
    var e := Exchange(Page(url), net(|asked.log|, Page(url)));
    forall u
      ensures Linking(rules, asked.log + [e], from, u) <==> Linking(rules, asked.log, from, u) || InLinks(rules, e, u)
    {
      LinkingAfter(rules, asked.log, from, e, u);
    }
    if Body(e).Some? {
      AddedLinks(rules.links(Body(e).value, url), l.pool);
    }
  }

  lemma {:induction false} PagesLinkedUp(rules: Rules, net: Net, urls: seq<string>, l: Linked, from: nat, pool: map<string, Channel>)
    requires LinkedUp(rules, l, from, pool) && !l.full
    ensures LinkedUp(rules, LinkPages(rules, net, urls, l), from, pool)
    decreases |urls|
  {
    if urls != [] {
      PageLinkedUp(rules, net, urls[0], l, from, pool);
      var after := LinkPage(rules, net, urls[0], l);
      if !after.full {
        PagesLinkedUp(rules, net, urls[1..], after, from, pool);
      }
    }
  }

  /** The second stage only adds: every URL the sitemaps gave keeps its channel, the new ones come
      from monitored pages that were read, and all of those are there unless the pool is full. */
  lemma FirstChannelIsKept(rules: Rules, net: Net, urls: seq<string>, l: Linked)
    requires |l.pool| <= MAX_POOL && !l.full
    ensures var end := LinkPages(rules, net, urls, l);
            && Extends(l.pool, end.pool)
            && |end.pool| <= MAX_POOL
            && (forall u :: u in end.pool ==> u in l.pool || Linking(rules, end.web.log, |l.web.log|, u))
            && ((forall u :: Linking(rules, end.web.log, |l.web.log|, u) ==> u in end.pool) || |end.pool| == MAX_POOL)
  {
    PagesLinkedUp(rules, net, urls, l, |l.web.log|, l.pool);
  }

  lemma PageIsSeen(rules: Rules, net: Net, url: string, l: Linked, from: nat)
    requires from <= |l.web.log|
    ensures var after := LinkPage(rules, net, url, l);
            && from <= |after.web.log|
            && Seen(rules, after, from, url)
            && forall v :: Seen(rules, l, from, v) ==> Seen(rules, after, from, v)
  {
    var after := LinkPage(rules, net, url, l);
    assert l.web.log <= after.web.log && l.notes <= after.notes;
  }

  /** Every monitored page is read, or noted as denied or unavailable, unless the pool fills up. */
  lemma {:induction false} EveryPageIsSeen(rules: Rules, net: Net, urls: seq<string>, l: Linked, from: nat)
    requires from <= |l.web.log|
    ensures var end := LinkPages(rules, net, urls, l);
            && from <= |end.web.log|
            && (forall v :: Seen(rules, l, from, v) ==> Seen(rules, end, from, v))
            && (!end.full ==> forall i :: 0 <= i < |urls| ==> Seen(rules, end, from, urls[i]))
    decreases |urls|
  {
    if urls != [] {
      PageIsSeen(rules, net, urls[0], l, from);
      EveryPageIsSeen(rules, net, urls[1..], LinkPage(rules, net, urls[0], l), from);
      assert urls == [urls[0]] + urls[1..];
    }
  }

  // ----- both stages

  /** One bank's whole crawl, from an empty pool. */
  function Discover(rules: Rules, net: Net, hosts: seq<string>, monitored: seq<string>, web: Web): Linked {
    LinkPages(rules, net, monitored, OutcomeOf(CrawlHosts(rules, net, hosts, Start(web, []))))
  }

  /** The pool of a bank never exceeds three thousand, tells by its channel which URLs the sitemaps
      listed first, and no robots.txt is asked for twice, across banks too. */
  lemma DiscoveryIsBounded(rules: Rules, net: Net, hosts: seq<string>, monitored: seq<string>, web: Web)
    requires RobotsOnce(web)
    ensures var end := Discover(rules, net, hosts, monitored, web);
            var first := CrawlHosts(rules, net, hosts, Start(web, []));
            && |end.pool| <= 3_000
            && (forall u :: u in end.pool ==> (end.pool[u] == Sitemap <==> u in first.pool))
            && RobotsOnce(end.web)
  {
    var first := CrawlHosts(rules, net, hosts, Start(web, []));
    PoolIsWhatSitemapsList(rules, net, hosts, web, []);
    FirstChannelIsKept(rules, net, monitored, OutcomeOf(first));
    HostsRobotsOnce(rules, net, hosts, Start(web, []));
    LinksRobotsOnce(rules, net, monitored, OutcomeOf(first));
  }
}
