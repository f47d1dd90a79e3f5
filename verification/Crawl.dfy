/** The bounded discovery crawl of one bank: sitemaps named by robots.txt files, then the links of
    the monitored pages. The network may answer anything, differently at each request. */
module Crawl {
  import opened Wrappers

  const MAX_SITEMAP_FETCHES: nat := 6
  const MAX_POOL: nat := 3_000

  datatype Channel = Sitemap | InternalLink

  datatype Note = OutsideAllowlist(url: string) | SitemapUnavailable(url: string) | RobotsDeny(url: string) | PageUnavailable(url: string)

  datatype Request = RobotsOf(host: string) | Page(url: string)

  datatype Response = Response(status: int, text: string)

  datatype Exchange = Exchange(request: Request, reply: Option<Response>)

  /** What the network answers to the n-th request. */
  type Net = (nat, Request) -> Option<Response>

  /** What the crawl reads texts with: the URL policy with its canonical form, the sitemaps a
      robots.txt declares, the locations in a sitemap, which of those are sitemaps themselves, the
      host of a URL, the robots.txt decision, and the internal links of a page. */
  datatype Rules = Rules(
    validate: string -> Option<string>,
    declared: string -> seq<string>,
    locs: string -> seq<string>,
    isSitemap: string -> bool,
    hostOf: string -> string,
    allows: (Response, string) -> bool,
    links: (string, string) -> seq<string>)

  /** The requests made so far, and the robots.txt answers kept. */
  datatype Web = Web(log: seq<Exchange>, robots: map<string, Response>)

  // ----- one request

  function Ask(net: Net, web: Web, request: Request): Web {
    web.(log := web.log + [Exchange(request, net(|web.log|, request))])
  }

  function Kept(reply: Option<Response>): Response {
    if reply.None? then Response(503, "") else reply.value
  }

  function AskRobots(net: Net, web: Web, host: string): Web {
    if host in web.robots then web
    else
      Ask(net, web, RobotsOf(host)).(robots := web.robots[host := Kept(net(|web.log|, RobotsOf(host)))])
  }

  lemma RobotsAreKept(net: Net, web: Web, host: string)
    ensures host in AskRobots(net, web, host).robots
    ensures forall h :: h in web.robots ==> h in AskRobots(net, web, host).robots && AskRobots(net, web, host).robots[h] == web.robots[h]
  {
  }

  function Body(e: Exchange): Option<string> {
    if e.request.Page? && e.reply.Some? && e.reply.value.status == 200 then Some(e.reply.value.text) else None
  }

  class Fetcher {
    const net: Net
    var log: seq<Exchange>
    var robots: map<string, Response>

    constructor (net: Net)
      ensures this.net == net && Seen() == Web([], map[])
    {
      this.net := net;
      log, robots := [], map[];
    }

    function Seen(): Web
      reads this
    {
      Web(log, robots)
    }

    method Send(request: Request) returns (reply: Option<Response>)
      modifies this
      ensures Seen() == Ask(net, old(Seen()), request)
      ensures reply == net(|old(log)|, request)
    {
      reply := net(|log|, request);
      log := log + [Exchange(request, reply)];
    }

    method RobotsState(host: string) returns (state: Response)
      modifies this
      ensures Seen() == AskRobots(net, old(Seen()), host)
      ensures host in robots && state == robots[host]
    {
      if host !in robots {
        var reply := Send(RobotsOf(host));
        if reply.None? {
          // An unreachable robots.txt denies collection.
          robots := robots[host := Response(503, "")];
        } else {
          robots := robots[host := reply.value];
        }
      }
      state := robots[host];
    }

    method GetText(url: string) returns (text: Option<string>)
      modifies this
      ensures Seen() == Ask(net, old(Seen()), Page(url))
      ensures text == Body(log[|log| - 1])
    {
      var reply := Send(Page(url));
      if reply.None? || reply.value.status != 200 {
        text := None;
      } else {
        text := Some(reply.value.text);
      }
    }
  }

  // ----- the sitemap crawl as a function of the network

  /** The crawl between two requests. */
  datatype State = State(
    web: Web, queue: seq<string>, budget: nat, pool: map<string, Channel>, notes: seq<Note>, full: bool)

  datatype Gathered = Gathered(queue: seq<string>, pool: map<string, Channel>, full: bool)

  /** What the locations of one sitemap add. */
  function Gather(rules: Rules, locs: seq<string>, queue: seq<string>, pool: map<string, Channel>): Gathered {
    if locs == [] then Gathered(queue, pool, false)
    else if rules.isSitemap(locs[0]) then
      Gather(rules, locs[1..], if locs[0] in queue then queue else queue + [locs[0]], pool)
    else
      match rules.validate(locs[0])
      case None => Gather(rules, locs[1..], queue, pool)
      case Some(canonical) =>
        if |pool| >= MAX_POOL then Gathered(queue, pool, true)
        else Gather(rules, locs[1..], queue, if canonical in pool then pool else pool[canonical := Sitemap])
  }

  function Visit(rules: Rules, net: Net, s: State): State
    requires s.queue != [] && s.budget > 0
  {
    var url := s.queue[0];
    var rest := s.queue[1..];
    if rules.validate(url).None? then s.(queue := rest, notes := s.notes + [OutsideAllowlist(url)])
    else
      var web := Ask(net, s.web, Page(url));
      match Body(web.log[|web.log| - 1])
      case None => s.(web := web, queue := rest, budget := s.budget - 1, notes := s.notes + [SitemapUnavailable(url)])
      case Some(text) =>
        var g := Gather(rules, rules.locs(text), rest, s.pool);
        s.(web := web, queue := g.queue, budget := s.budget - 1, pool := g.pool, full := g.full)
  }

  /** The queue worked off, as far as the fetch budget goes. A sitemap may put any number of others
      on the queue, itself among them. */
  function Drain(rules: Rules, net: Net, s: State): State
    decreases s.budget, |s.queue|
  {
    if s.full || s.queue == [] || s.budget == 0 then s else Drain(rules, net, Visit(rules, net, s))
  }

  function DefaultSitemap(host: string): string {
    "https://" + host + "/sitemap.xml"
  }

  /** The sitemaps a host starts with. */
  function Roots(rules: Rules, host: string, robots: Response): seq<string> {
    var declared := if 200 <= robots.status < 300 then rules.declared(robots.text) else [];
    if declared == [] then [DefaultSitemap(host)] else declared
  }

  function Open(rules: Rules, net: Net, host: string, s: State): State {
    var web := AskRobots(net, s.web, host);
    RobotsAreKept(net, s.web, host);
    s.(web := web, queue := Roots(rules, host, web.robots[host]))
  }

  function CrawlHosts(rules: Rules, net: Net, hosts: seq<string>, s: State): State
    decreases |hosts|
  {
    if hosts == [] then s
    else
      var after := Drain(rules, net, Open(rules, net, hosts[0], s));
      if after.full then after else CrawlHosts(rules, net, hosts[1..], after)
  }

  function Start(web: Web, notes: seq<Note>): State {
    State(web, [], MAX_SITEMAP_FETCHES, map[], notes, false)
  }

  // ----- the links of the monitored pages as a function of the network

  datatype Linked = Linked(web: Web, pool: map<string, Channel>, notes: seq<Note>, full: bool)

  function AddLinks(links: seq<string>, pool: map<string, Channel>): (map<string, Channel>, bool) {
    if links == [] then (pool, false)
    else if |pool| >= MAX_POOL then (pool, true)
    else AddLinks(links[1..], if links[0] in pool then pool else pool[links[0] := InternalLink])
  }

  function LinkPage(rules: Rules, net: Net, url: string, l: Linked): Linked {
    var host := rules.hostOf(url);
    var asked := AskRobots(net, l.web, host);
    RobotsAreKept(net, l.web, host);
    if !rules.allows(asked.robots[host], url) then l.(web := asked, notes := l.notes + [RobotsDeny(url)])
    else
      var web := Ask(net, asked, Page(url));
      match Body(web.log[|web.log| - 1])
      case None => l.(web := web, notes := l.notes + [PageUnavailable(url)])
      case Some(html) =>
        var added := AddLinks(rules.links(html, url), l.pool);
        l.(web := web, pool := added.0, full := added.1)
  }

  function LinkPages(rules: Rules, net: Net, urls: seq<string>, l: Linked): Linked
    decreases |urls|
  {
    if urls == [] then l
    else
      var after := LinkPage(rules, net, urls[0], l);
      if after.full then after else LinkPages(rules, net, urls[1..], after)
  }

  /** What the sitemap stage hands on. */
  function OutcomeOf(s: State): Linked {
    Linked(s.web, s.pool, s.notes, false)
  }

  // ----- the crawl itself

  class BankDiscovery {
    const rules: Rules
    var candidates: map<string, Channel>
    var notes: seq<Note>

    constructor (rules: Rules)
      ensures this.rules == rules && candidates == map[] && notes == []
    {
      this.rules := rules;
      candidates, notes := map[], [];
    }

    /** The locations of one sitemap: sitemaps join the queue, other pages the pool. */
    method TakeLocations(locs: seq<string>, pending: seq<string>) returns (queue: seq<string>, full: bool)
      modifies this`candidates
      ensures Gathered(queue, candidates, full) == Gather(rules, locs, pending, old(candidates))
    {
      queue := pending;
      for j := 0 to |locs|
        invariant Gather(rules, locs[j..], queue, candidates) == Gather(rules, locs, pending, old(candidates))
      {
        assert locs[j..][1..] == locs[j + 1..];
        if rules.isSitemap(locs[j]) {
          if locs[j] !in queue {
            queue := queue + [locs[j]];
          }
          continue;
        }
        var canonical := rules.validate(locs[j]);
        if canonical.None? {
          continue;
        }
        if |candidates| >= MAX_POOL {
          return queue, true;
        }
        if canonical.value !in candidates {
          candidates := candidates[canonical.value := Sitemap];
        }
      }
      full := false;
    }

    ghost function Now(fetcher: Fetcher, queue: seq<string>, budget: nat): State
      reads this, fetcher
    {
      State(fetcher.Seen(), queue, budget, candidates, notes, false)
    }

    /** The queue of one host, worked off within what is left of the fetch budget. */
    method DrainQueue(fetcher: Fetcher, roots: seq<string>, budget: nat) returns (queue: seq<string>, fetchBudget: nat, full: bool)
      modifies this, fetcher
      ensures Now(fetcher, queue, fetchBudget).(full := full)
           == Drain(rules, fetcher.net, old(Now(fetcher, roots, budget)))
    {
      queue, fetchBudget, full := roots, budget, false;
      while queue != [] && fetchBudget > 0
        invariant Drain(rules, fetcher.net, Now(fetcher, queue, fetchBudget))
               == Drain(rules, fetcher.net, old(Now(fetcher, roots, budget)))
        invariant !full
        decreases fetchBudget, |queue|
      {
        ghost var before := Now(fetcher, queue, fetchBudget);
        var sitemap := queue[0];
        queue := queue[1..];
        if rules.validate(sitemap).None? {
          notes := notes + [OutsideAllowlist(sitemap)];
          assert Now(fetcher, queue, fetchBudget) == Visit(rules, fetcher.net, before);
          continue;
        }
        fetchBudget := fetchBudget - 1;
        var body := fetcher.GetText(sitemap);
        if body.None? {
          notes := notes + [SitemapUnavailable(sitemap)];
          assert Now(fetcher, queue, fetchBudget) == Visit(rules, fetcher.net, before);
          continue;
        }
        queue, full := TakeLocations(rules.locs(body.value), queue);
        assert Now(fetcher, queue, fetchBudget).(full := full) == Visit(rules, fetcher.net, before);
        if full {
          return;
        }
      }
    }

    /** The candidates of the sitemaps that the hosts' robots.txt files declare. */
    method CollectSitemapUrls(fetcher: Fetcher, hosts: seq<string>)
      modifies this, fetcher
      ensures Outcome(fetcher) == OutcomeOf(CrawlHosts(rules, fetcher.net, hosts, Start(old(fetcher.Seen()), old(notes))))
    {
      candidates := map[];
      var fetchBudget := MAX_SITEMAP_FETCHES;
      var queue: seq<string> := [];
      for i := 0 to |hosts|
        invariant CrawlHosts(rules, fetcher.net, hosts[i..], Now(fetcher, queue, fetchBudget))
               == CrawlHosts(rules, fetcher.net, hosts, Start(old(fetcher.Seen()), old(notes)))
      {
        assert hosts[i..][1..] == hosts[i + 1..];
        ghost var before := Now(fetcher, queue, fetchBudget);
        var robots := fetcher.RobotsState(hosts[i]);
        var declared := if 200 <= robots.status < 300 then rules.declared(robots.text) else [];
        queue := if declared == [] then [DefaultSitemap(hosts[i])] else declared;
        assert Now(fetcher, queue, fetchBudget) == Open(rules, fetcher.net, hosts[i], before);
        var full;
        queue, fetchBudget, full := DrainQueue(fetcher, queue, fetchBudget);
        if full {
          return;
        }
      }
    }

    ghost function Outcome(fetcher: Fetcher): Linked
      reads this, fetcher
    {
      Linked(fetcher.Seen(), candidates, notes, false)
    }

    method TakeLinks(links: seq<string>) returns (full: bool)
      modifies this`candidates
      ensures (candidates, full) == AddLinks(links, old(candidates))
    {
      for j := 0 to |links|
        invariant AddLinks(links[j..], candidates) == AddLinks(links, old(candidates))
      {
        assert links[j..][1..] == links[j + 1..];
        if |candidates| >= MAX_POOL {
          return true;
        }
        if links[j] !in candidates {
          candidates := candidates[links[j] := InternalLink];
        }
      }
      full := false;
    }

    /** Adds the internal links of the monitored pages that robots.txt allows. */
    method CollectInternalLinks(fetcher: Fetcher, monitored: seq<string>)
      modifies this, fetcher
      ensures Outcome(fetcher) == LinkPages(rules, fetcher.net, monitored, old(Outcome(fetcher))).(full := false)
    {
      for i := 0 to |monitored|
        invariant LinkPages(rules, fetcher.net, monitored[i..], Outcome(fetcher))
               == LinkPages(rules, fetcher.net, monitored, old(Outcome(fetcher)))
      {
        assert monitored[i..][1..] == monitored[i + 1..];
        ghost var before := Outcome(fetcher);
        var page := monitored[i];
        var robots := fetcher.RobotsState(rules.hostOf(page));
        if !rules.allows(robots, page) {
          notes := notes + [RobotsDeny(page)];
          assert Outcome(fetcher) == LinkPage(rules, fetcher.net, page, before);
          continue;
        }
        var html := fetcher.GetText(page);
        if html.None? {
          notes := notes + [PageUnavailable(page)];
          assert Outcome(fetcher) == LinkPage(rules, fetcher.net, page, before);
          continue;
        }
        var full := TakeLinks(rules.links(html.value, page));
        assert Outcome(fetcher).(full := full) == LinkPage(rules, fetcher.net, page, before);
        if full {
          return;
        }
      }
    }
  }
}
