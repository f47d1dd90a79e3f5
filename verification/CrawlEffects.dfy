/** What the crawl asks of hosts, and that it asks only what their robots.txt files allow. */
module CrawlEffects {
  import opened Wrappers
  import opened Crawl
  import CrawlTheorems

  // ----- the robots.txt answers kept

  /** The answer kept for a host: what it said, or a refusal when it could not be reached. */
  predicate Answers(e: Exchange, host: string, kept: Response) {
    && e.request == RobotsOf(host)
    && match e.reply
       case Some(response) => kept == response
       case None => kept.status == 503 && kept.text == ""
  }

  ghost predicate Answered(log: seq<Exchange>, host: string, kept: Response) {
    exists i :: 0 <= i < |log| && Answers(log[i], host, kept)
  }

  /** Every answer kept is that of a request made. */
  ghost predicate KeptAsAnswered(web: Web) {
    forall h :: h in web.robots ==> Answered(web.log, h, web.robots[h])
  }

  lemma AnsweredStill(log: seq<Exchange>, e: Exchange, host: string, kept: Response)
    requires Answered(log, host, kept)
    ensures Answered(log + [e], host, kept)
  {
    var i :| 0 <= i < |log| && Answers(log[i], host, kept);
    assert (log + [e])[i] == log[i];
  }

  lemma AskKeeps(net: Net, web: Web, url: string)
    requires KeptAsAnswered(web)
    ensures KeptAsAnswered(Ask(net, web, Page(url)))
  {
    var e := Exchange(Page(url), net(|web.log|, Page(url)));
    forall h | h in web.robots
      ensures Answered(web.log + [e], h, web.robots[h])
    {
      AnsweredStill(web.log, e, h, web.robots[h]);
    }
  }

  lemma RobotsKeep(net: Net, web: Web, host: string)
    requires KeptAsAnswered(web)
    ensures KeptAsAnswered(AskRobots(net, web, host))
  {
    if host !in web.robots {
      var e := Exchange(RobotsOf(host), net(|web.log|, RobotsOf(host)));
      var after := AskRobots(net, web, host);
      forall h | h in after.robots
        ensures Answered(web.log + [e], h, after.robots[h])
      {
        if h == host {
          assert (web.log + [e])[|web.log|] == e;
          assert Answers(e, host, after.robots[host]);
        } else {
          AnsweredStill(web.log, e, h, web.robots[h]);
        }
      }
    }
  }

  lemma {:induction false} DrainKeeps(rules: Rules, net: Net, s: State)
    requires KeptAsAnswered(s.web)
    ensures KeptAsAnswered(Drain(rules, net, s).web)
    decreases s.budget, |s.queue|
  {
    if !s.full && s.queue != [] && s.budget > 0 {
      AskKeeps(net, s.web, s.queue[0]);
      DrainKeeps(rules, net, Visit(rules, net, s));
    }
  }

  lemma {:induction false} HostsKeep(rules: Rules, net: Net, hosts: seq<string>, s: State)
    requires KeptAsAnswered(s.web)
    ensures KeptAsAnswered(CrawlHosts(rules, net, hosts, s).web)
    decreases |hosts|
  {
    if hosts != [] {
      RobotsKeep(net, s.web, hosts[0]);
      var begun := Open(rules, net, hosts[0], s);
      DrainKeeps(rules, net, begun);
      HostsKeep(rules, net, hosts[1..], Drain(rules, net, begun));
    }
  }

  lemma {:induction false} LinksKeep(rules: Rules, net: Net, urls: seq<string>, l: Linked)
    requires KeptAsAnswered(l.web)
    ensures KeptAsAnswered(LinkPages(rules, net, urls, l).web)
    decreases |urls|
  {
    if urls != [] {
      var host := rules.hostOf(urls[0]);
      RobotsKeep(net, l.web, host);
      AskKeeps(net, AskRobots(net, l.web, host), urls[0]);
      LinksKeep(rules, net, urls[1..], LinkPage(rules, net, urls[0], l));
    }
  }

  /** Whatever the crawl keeps of a host is what that host answered when it was asked, and a host that
      could not be reached counts as refusing with status 503. */
  lemma RobotsAreAsAnswered(rules: Rules, net: Net, hosts: seq<string>, monitored: seq<string>, web: Web)
    requires KeptAsAnswered(web)
    ensures KeptAsAnswered(CrawlTheorems.Discover(rules, net, hosts, monitored, web).web)
  {
    HostsKeep(rules, net, hosts, Start(web, []));
    LinksKeep(rules, net, monitored, OutcomeOf(CrawlHosts(rules, net, hosts, Start(web, []))));
  }

  // ----- the stage over the monitored pages

  /** Over the exchanges and notes of one stage, which began with `log` exchanges and `notes` notes. */
  datatype Since = Since(log: nat, notes: nat)

  ghost predicate Requested(l: Linked, since: Since, u: string) {
    exists i :: since.log <= i < |l.web.log| && l.web.log[i].request == Page(u)
  }

  ghost predicate Missed(l: Linked, since: Since, u: string) {
    exists i :: since.log <= i < |l.web.log| && l.web.log[i].request == Page(u) && !Succeeded(l.web.log[i], u)
  }

  predicate Succeeded(e: Exchange, u: string) {
    e.request == Page(u) && e.reply.Some? && e.reply.value.status == 200
  }

  ghost predicate Noted(l: Linked, since: Since, note: Note) {
    exists i :: since.notes <= i < |l.notes| && l.notes[i] == note
  }

  /** The robots.txt answer kept for the page's host allows it. */
  predicate Allowed(rules: Rules, web: Web, u: string) {
    rules.hostOf(u) in web.robots && rules.allows(web.robots[rules.hostOf(u)], u)
  }

  predicate Denied(rules: Rules, web: Web, u: string) {
    rules.hostOf(u) in web.robots && !rules.allows(web.robots[rules.hostOf(u)], u)
  }

  /** So far only allowed pages were requested, only denied ones noted as denied, and only ones that
      could not be read noted as unavailable. */
  ghost predicate Obeys(rules: Rules, l: Linked, since: Since, done: seq<string>) {
    && since.log <= |l.web.log| && since.notes <= |l.notes|
    && (forall u :: Requested(l, since, u) <==> u in done && Allowed(rules, l.web, u))
    && (forall u :: Noted(l, since, RobotsDeny(u)) <==> u in done && Denied(rules, l.web, u))
    && (forall u :: Noted(l, since, PageUnavailable(u)) <==> Missed(l, since, u))
    && (forall u :: u in done ==> rules.hostOf(u) in l.web.robots)
  }

  lemma AfterRobots(rules: Rules, net: Net, host: string, l: Linked, since: Since, done: seq<string>)
    requires Obeys(rules, l, since, done)
    ensures Obeys(rules, l.(web := AskRobots(net, l.web, host)), since, done)
  {
    var after := l.(web := AskRobots(net, l.web, host));
    RobotsAreKept(net, l.web, host);
    var e := Exchange(RobotsOf(host), net(|l.web.log|, RobotsOf(host)));
    forall u
      ensures Requested(after, since, u) <==> Requested(l, since, u)
      ensures Missed(after, since, u) <==> Missed(l, since, u)
      ensures forall note :: Noted(after, since, note) <==> Noted(l, since, note)
      ensures u in done ==> (Allowed(rules, after.web, u) <==> Allowed(rules, l.web, u))
      ensures u in done ==> (Denied(rules, after.web, u) <==> Denied(rules, l.web, u))
    {
      if host !in l.web.robots {
        SinceGrows(l, e, since, u);
      }
    }
  }

  lemma SinceGrows(l: Linked, e: Exchange, since: Since, u: string)
    requires since.log <= |l.web.log|
    ensures var web := Web(l.web.log + [e], l.web.robots);
            && (Requested(l.(web := web), since, u) <==> Requested(l, since, u) || e.request == Page(u))
            && (Missed(l.(web := web), since, u) <==> Missed(l, since, u) || (e.request == Page(u) && !Succeeded(e, u)))
  {
    var log := l.web.log + [e];
    assert log[|l.web.log|] == e;
    assert forall i :: 0 <= i < |l.web.log| ==> log[i] == l.web.log[i];
  }

  lemma NotesGrow(l: Linked, more: seq<Note>, since: Since, note: Note)
    requires since.notes <= |l.notes| && |more| <= 1
    ensures Noted(l.(notes := l.notes + more), since, note) <==> Noted(l, since, note) || note in more
  {
    var notes := l.notes + more;
    assert forall i :: 0 <= i < |l.notes| ==> notes[i] == l.notes[i];
    if |more| == 1 {
      assert notes[|l.notes|] == more[0];
    }
  }

  /** What one page adds: a denial, or a request and, when it fails, a note of that. */
  lemma PageAdds(rules: Rules, net: Net, url: string, l: Linked, since: Since)
    requires since.log <= |l.web.log| && since.notes <= |l.notes|
    requires rules.hostOf(url) in l.web.robots
    ensures var after := LinkPage(rules, net, url, l);
            && after.web.robots == l.web.robots
            && |l.web.log| <= |after.web.log| && |l.notes| <= |after.notes|
            && forall u ::
                 && (Requested(after, since, u) <==> Requested(l, since, u) || (u == url && Allowed(rules, l.web, url)))
                 && (Noted(after, since, RobotsDeny(u)) <==> Noted(l, since, RobotsDeny(u)) || (u == url && Denied(rules, l.web, url)))
                 && ((Noted(l, since, PageUnavailable(u)) <==> Missed(l, since, u)) ==>
                       (Noted(after, since, PageUnavailable(u)) <==> Missed(after, since, u)))
  {
    var after := LinkPage(rules, net, url, l);
    if Denied(rules, l.web, url) {
      forall note
        ensures Noted(after, since, note) <==> Noted(l, since, note) || note == RobotsDeny(url)
      {
        NotesGrow(l, [RobotsDeny(url)], since, note);
      }
    } else {
      var e := Exchange(Page(url), net(|l.web.log|, Page(url)));
      var more := if Succeeded(e, url) then [] else [PageUnavailable(url)];
      LastOf(l.web.log, e);
      assert after.web.log == l.web.log + [e] && after.notes == l.notes + more;
      forall u
        ensures Requested(after, since, u) <==> Requested(l, since, u) || u == url
        ensures Missed(after, since, u) <==> Missed(l, since, u) || (u == url && more != [])
        ensures forall note :: Noted(after, since, note) <==> Noted(l, since, note) || note in more
      {
        SinceGrows(l, e, since, u);
        forall note
          ensures Noted(after, since, note) <==> Noted(l, since, note) || note in more
        {
          NotesGrow(l, more, since, note);
        }
      }
    }
  }

  lemma LastOf(log: seq<Exchange>, e: Exchange)
    ensures (log + [e])[|log + [e]| - 1] == e
  {
  }

  lemma AfterPage(rules: Rules, net: Net, url: string, l: Linked, since: Since, done: seq<string>)
    requires Obeys(rules, l, since, done) && rules.hostOf(url) in l.web.robots
    ensures Obeys(rules, LinkPage(rules, net, url, l), since, done + [url])
  {
    PageAdds(rules, net, url, l, since);
    assert forall u :: u in done + [url] <==> u in done || u == url;
  }

  lemma PageAfterRobots(rules: Rules, net: Net, url: string, l: Linked)
    ensures LinkPage(rules, net, url, l)
         == LinkPage(rules, net, url, l.(web := AskRobots(net, l.web, rules.hostOf(url))))
  {
    RobotsAreKept(net, l.web, rules.hostOf(url));
  }

  lemma PageObeys(rules: Rules, net: Net, url: string, l: Linked, since: Since, done: seq<string>)
    requires Obeys(rules, l, since, done)
    ensures Obeys(rules, LinkPage(rules, net, url, l), since, done + [url])
  {
    var host := rules.hostOf(url);
    RobotsAreKept(net, l.web, host);
    AfterRobots(rules, net, host, l, since, done);
    PageAfterRobots(rules, net, url, l);
    AfterPage(rules, net, url, l.(web := AskRobots(net, l.web, host)), since, done);
  }

  lemma Onwards(done: seq<string>, urls: seq<string>, m: nat)
    requires urls != [] && m <= |urls| - 1
    ensures done + [urls[0]] + urls[1..][..m] == done + urls[..m + 1]
  {
    assert urls[..m + 1] == [urls[0]] + urls[1..][..m];
  }

  lemma {:induction false} PagesObey(rules: Rules, net: Net, urls: seq<string>, l: Linked, since: Since, done: seq<string>)
      returns (n: nat)
    requires Obeys(rules, l, since, done) && !l.full
    ensures n <= |urls| && (n == |urls| || LinkPages(rules, net, urls, l).full)
    ensures Obeys(rules, LinkPages(rules, net, urls, l), since, done + urls[..n])
    decreases |urls|
  {
    if urls == [] {
      n := 0;
      assert done + urls[..0] == done;
    } else {
      PageObeys(rules, net, urls[0], l, since, done);
      var after := LinkPage(rules, net, urls[0], l);
      if after.full {
        n := 1;
        assert urls[..1] == [urls[0]];
      } else {
        var m := PagesObey(rules, net, urls[1..], after, since, done + [urls[0]]);
        n := m + 1;
        Onwards(done, urls, m);
      }
    }
  }

  /** The stage over the monitored pages obeys the robots.txt files: of the pages it comes to, those
      whose host's kept answer allows them are requested and no others are; those it denies are noted
      as denied and no others are; and a page is noted as unavailable exactly when a request for it
      brought no answer of status 200. The stage comes to all pages, unless the pool fills up. */
  lemma RobotsAreObeyed(rules: Rules, net: Net, urls: seq<string>, l: Linked) returns (n: nat)
    requires !l.full
    ensures n <= |urls| && (n == |urls| || LinkPages(rules, net, urls, l).full)
    ensures var end, since := LinkPages(rules, net, urls, l), Since(|l.web.log|, |l.notes|);
            && (forall u :: u in urls[..n] ==> rules.hostOf(u) in end.web.robots)
            && (forall u :: Requested(end, since, u) <==>
                  u in urls[..n] && rules.hostOf(u) in end.web.robots && rules.allows(end.web.robots[rules.hostOf(u)], u))
            && (forall u :: Noted(end, since, RobotsDeny(u)) <==>
                  u in urls[..n] && rules.hostOf(u) in end.web.robots && !rules.allows(end.web.robots[rules.hostOf(u)], u))
            && (forall u :: Noted(end, since, PageUnavailable(u)) <==> Missed(end, since, u))
  {
    n := PagesObey(rules, net, urls, l, Since(|l.web.log|, |l.notes|), []);
    assert [] + urls[..n] == urls[..n];
  }

  // ----- the queue of sitemaps

  /** The next sitemap is the first of the queue; what its text names goes behind the rest. */
  lemma QueueIsServedInOrder(rules: Rules, net: Net, s: State)
    requires s.queue != [] && s.budget > 0
    ensures var after := Visit(rules, net, s);
            && s.queue[1..] <= after.queue
            && (rules.validate(s.queue[0]).None? ==>
                  after == s.(queue := s.queue[1..], notes := s.notes + [OutsideAllowlist(s.queue[0])]))
            && (rules.validate(s.queue[0]).Some? ==>
                  && after.budget == s.budget - 1
                  && |after.web.log| == |s.web.log| + 1 && s.web.log <= after.web.log
                  && after.web.log[|s.web.log|].request == Page(s.queue[0])
                  && (after.notes == s.notes <==> Succeeded(after.web.log[|s.web.log|], s.queue[0]))
                  && after.notes <= s.notes + [SitemapUnavailable(s.queue[0])])
  {
    if rules.validate(s.queue[0]).Some? {
      var e := Exchange(Page(s.queue[0]), net(|s.web.log|, Page(s.queue[0])));
      LastOf(s.web.log, e);
      if Body(e).Some? {
        QueueGrowsBehind(rules, rules.locs(Body(e).value), s.queue[1..], s.pool);
      }
    }
  }

  lemma {:induction false} QueueGrowsBehind(rules: Rules, locs: seq<string>, queue: seq<string>, pool: map<string, Channel>)
    ensures queue <= Gather(rules, locs, queue, pool).queue
  {
    if locs != [] {
      if rules.isSitemap(locs[0]) {
        QueueGrowsBehind(rules, locs[1..], if locs[0] in queue then queue else queue + [locs[0]], pool);
      } else {
        match rules.validate(locs[0])
        case None => QueueGrowsBehind(rules, locs[1..], queue, pool);
        case Some(canonical) =>
          if |pool| < MAX_POOL {
            QueueGrowsBehind(rules, locs[1..], queue, if canonical in pool then pool else pool[canonical := Sitemap]);
          }
      }
    }
  }

  /** A host starts with the sitemaps its robots.txt declares, when it answered with success and
      declares any, and otherwise with the one at its root. */
  lemma RootsOfHost(rules: Rules, net: Net, host: string, s: State)
    ensures var after := Open(rules, net, host, s);
            && host in after.web.robots
            && (host in s.web.robots ==> after.web == s.web)
            && (var kept := after.web.robots[host];
                if 200 <= kept.status <= 299 && rules.declared(kept.text) != []
                then after.queue == rules.declared(kept.text)
                else after.queue == ["https://" + host + "/sitemap.xml"])
  {
  }
}
