/**
 * The crawl engine. Every fetch task completes synchronously when it is
 * dispatched: the task marks its URL visited and calls the parser, and its
 * completion callback runs at once.
 */
module Crawling {
  import opened Wrappers
  import opened Uri
  import opened Parser
  import opened CrawlSpec

  /** The default size of the worker pool. */
  const MaxThreads := 10

  /**
   * crawl's failure, an IllegalArgumentException: from newFixedThreadPool for
   * a pool of no threads, or from checkArgument for a page limit of 0.
   */
  datatype CrawlError = IllegalArgument

  /** The condition of crawl's loop: work is queued or in flight, and the limit was not reached. */
  predicate LoopGoesOn(toVisit: seq<Url>, taskCount: int, pageLimitReached: bool)
  {
    (toVisit != [] || taskCount != 0) && !pageLimitReached
  }

  /** The loop's bound on the fetches still to come: what is left of a positive limit, or the unvisited part of the site. */
  ghost function Unfetched(pageLimit: int, site: set<Url>, visited: set<Url>, pagesCrawled: int): int
  {
    if pageLimit > 0 then pageLimit - pagesCrawled else |site - visited|
  }

  /** What filterInternalLinks as written gives: the links kept, or a NullPointerException. */
  datatype Filtering = Filtered(links: set<Url>) | ThrewNullPointer

  /**
   * The for loop of filterInternalLinks as written, for an input URL that
   * parsed. Each link is parsed first: a malformed one ends the loop through
   * the URISyntaxException handler, with the links collected so far. For a
   * link that parses, `inputDomain.equalsIgnoreCase` is called, which throws
   * a NullPointerException when the input URL has no host; otherwise the link
   * is kept when its host matches, and the loop goes on.
   */
  function ScanAsWritten(uri: Url -> UriHost, inputUri: UriHost, urls: seq<Url>): Filtering
    requires !inputUri.Malformed?
    decreases |urls|
  {
    if urls == [] then Filtered({})
    else
      var candidate := uri(urls[0]);
      if candidate.Malformed? then Filtered({})
      else if inputUri.NoHost? then ThrewNullPointer
      else
        var keep := if candidate.Host? && EqualsIgnoreCase(inputUri.name, candidate.name) then {urls[0]} else {};
        match ScanAsWritten(uri, inputUri, urls[1..])
        case Filtered(rest) => Filtered(keep + rest)
        case ThrewNullPointer => ThrewNullPointer
  }

  /**
   * With a host the scan keeps exactly the links `Kept` describes; with no
   * host it throws exactly when the first link parses, and otherwise keeps
   * nothing.
   */
  lemma {:induction false} ScanAsWrittenAgrees(uri: Url -> UriHost, inputUri: UriHost, urls: seq<Url>)
    requires !inputUri.Malformed?
    ensures inputUri.Host? ==> ScanAsWritten(uri, inputUri, urls) == Filtered(Kept(uri, inputUri.name, urls))
    ensures inputUri.NoHost? ==>
              (ScanAsWritten(uri, inputUri, urls).ThrewNullPointer? <==> urls != [] && !uri(urls[0]).Malformed?)
    ensures inputUri.NoHost? && ScanAsWritten(uri, inputUri, urls).Filtered? ==> ScanAsWritten(uri, inputUri, urls).links == {}
    decreases |urls|
  {
    if urls != [] && inputUri.Host? {
      ScanAsWrittenAgrees(uri, inputUri, urls[1..]);
    }
  }

  /**
   * filterInternalLinks as the source writes it: a malformed input URL gives
   * no links, and otherwise the loop runs. It throws a NullPointerException
   * exactly when the input URL has no host and the first link parses, and
   * otherwise gives the internal links.
   */
  function FilterAsWritten(uri: Url -> UriHost, inputUrl: Url, urls: seq<Url>): (r: Filtering)
    ensures r.Filtered? ==> r.links == InternalLinks(uri, inputUrl, urls)
    ensures r.ThrewNullPointer? <==> uri(inputUrl).NoHost? && urls != [] && !uri(urls[0]).Malformed?
  {
    if uri(inputUrl).Malformed? then Filtered({})
    else
      ScanAsWrittenAgrees(uri, uri(inputUrl), urls);
      ScanAsWritten(uri, uri(inputUrl), urls)
  }

  class Crawler {
    /** The worker pool size; the pool itself is not modelled. */
    const threads: int
    /** The Parser that fetches a page. */
    const parser: Url -> ParseOutcome
    /** Host extraction by java.net.URI. */
    const uri: Url -> UriHost

    var visitedLinks: set<Url>
    var toVisit: seq<Url>

    /** Between two crawls the visited set and the frontier are empty. */
    ghost predicate Idle()
      reads this
    {
      visitedLinks == {} && toVisit == []
    }

    constructor (parser: Url -> ParseOutcome, uri: Url -> UriHost)
      ensures Idle()
      ensures this.parser == parser && this.uri == uri && threads == MaxThreads
    {
      this.visitedLinks := {};
      this.toVisit := [];
      this.threads := MaxThreads;
      this.parser := parser;
      this.uri := uri;
    }

    constructor WithThreads(parser: Url -> ParseOutcome, uri: Url -> UriHost, maxThreads: int)
      ensures Idle()
      ensures this.parser == parser && this.uri == uri && threads == maxThreads
    {
      this.visitedLinks := {};
      this.toVisit := [];
      this.threads := maxThreads;
      this.parser := parser;
      this.uri := uri;
    }

    /** Queue.poll: removes and returns the head of the frontier, or null when it is empty. */
    method Poll() returns (url: Option<Url>)
      modifies this`toVisit
      ensures old(toVisit) == [] ==> url == None && toVisit == []
      ensures old(toVisit) != [] ==> url == Some(old(toVisit)[0]) && toVisit == old(toVisit)[1..]
      ensures old(toVisit) != [] ==> old(toVisit) == [url.value] + toVisit
    {
      if toVisit == [] {
        url := None;
      } else {
        url := Some(toVisit[0]);
        toVisit := toVisit[1..];
        assert old(toVisit) == [url.value] + toVisit;
      }
    }

    /** Queue.addAll of a set: appends every member once, in some order. */
    method AddAll(links: set<Url>)
      modifies this`toVisit
      ensures |toVisit| == |old(toVisit)| + |links|
      ensures toVisit[..|old(toVisit)|] == old(toVisit)
      ensures LinkSet(toVisit[|old(toVisit)|..]) == links
    {
      var rest := links;
      ghost var added: seq<Url> := [];
      while rest != {}
        invariant toVisit == old(toVisit) + added
        invariant rest <= links
        invariant LinkSet(added) == links - rest
        invariant |added| + |rest| == |links|
        decreases rest
      {
        var link :| link in rest;
        toVisit := toVisit + [link];
        added := added + [link];
        rest := rest - {link};
      }
      assert toVisit[|old(toVisit)|..] == added;
    }

    /**
     * filterInternalLinks: keeps the links of `urls` (a set, in its
     * iteration order) whose host equals the host of `inputUrl` ignoring
     * case. A malformed `inputUrl` yields no links; a malformed link ends
     * the loop, since the exception is caught outside it. A host-less
     * `inputUrl` yields no links either: this is the corrected behaviour of
     * `FilterAsWritten`, which throws instead.
     */
    method FilterInternalLinks(inputUrl: Url, urls: seq<Url>) returns (filtered: set<Url>)
      ensures filtered == InternalLinks(uri, inputUrl, urls)
    {
      filtered := {};
      var inputUri := uri(inputUrl);
      if !inputUri.Host? {
        return;
      }
      var i := 0;
      while i < |urls|
        invariant 0 <= i <= |urls|
        invariant filtered + Kept(uri, inputUri.name, urls[i..]) == Kept(uri, inputUri.name, urls)
      {
        var candidate := uri(urls[i]);
        assert urls[i..][0] == urls[i] && urls[i..][1..] == urls[i + 1..];
        if candidate.Malformed? {
          break;
        }
        if candidate.Host? && EqualsIgnoreCase(inputUri.name, candidate.name) {
          filtered := filtered + {urls[i]};
        }
        i := i + 1;
      }
    }

    /**
     * onSuccess: a non-null result is put in the result map if its key is
     * absent, and its non-empty link set, filtered against the start URL,
     * is appended to the frontier. The task count drops by one.
     */
    method OnSuccess(startUrl: Url, result: Option<Page>, pageLinks: map<Url, set<Url>>, taskCount: int)
      returns (pageLinks': map<Url, set<Url>>, taskCount': int)
      modifies this`toVisit
      ensures taskCount' == taskCount - 1
      ensures result.None? ==> pageLinks' == pageLinks && toVisit == old(toVisit)
      ensures result.Some? ==> pageLinks' == PutIfAbsent(pageLinks, result.value.key, LinkSet(result.value.links))
      ensures |toVisit| >= |old(toVisit)| && toVisit[..|old(toVisit)|] == old(toVisit)
      ensures result.Some? ==>
                LinkSet(toVisit[|old(toVisit)|..]) ==
                (if |result.value.links| > 0 then InternalLinks(uri, startUrl, result.value.links) else {})
      ensures |toVisit| == |old(toVisit)| +
                           (if result.Some? && |result.value.links| > 0
                            then |InternalLinks(uri, startUrl, result.value.links)| else 0)
    {
      pageLinks' := pageLinks;
      if result.Some? {
        pageLinks' := PutIfAbsent(pageLinks, result.value.key, LinkSet(result.value.links));
        if |result.value.links| > 0 {
          var filteredLinks := FilterInternalLinks(startUrl, result.value.links);
          AddAll(filteredLinks);
        } else {
          assert toVisit[|old(toVisit)|..] == [];
        }
      }
      taskCount' := taskCount - 1;
    }

    /**
     * onSuccess as written: the link filter runs before the frontier is
     * extended and before the count is decremented, so when it throws (a
     * host-less start URL whose first link parses) the result is recorded
     * but nothing is appended and the count is not decremented. Guava's
     * listener dispatch logs the exception and drops it.
     */
    method OnSuccessAsWritten(startUrl: Url, result: Option<Page>, pageLinks: map<Url, set<Url>>,
                              taskCount: int)
      returns (pageLinks': map<Url, set<Url>>, taskCount': int, threw: bool)
      modifies this`toVisit
      ensures threw <==> result.Some? && uri(startUrl).NoHost? && result.value.links != [] &&
                         !uri(result.value.links[0]).Malformed?
      ensures result.None? ==> pageLinks' == pageLinks
      ensures result.Some? ==> pageLinks' == PutIfAbsent(pageLinks, result.value.key, LinkSet(result.value.links))
      ensures threw ==> taskCount' == taskCount && toVisit == old(toVisit)
      ensures !threw ==> taskCount' == taskCount - 1
      ensures |toVisit| >= |old(toVisit)| && toVisit[..|old(toVisit)|] == old(toVisit)
      ensures !threw && result.Some? ==>
                LinkSet(toVisit[|old(toVisit)|..]) ==
                (if |result.value.links| > 0 then InternalLinks(uri, startUrl, result.value.links) else {})
      ensures !threw ==> |toVisit| == |old(toVisit)| +
                           (if result.Some? && |result.value.links| > 0
                            then |InternalLinks(uri, startUrl, result.value.links)| else 0)
    {
      pageLinks', taskCount', threw := pageLinks, taskCount, false;
      if result.Some? {
        pageLinks' := PutIfAbsent(pageLinks, result.value.key, LinkSet(result.value.links));
        if |result.value.links| > 0 {
          match FilterAsWritten(uri, startUrl, result.value.links)
          case ThrewNullPointer =>
            threw := true;
            return;
          case Filtered(filteredLinks) =>
            AddAll(filteredLinks);
        }
      }
      if !threw {
        assert result.None? || |result.value.links| == 0 ==> toVisit[|old(toVisit)|..] == [];
      }
      taskCount' := taskCount - 1;
    }

    /** onFailure: the task count drops by one and nothing else changes. */
    method OnFailure(taskCount: int) returns (taskCount': int)
      ensures taskCount' == taskCount - 1
    {
      taskCount' := taskCount - 1;
    }

    /**
     * Submits the fetch of `url` and runs its completion at once: the task
     * marks the URL visited and calls the parser; an Exception or a null
     * result reaches onSuccess as null, an Error reaches onFailure.
     */
    method RunTask(startUrl: Url, url: Url, pageLinks: map<Url, set<Url>>, taskCount: int)
      returns (pageLinks': map<Url, set<Url>>, taskCount': int)
      modifies this`visitedLinks, this`toVisit
      ensures visitedLinks == old(visitedLinks) + {url}
      ensures taskCount' == taskCount
      ensures pageLinks' ==
              if parser(url).Returned?
              then PutIfAbsent(pageLinks, parser(url).page.key, LinkSet(parser(url).page.links))
              else pageLinks
      ensures |toVisit| >= |old(toVisit)| && toVisit[..|old(toVisit)|] == old(toVisit)
      ensures LinkSet(toVisit[|old(toVisit)|..]) == Enqueued(parser, uri, startUrl, url)
      ensures |toVisit| == |old(toVisit)| + |Enqueued(parser, uri, startUrl, url)|
    {
      visitedLinks := visitedLinks + {url};
      var outcome := parser(url);
      var pending := taskCount + 1;
      if outcome.ThrewError? {
        taskCount' := OnFailure(pending);
        pageLinks' := pageLinks;
        assert toVisit[|old(toVisit)|..] == [];
      } else {
        var result := if outcome.Returned? then Some(outcome.page) else None;
        pageLinks', taskCount' := OnSuccess(startUrl, result, pageLinks, pending);
        if result.None? {
          assert toVisit[|old(toVisit)|..] == [];
        }
      }
    }

    /** cleanUp: after the pool is shut down, the visited set and the frontier are cleared. */
    method CleanUp()
      modifies this`visitedLinks, this`toVisit
      ensures Idle()
    {
      visitedLinks := {};
      toVisit := [];
    }

    /**
     * The dispatch of a polled URL not visited before, below the limit: a
     * positive limit counts it, and the task runs. The search invariant
     * holds for the longer log, and one more URL of the limit or of the
     * site is used up.
     */
    method Fetch(startUrl: Url, pageLimit: int, ghost site: set<Url>, ghost dispatched: seq<Url>, url: Url,
                 pageLinks: map<Url, set<Url>>, taskCount: int, pagesCrawled: int)
      returns (pageLinks': map<Url, set<Url>>, taskCount': int, pagesCrawled': int, ghost dispatched': seq<Url>)
      requires Searching(parser, uri, startUrl, pageLimit, site, dispatched, visitedLinks, [url] + toVisit,
                         pageLinks, pagesCrawled, false)
      requires pageLimit != 0 && url !in visitedLinks && (pageLimit < 0 || pagesCrawled < pageLimit)
      modifies this`visitedLinks, this`toVisit
      ensures taskCount' == taskCount && dispatched' == dispatched + [url]
      ensures Searching(parser, uri, startUrl, pageLimit, site, dispatched', visitedLinks, toVisit,
                        pageLinks', pagesCrawled', false)
      ensures Unfetched(pageLimit, site, visitedLinks, pagesCrawled') < Unfetched(pageLimit, site, old(visitedLinks), pagesCrawled)
    {
      ghost var rest := toVisit;
      pagesCrawled' := pagesCrawled;
      if pageLimit > 0 {
        pagesCrawled' := pagesCrawled + 1;
      }
      pageLinks', taskCount' := RunTask(startUrl, url, pageLinks, taskCount);
      ghost var added := toVisit[|rest|..];
      SplitAt(toVisit, |rest|);
      SearchDispatches(parser, uri, startUrl, pageLimit, site, dispatched, old(visitedLinks), url, rest, added,
                       pageLinks, pagesCrawled);
      dispatched' := dispatched + [url];
      assert visitedLinks == old(visitedLinks) + {url};
    }

    /**
     * One pass of crawl's loop: the head of the frontier is polled; an empty
     * frontier gives null, and the pass changes nothing; a URL fetched before
     * is dropped; an unvisited one is fetched
     * below the limit (the counter counting it when the limit is positive);
     * at the limit the flag is set and nothing is fetched. The search
     * invariant is kept, and from a non-empty frontier the pass makes
     * progress: it sets the flag,
     * fetches one more URL of the limit or the site, or shortens the
     * frontier.
     */
    method Visit(startUrl: Url, pageLimit: int, ghost site: set<Url>, ghost dispatched: seq<Url>,
                 pageLinks: map<Url, set<Url>>, taskCount: int, pagesCrawled: int)
      returns (pageLinks': map<Url, set<Url>>, taskCount': int, pagesCrawled': int, pageLimitReached: bool,
               ghost dispatched': seq<Url>)
      requires pageLimit != 0
      requires Searching(parser, uri, startUrl, pageLimit, site, dispatched, visitedLinks, toVisit,
                         pageLinks, pagesCrawled, false)
      modifies this`visitedLinks, this`toVisit
      ensures taskCount' == taskCount
      ensures Searching(parser, uri, startUrl, pageLimit, site, dispatched', visitedLinks, toVisit,
                        pageLinks', pagesCrawled', pageLimitReached)
      ensures old(toVisit) == [] ==>
                toVisit == [] && visitedLinks == old(visitedLinks) && pageLinks' == pageLinks &&
                pagesCrawled' == pagesCrawled && !pageLimitReached && dispatched' == dispatched
      ensures old(toVisit) != [] ==>
              pageLimitReached ||
              Unfetched(pageLimit, site, visitedLinks, pagesCrawled') < Unfetched(pageLimit, site, old(visitedLinks), pagesCrawled) ||
              (Unfetched(pageLimit, site, visitedLinks, pagesCrawled') == Unfetched(pageLimit, site, old(visitedLinks), pagesCrawled) &&
               |toVisit| < |old(toVisit)|)
    {
      pageLinks', taskCount', pagesCrawled', pageLimitReached, dispatched' := pageLinks, taskCount, pagesCrawled, false, dispatched;
      ghost var unfetched := Unfetched(pageLimit, site, visitedLinks, pagesCrawled);
      var url := Poll();
      if url.None? {
        return;
      }
      var next := url.value;
      if next in visitedLinks {
        SearchSkips(parser, uri, startUrl, pageLimit, site, dispatched, visitedLinks, next, toVisit,
                    pageLinks, pagesCrawled);
        assert Unfetched(pageLimit, site, visitedLinks, pagesCrawled') == unfetched;
      } else if pageLimit < 0 || pagesCrawled < pageLimit {
        pageLinks', taskCount', pagesCrawled', dispatched' :=
          Fetch(startUrl, pageLimit, site, dispatched, next, pageLinks, taskCount, pagesCrawled);
      } else {
        SearchHitsLimit(parser, uri, startUrl, pageLimit, site, dispatched, visitedLinks, next, toVisit,
                        pageLinks, pagesCrawled);
        pageLimitReached := true;
      }
    }

    /**
     * crawl: a worklist search from `startUrl`. `dispatched` is the log of
     * fetched URLs in dispatch order. The result map is what their
     * completions recorded; no URL is fetched twice; every fetched URL was
     * reached by following internal links from the start URL; a positive
     * limit bounds the number of fetches, failed ones included; and unless
     * the limit stopped it, the crawl fetched every link it discovered.
     * With no limit, `site` is a finite set of URLs closed under following
     * internal links, which the source needs to return at all. The pool is
     * created before the limit is checked, so a pool of no threads fails
     * first; either failure leaves the crawler untouched.
     */
    method Crawl(startUrl: Url, pageLimit: int, ghost site: set<Url>)
      returns (r: Result<map<Url, set<Url>>, CrawlError>, ghost dispatched: seq<Url>)
      requires Idle()
      requires pageLimit < 0 ==> ClosedSite(parser, uri, startUrl, site)
      modifies this`visitedLinks, this`toVisit
      ensures Idle()
      ensures r.Failure? <==> threads <= 0 || pageLimit == 0
      ensures r.Failure? ==> dispatched == []
      ensures r.Success? ==> r.value == Recorded(parser, dispatched)
      ensures NoRepeats(dispatched)
      ensures Discovered(parser, uri, startUrl, dispatched)
      ensures pageLimit > 0 ==> |dispatched| <= pageLimit
      ensures r.Success? && (pageLimit < 0 || |dispatched| < pageLimit) ==> Exhausted(parser, uri, startUrl, dispatched)
    {
      dispatched := [];
      if threads <= 0 || pageLimit == 0 {
        return Failure(IllegalArgument), dispatched;
      }
      var pageLinks: map<Url, set<Url>> := map[];
      var taskCount := 0;
      var pageLimitReached := false;
      var pagesCrawled := 0;

      toVisit := toVisit + [startUrl];
      SearchStarts(parser, uri, startUrl, pageLimit, site);
      while LoopGoesOn(toVisit, taskCount, pageLimitReached)
        invariant taskCount == 0
        invariant Searching(parser, uri, startUrl, pageLimit, site, dispatched, visitedLinks, toVisit,
                            pageLinks, pagesCrawled, pageLimitReached)
        decreases if pageLimitReached then 0 else 1,
                  Unfetched(pageLimit, site, visitedLinks, pagesCrawled),
                  |toVisit|
      {
        pageLinks, taskCount, pagesCrawled, pageLimitReached, dispatched :=
          Visit(startUrl, pageLimit, site, dispatched, pageLinks, taskCount, pagesCrawled);
      }
      SearchEnds(parser, uri, startUrl, pageLimit, site, dispatched, visitedLinks, toVisit,
                 pageLinks, pagesCrawled, pageLimitReached);
      CleanUp();
      return Success(pageLinks), dispatched;
    }

    /**
     * crawl as written, for a start URL with no host whose page's first link
     * parses: the first pass fetches the start URL and its completion throws
     * in the link filter, so the frontier stays empty and the task count
     * stays at one. Every later pass polls null and leaves the state as it
     * was, so after any number of passes the loop condition still holds.
     */
    method HostlessStartHangs(startUrl: Url, pageLimit: int, passes: nat)
      returns (pageLinks: map<Url, set<Url>>, taskCount: int, pagesCrawled: int, pageLimitReached: bool)
      requires Idle() && threads > 0 && pageLimit != 0
      requires uri(startUrl).NoHost?
      requires parser(startUrl).Returned? && parser(startUrl).page.links != []
      requires !uri(parser(startUrl).page.links[0]).Malformed?
      modifies this`visitedLinks, this`toVisit
      ensures toVisit == [] && visitedLinks == {startUrl}
      ensures taskCount == 1 && !pageLimitReached
      ensures pageLinks == map[parser(startUrl).page.key := LinkSet(parser(startUrl).page.links)]
      ensures pagesCrawled == if pageLimit > 0 then 1 else 0
      ensures LoopGoesOn(toVisit, taskCount, pageLimitReached)
    {
      pageLinks, taskCount, pagesCrawled, pageLimitReached := map[], 0, 0, false;
      toVisit := toVisit + [startUrl];
      SearchStarts(parser, uri, startUrl, pageLimit, {startUrl});
      HostlessStartFetchesItself(parser, uri, startUrl, []);
      // The first pass: startUrl is polled, counted and dispatched.
      var url := Poll();
      var next := url.value;
      if pageLimit > 0 {
        pagesCrawled := pagesCrawled + 1;
      }
      visitedLinks := visitedLinks + {next};
      var pending := taskCount + 1;
      var threw;
      pageLinks, taskCount, threw := OnSuccessAsWritten(startUrl, Some(parser(next).page), pageLinks, pending);
      assert threw;
      assert [startUrl] == [startUrl] + [] && toVisit == [] + [];
      SearchDispatches(parser, uri, startUrl, pageLimit, {startUrl}, [], {}, startUrl, [], [], map[], 0);
      // Every later pass.
      var i := 0;
      while i < passes
        invariant toVisit == [] && visitedLinks == {startUrl} && taskCount == 1 && !pageLimitReached
        invariant pageLinks == map[parser(startUrl).page.key := LinkSet(parser(startUrl).page.links)]
        invariant pagesCrawled == if pageLimit > 0 then 1 else 0
        invariant Searching(parser, uri, startUrl, pageLimit, {startUrl}, [startUrl], visitedLinks, toVisit,
                            pageLinks, pagesCrawled, false)
      {
        ghost var dispatched;
        pageLinks, taskCount, pagesCrawled, pageLimitReached, dispatched :=
          Visit(startUrl, pageLimit, {startUrl}, [startUrl], pageLinks, taskCount, pagesCrawled);
        i := i + 1;
      }
    }
  }
}
