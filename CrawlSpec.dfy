/**
 * Specification functions for the crawl engine: which discovered links the
 * same-host filter keeps, what a completed fetch adds to the frontier, how
 * the result map is filled, and the properties of a crawl's dispatch log.
 */
module CrawlSpec {
  import opened Uri
  import opened Parser

  /**
   * The links of `urls`, visited in order, whose host equals `host` ignoring
   * case. A malformed link ends the scan: the links after it are never
   * looked at. A link without a host is skipped.
   */
  function Kept(uri: Url -> UriHost, host: string, urls: seq<Url>): set<Url>
    decreases |urls|
  {
    if urls == [] then {}
    else match uri(urls[0])
      case Malformed => {}
      case NoHost => Kept(uri, host, urls[1..])
      case Host(h) => (if EqualsIgnoreCase(host, h) then {urls[0]} else {}) + Kept(uri, host, urls[1..])
  }

  /**
   * filterInternalLinks: the links of `urls` on the host of `inputUrl`.
   * A malformed `inputUrl` gives no links. A host-less `inputUrl` gives none
   * either (the source only gets that far when `urls` is empty).
   */
  function InternalLinks(uri: Url -> UriHost, inputUrl: Url, urls: seq<Url>): set<Url>
  {
    match uri(inputUrl)
    case Host(host) => Kept(uri, host, urls)
    case _ => {}
  }

  /** `url` has a host, and it is the host of `inputUrl` ignoring case. */
  predicate SameHost(uri: Url -> UriHost, inputUrl: Url, url: Url)
  {
    uri(inputUrl).Host? && uri(url).Host? && EqualsIgnoreCase(uri(inputUrl).name, uri(url).name)
  }

  lemma {:induction false} KeptSound(uri: Url -> UriHost, host: string, urls: seq<Url>, x: Url)
    requires x in Kept(uri, host, urls)
    ensures x in urls && uri(x).Host? && EqualsIgnoreCase(host, uri(x).name)
    decreases |urls|
  {
    if x in Kept(uri, host, urls[1..]) {
      KeptSound(uri, host, urls[1..], x);
    }
  }

  /** Every kept link is one of the candidates, on the reference host. */
  lemma InternalLinksSound(uri: Url -> UriHost, inputUrl: Url, urls: seq<Url>, x: Url)
    requires x in InternalLinks(uri, inputUrl, urls)
    ensures x in urls && SameHost(uri, inputUrl, x)
  {
    KeptSound(uri, uri(inputUrl).name, urls, x);
  }

  lemma {:induction false} KeptComplete(uri: Url -> UriHost, host: string, urls: seq<Url>, x: Url)
    requires forall u :: u in urls ==> !uri(u).Malformed?
    requires x in urls && uri(x).Host? && EqualsIgnoreCase(host, uri(x).name)
    ensures x in Kept(uri, host, urls)
    decreases |urls|
  {
    if x != urls[0] {
      KeptComplete(uri, host, urls[1..], x);
    }
  }

  /**
   * When no candidate is malformed, the filter keeps exactly the candidates
   * on the reference host.
   */
  lemma InternalLinksExact(uri: Url -> UriHost, inputUrl: Url, urls: seq<Url>, x: Url)
    requires forall u :: u in urls ==> !uri(u).Malformed?
    ensures x in InternalLinks(uri, inputUrl, urls) <==> x in urls && SameHost(uri, inputUrl, x)
  {
    if x in InternalLinks(uri, inputUrl, urls) {
      InternalLinksSound(uri, inputUrl, urls, x);
    }
    if x in urls && SameHost(uri, inputUrl, x) {
      KeptComplete(uri, uri(inputUrl).name, urls, x);
    }
  }

  lemma {:induction false} KeptStopsAtMalformed(uri: Url -> UriHost, host: string, before: seq<Url>, bad: Url, after: seq<Url>)
    requires uri(bad).Malformed?
    ensures Kept(uri, host, before + [bad] + after) == Kept(uri, host, before)
    decreases |before|
  {
    var all := before + [bad] + after;
    if before != [] {
      assert all[0] == before[0];
      assert all[1..] == before[1..] + [bad] + after;
      KeptStopsAtMalformed(uri, host, before[1..], bad, after);
    }
  }

  /**
   * The catch is outside the loop: a malformed candidate ends filtering, and
   * the result is what the candidates before it gave.
   */
  lemma MalformedEndsFiltering(uri: Url -> UriHost, inputUrl: Url, before: seq<Url>, bad: Url, after: seq<Url>)
    requires uri(bad).Malformed?
    ensures InternalLinks(uri, inputUrl, before + [bad] + after) == InternalLinks(uri, inputUrl, before)
  {
    if uri(inputUrl).Host? {
      KeptStopsAtMalformed(uri, uri(inputUrl).name, before, bad, after);
    }
  }

  /**
   * The links a completed fetch of `url` appends to the frontier: none when
   * the task failed or yielded null or an empty link set; otherwise the
   * page's links filtered against the start URL (not against `url`).
   */
  function Enqueued(parser: Url -> ParseOutcome, uri: Url -> UriHost, startUrl: Url, url: Url): set<Url>
  {
    match parser(url)
    case Returned(page) => if |page.links| > 0 then InternalLinks(uri, startUrl, page.links) else {}
    case _ => {}
  }

  /** Map.putIfAbsent: adds the entry only for a new key; old entries stay. */
  function PutIfAbsent(m: map<Url, set<Url>>, k: Url, v: set<Url>): (r: map<Url, set<Url>>)
    ensures r.Keys == m.Keys + {k}
    ensures forall j :: j in m ==> r[j] == m[j]
    ensures k !in m ==> r[k] == v
  {
    if k in m then m else m[k := v]
  }

  /**
   * The result map after the fetches of `dispatched` completed in that
   * order: every returned page is recorded under its key with putIfAbsent.
   */
  function Recorded(parser: Url -> ParseOutcome, dispatched: seq<Url>): map<Url, set<Url>>
    decreases |dispatched|
  {
    if dispatched == [] then map[]
    else
      var m := Recorded(parser, dispatched[..|dispatched| - 1]);
      match parser(dispatched[|dispatched| - 1])
      case Returned(page) => PutIfAbsent(m, page.key, LinkSet(page.links))
      case _ => m
  }

  /** One more completion: a returned page is put under its key if absent. */
  lemma RecordedStep(parser: Url -> ParseOutcome, dispatched: seq<Url>, url: Url)
    ensures Recorded(parser, dispatched + [url]) ==
            if parser(url).Returned?
            then PutIfAbsent(Recorded(parser, dispatched), parser(url).page.key, LinkSet(parser(url).page.links))
            else Recorded(parser, dispatched)
  {
    assert (dispatched + [url])[..|dispatched|] == dispatched;
  }

  /** A key is recorded exactly when some dispatched fetch returned a page with that key. */
  lemma {:induction false} RecordedKeys(parser: Url -> ParseOutcome, dispatched: seq<Url>, k: Url)
    ensures k in Recorded(parser, dispatched) <==>
            exists i :: 0 <= i < |dispatched| && parser(dispatched[i]).Returned? && parser(dispatched[i]).page.key == k
    decreases |dispatched|
  {
    if dispatched != [] {
      var n := |dispatched| - 1;
      var front := dispatched[..n];
      RecordedKeys(parser, front, k);
      if exists i :: 0 <= i < |dispatched| && parser(dispatched[i]).Returned? && parser(dispatched[i]).page.key == k {
        var i :| 0 <= i < |dispatched| && parser(dispatched[i]).Returned? && parser(dispatched[i]).page.key == k;
        if i < n {
          assert front[i] == dispatched[i];
        }
      }
      if exists i :: 0 <= i < |front| && parser(front[i]).Returned? && parser(front[i]).page.key == k {
        var i :| 0 <= i < |front| && parser(front[i]).Returned? && parser(front[i]).page.key == k;
        assert dispatched[i] == front[i];
      }
    }
  }

  /** First writer wins: later completions never change a recorded entry. */
  lemma {:induction false} RecordedNeverOverwritten(parser: Url -> ParseOutcome, earlier: seq<Url>, later: seq<Url>, k: Url)
    requires k in Recorded(parser, earlier)
    ensures k in Recorded(parser, earlier + later)
    ensures Recorded(parser, earlier + later)[k] == Recorded(parser, earlier)[k]
    decreases |later|
  {
    if later != [] {
      var n := |later| - 1;
      assert earlier + later == (earlier + later[..n]) + [later[n]];
      RecordedNeverOverwritten(parser, earlier, later[..n], k);
      RecordedStep(parser, earlier + later[..n], later[n]);
    } else {
      assert earlier + later == earlier;
    }
  }

  /** No page returned: the result map stays empty. */
  lemma {:induction false} AllFailedRecordsNothing(parser: Url -> ParseOutcome, dispatched: seq<Url>)
    requires forall i :: 0 <= i < |dispatched| ==> !parser(dispatched[i]).Returned?
    ensures Recorded(parser, dispatched) == map[]
    decreases |dispatched|
  {
    if dispatched != [] {
      var n := |dispatched| - 1;
      assert !parser(dispatched[n]).Returned?;
      AllFailedRecordsNothing(parser, dispatched[..n]);
    }
  }

  /** The parser returns every page under the URL it was asked for (HtmlParser does). */
  ghost predicate KeysAreUrls(parser: Url -> ParseOutcome, urls: seq<Url>)
  {
    forall i :: 0 <= i < |urls| && parser(urls[i]).Returned? ==> parser(urls[i]).page.key == urls[i]
  }

  /** No URL occurs twice. */
  ghost predicate NoRepeats(urls: seq<Url>)
  {
    forall i, j :: 0 <= i < j < |urls| ==> urls[i] != urls[j]
  }

  /**
   * When pages are keyed by their own URL and no URL is fetched twice, the
   * result maps each fetched URL whose page returned to that page's link set.
   */
  lemma {:induction false} RecordedPages(parser: Url -> ParseOutcome, dispatched: seq<Url>, u: Url)
    requires KeysAreUrls(parser, dispatched) && NoRepeats(dispatched)
    ensures u in Recorded(parser, dispatched) <==> u in dispatched && parser(u).Returned?
    ensures u in Recorded(parser, dispatched) ==> Recorded(parser, dispatched)[u] == LinkSet(parser(u).page.links)
    decreases |dispatched|
  {
    if dispatched != [] {
      var n := |dispatched| - 1;
      var front := dispatched[..n];
      assert KeysAreUrls(parser, front) by {
        forall i | 0 <= i < |front| && parser(front[i]).Returned? ensures parser(front[i]).page.key == front[i] {
          assert front[i] == dispatched[i];
        }
      }
      RecordedPages(parser, front, u);
      assert dispatched == front + [dispatched[n]];
      forall i | 0 <= i < |front| ensures front[i] != dispatched[n] {
        assert front[i] == dispatched[i];
      }
      RecordedStep(parser, front, dispatched[n]);
    }
  }

  /**
   * The dispatch log of a crawl from `startUrl`: each fetched URL is the
   * start URL or was appended to the frontier by an earlier fetch.
   */
  ghost predicate Discovered(parser: Url -> ParseOutcome, uri: Url -> UriHost, startUrl: Url, dispatched: seq<Url>)
  {
    forall i :: 0 <= i < |dispatched| ==>
      dispatched[i] == startUrl ||
      exists j :: 0 <= j < i && dispatched[i] in Enqueued(parser, uri, startUrl, dispatched[j])
  }

  /** `url` is the start URL or was appended to the frontier by a fetch of `dispatched`. */
  ghost predicate Reached(parser: Url -> ParseOutcome, uri: Url -> UriHost, startUrl: Url, dispatched: seq<Url>, url: Url)
  {
    url == startUrl || exists j :: 0 <= j < |dispatched| && url in Enqueued(parser, uri, startUrl, dispatched[j])
  }

  /** Every frontier entry is the start URL or a link appended by a completed fetch. */
  ghost predicate AllReached(parser: Url -> ParseOutcome, uri: Url -> UriHost, startUrl: Url, dispatched: seq<Url>, frontier: seq<Url>)
  {
    forall k :: 0 <= k < |frontier| ==> Reached(parser, uri, startUrl, dispatched, frontier[k])
  }

  /**
   * No work is lost: the start URL and every link a completed fetch
   * appended are fetched already or still in the frontier.
   */
  ghost predicate NothingLost(parser: Url -> ParseOutcome, uri: Url -> UriHost, startUrl: Url, dispatched: seq<Url>, frontier: seq<Url>)
  {
    (startUrl in dispatched || startUrl in frontier) &&
    forall i, x :: 0 <= i < |dispatched| && x in Enqueued(parser, uri, startUrl, dispatched[i]) ==>
      x in dispatched || x in frontier
  }

  /** Polling a URL that was fetched before loses nothing. */
  lemma SkipVisited(parser: Url -> ParseOutcome, uri: Url -> UriHost, startUrl: Url, dispatched: seq<Url>, url: Url, rest: seq<Url>)
    requires url in dispatched
    ensures AllReached(parser, uri, startUrl, dispatched, [url] + rest) ==> AllReached(parser, uri, startUrl, dispatched, rest)
    ensures NothingLost(parser, uri, startUrl, dispatched, [url] + rest) ==> NothingLost(parser, uri, startUrl, dispatched, rest)
  {
    AllReachedTail(parser, uri, startUrl, dispatched, url, rest);
  }

  /** Removing the head of the frontier keeps every remaining entry reached. */
  lemma AllReachedTail(parser: Url -> ParseOutcome, uri: Url -> UriHost, startUrl: Url, dispatched: seq<Url>, url: Url, rest: seq<Url>)
    ensures AllReached(parser, uri, startUrl, dispatched, [url] + rest) ==> AllReached(parser, uri, startUrl, dispatched, rest)
  {
    if AllReached(parser, uri, startUrl, dispatched, [url] + rest) {
      forall k | 0 <= k < |rest| ensures Reached(parser, uri, startUrl, dispatched, rest[k]) {
        assert rest[k] == ([url] + rest)[k + 1];
      }
    }
  }

  /**
   * Fetching a URL polled from the frontier, never fetched before, whose
   * completion appends `added`: the log stays repetition-free and
   * discovered, and the frontier stays reached and loses nothing.
   */
  lemma DispatchUnvisited(parser: Url -> ParseOutcome, uri: Url -> UriHost, startUrl: Url,
                          dispatched: seq<Url>, url: Url, rest: seq<Url>, added: seq<Url>)
    requires url !in dispatched && NoRepeats(dispatched)
    requires Discovered(parser, uri, startUrl, dispatched)
    requires AllReached(parser, uri, startUrl, dispatched, [url] + rest)
    requires LinkSet(added) == Enqueued(parser, uri, startUrl, url)
    ensures NoRepeats(dispatched + [url])
    ensures Discovered(parser, uri, startUrl, dispatched + [url])
    ensures AllReached(parser, uri, startUrl, dispatched + [url], rest + added)
    ensures NothingLost(parser, uri, startUrl, dispatched, [url] + rest) ==>
            NothingLost(parser, uri, startUrl, dispatched + [url], rest + added)
  {
    assert Reached(parser, uri, startUrl, dispatched, ([url] + rest)[0]);
    DispatchNoRepeats(dispatched, url);
    DispatchDiscovered(parser, uri, startUrl, dispatched, url);
    DispatchReached(parser, uri, startUrl, dispatched, url, rest, added);
    DispatchLosesNothing(parser, uri, startUrl, dispatched, url, rest, added);
  }

  /** Appending a URL never fetched before keeps the log repetition-free. */
  lemma DispatchNoRepeats(dispatched: seq<Url>, url: Url)
    requires url !in dispatched && NoRepeats(dispatched)
    ensures NoRepeats(dispatched + [url])
  {
    var d := dispatched + [url];
    var n := |dispatched|;
    forall i, k | 0 <= i < k < |d| ensures d[i] != d[k] {
      assert d[i] == dispatched[i];
      if k < n {
        assert d[k] == dispatched[k];
      }
    }
  }

  /** A fetch of a reached URL keeps the log discovered. */
  lemma DispatchDiscovered(parser: Url -> ParseOutcome, uri: Url -> UriHost, startUrl: Url,
                           dispatched: seq<Url>, url: Url)
    requires Discovered(parser, uri, startUrl, dispatched)
    requires Reached(parser, uri, startUrl, dispatched, url)
    ensures Discovered(parser, uri, startUrl, dispatched + [url])
  {
    var d := dispatched + [url];
    var n := |dispatched|;
    forall i | 0 <= i < |d| && d[i] != startUrl
      ensures exists j :: 0 <= j < i && d[i] in Enqueued(parser, uri, startUrl, d[j])
    {
      var j;
      if i < n {
        j := EarlierFetch(parser, uri, startUrl, dispatched, i);
        assert d[i] == dispatched[i];
      } else {
        j := ReachingFetch(parser, uri, startUrl, dispatched, url);
        assert d[i] == url;
      }
      assert d[j] == dispatched[j];
    }
  }

  /** The earlier fetch that appended a discovered, non-start entry of the log. */
  lemma EarlierFetch(parser: Url -> ParseOutcome, uri: Url -> UriHost, startUrl: Url, dispatched: seq<Url>, i: int)
    returns (j: int)
    requires Discovered(parser, uri, startUrl, dispatched)
    requires 0 <= i < |dispatched| && dispatched[i] != startUrl
    ensures 0 <= j < i && dispatched[i] in Enqueued(parser, uri, startUrl, dispatched[j])
  {
    j :| 0 <= j < i && dispatched[i] in Enqueued(parser, uri, startUrl, dispatched[j]);
  }

  /** The fetch that appended a reached URL other than the start URL. */
  lemma ReachingFetch(parser: Url -> ParseOutcome, uri: Url -> UriHost, startUrl: Url, dispatched: seq<Url>, url: Url)
    returns (j: int)
    requires Reached(parser, uri, startUrl, dispatched, url) && url != startUrl
    ensures 0 <= j < |dispatched| && url in Enqueued(parser, uri, startUrl, dispatched[j])
  {
    j :| 0 <= j < |dispatched| && url in Enqueued(parser, uri, startUrl, dispatched[j]);
  }

  /** After a fetch, the rest of the frontier and the links it appended are all reached. */
  lemma DispatchReached(parser: Url -> ParseOutcome, uri: Url -> UriHost, startUrl: Url,
                        dispatched: seq<Url>, url: Url, rest: seq<Url>, added: seq<Url>)
    requires AllReached(parser, uri, startUrl, dispatched, [url] + rest)
    requires LinkSet(added) == Enqueued(parser, uri, startUrl, url)
    ensures AllReached(parser, uri, startUrl, dispatched + [url], rest + added)
  {
    var d := dispatched + [url];
    var n := |dispatched|;
    assert d[n] == url;
    var frontier := rest + added;
    forall k | 0 <= k < |frontier| ensures Reached(parser, uri, startUrl, d, frontier[k]) {
      if k < |rest| {
        assert frontier[k] == ([url] + rest)[k + 1];
        var x := frontier[k];
        if x != startUrl {
          var j :| 0 <= j < n && x in Enqueued(parser, uri, startUrl, dispatched[j]);
          assert d[j] == dispatched[j];
          assert x in Enqueued(parser, uri, startUrl, d[j]);
        }
      } else {
        assert frontier[k] in added;
        assert frontier[k] in Enqueued(parser, uri, startUrl, d[n]);
      }
    }
  }

  /** A fetch moves its URL from the frontier to the log and appends its links: nothing is lost. */
  lemma DispatchLosesNothing(parser: Url -> ParseOutcome, uri: Url -> UriHost, startUrl: Url,
                             dispatched: seq<Url>, url: Url, rest: seq<Url>, added: seq<Url>)
    requires LinkSet(added) == Enqueued(parser, uri, startUrl, url)
    ensures NothingLost(parser, uri, startUrl, dispatched, [url] + rest) ==>
            NothingLost(parser, uri, startUrl, dispatched + [url], rest + added)
  {
    var d := dispatched + [url];
    var n := |dispatched|;
    var frontier := rest + added;
    assert d[n] == url;
    if NothingLost(parser, uri, startUrl, dispatched, [url] + rest) {
      forall x | x in [url] + rest ensures x in d || x in frontier {
        if x != url {
          assert x in rest;
        }
      }
      forall i, x | 0 <= i < |d| && x in Enqueued(parser, uri, startUrl, d[i])
        ensures x in d || x in frontier
      {
        if i == n {
          assert x in LinkSet(added);
        } else {
          assert d[i] == dispatched[i];
          assert x in Enqueued(parser, uri, startUrl, dispatched[i]);
        }
      }
    }
  }


  /**
   * The crawl ran out of work: the start URL and every link that a fetch
   * appended to the frontier were fetched.
   */
  ghost predicate Exhausted(parser: Url -> ParseOutcome, uri: Url -> UriHost, startUrl: Url, dispatched: seq<Url>)
  {
    startUrl in dispatched &&
    forall i, x :: 0 <= i < |dispatched| && x in Enqueued(parser, uri, startUrl, dispatched[i]) ==> x in dispatched
  }

  /**
   * The corrected crawl from a start URL with no host: it enqueues nothing,
   * so the start URL alone is a closed site, and the crawl fetches at most
   * the start URL, exactly it when it runs out of work.
   */
  lemma HostlessStartFetchesItself(parser: Url -> ParseOutcome, uri: Url -> UriHost, startUrl: Url, dispatched: seq<Url>)
    requires uri(startUrl).NoHost?
    requires NoRepeats(dispatched) && Discovered(parser, uri, startUrl, dispatched)
    ensures ClosedSite(parser, uri, startUrl, {startUrl})
    ensures dispatched == [] || dispatched == [startUrl]
    ensures Exhausted(parser, uri, startUrl, dispatched) <==> dispatched == [startUrl]
  {
    forall u ensures Enqueued(parser, uri, startUrl, u) == {} {
    }
    forall i | 0 <= i < |dispatched| ensures dispatched[i] == startUrl {
    }
    NoRepeatsCount(dispatched);
    if |dispatched| > 0 {
      assert LinkSet(dispatched) == {startUrl};
      assert dispatched == [startUrl];
    }
  }

  /** A set of URLs holding the start URL and closed under following internal links. */
  ghost predicate ClosedSite(parser: Url -> ParseOutcome, uri: Url -> UriHost, startUrl: Url, site: set<Url>)
  {
    startUrl in site &&
    forall u, x :: u in site && x in Enqueued(parser, uri, startUrl, u) ==> x in site
  }

  /** Fetching a URL of a closed site keeps the frontier inside the site. */
  lemma StaysInSite(parser: Url -> ParseOutcome, uri: Url -> UriHost, startUrl: Url, site: set<Url>,
                    url: Url, rest: seq<Url>, added: seq<Url>)
    requires ClosedSite(parser, uri, startUrl, site)
    requires LinkSet([url] + rest) <= site
    requires LinkSet(added) == Enqueued(parser, uri, startUrl, url)
    ensures url in site && LinkSet(rest + added) <= site
  {
    assert url in LinkSet([url] + rest);
    forall x | x in LinkSet(rest + added) ensures x in site {
      if x in rest {
        assert x in LinkSet([url] + rest);
      } else {
        assert x in Enqueued(parser, uri, startUrl, url);
      }
    }
  }

  /** Marking one more URL of the site visited leaves fewer unvisited ones. */
  lemma FewerUnvisited(site: set<Url>, visited: set<Url>, url: Url)
    requires url in site && url !in visited
    ensures |site - (visited + {url})| < |site - visited|
  {
    assert site - (visited + {url}) == (site - visited) - {url};
  }

  lemma SplitAt(urls: seq<Url>, n: nat)
    requires n <= |urls|
    ensures urls == urls[..n] + urls[n..]
  {
  }

  /** A log without repetition names as many URLs as it has entries. */
  lemma {:induction false} NoRepeatsCount(urls: seq<Url>)
    requires NoRepeats(urls)
    ensures |LinkSet(urls)| == |urls|
    decreases |urls|
  {
    if urls != [] {
      var n := |urls| - 1;
      var front := urls[..n];
      assert urls == front + [urls[n]];
      assert urls[n] !in front by {
        forall i | 0 <= i < n ensures front[i] != urls[n] {
          assert front[i] == urls[i];
        }
      }
      NoRepeatsCount(front);
      LinkSetAppend(front, urls[n]);
    }
  }

  lemma LinkSetAppend(urls: seq<Url>, url: Url)
    ensures LinkSet(urls + [url]) == LinkSet(urls) + {url}
  {
  }

  /**
   * The state of crawl's loop: the dispatch log `dispatched`, the visited
   * set, the frontier, the result map, the page counter and the limit flag.
   */
  ghost predicate Searching(parser: Url -> ParseOutcome, uri: Url -> UriHost, startUrl: Url, pageLimit: int, site: set<Url>,
                            dispatched: seq<Url>, visited: set<Url>, frontier: seq<Url>,
                            pageLinks: map<Url, set<Url>>, pagesCrawled: int, limitReached: bool)
  {
    && Logged(parser, uri, startUrl, pageLimit, dispatched, visited, pageLinks, pagesCrawled)
    && (limitReached ==> pageLimit > 0 && |dispatched| == pageLimit)
    && AllReached(parser, uri, startUrl, dispatched, frontier)
    && (!limitReached ==> NothingLost(parser, uri, startUrl, dispatched, frontier))
    && (pageLimit < 0 ==> ClosedSite(parser, uri, startUrl, site) && LinkSet(frontier) <= site)
  }

  /** The part of the loop state that does not involve the frontier. */
  ghost predicate Logged(parser: Url -> ParseOutcome, uri: Url -> UriHost, startUrl: Url, pageLimit: int,
                         dispatched: seq<Url>, visited: set<Url>, pageLinks: map<Url, set<Url>>, pagesCrawled: int)
  {
    && (pageLimit > 0 ==> pagesCrawled == |dispatched| <= pageLimit)
    && (pageLimit < 0 ==> pagesCrawled == 0)
    && visited == LinkSet(dispatched)
    && NoRepeats(dispatched)
    && pageLinks == Recorded(parser, dispatched)
    && Discovered(parser, uri, startUrl, dispatched)
  }

  /** The loop starts with the start URL alone in the frontier. */
  lemma SearchStarts(parser: Url -> ParseOutcome, uri: Url -> UriHost, startUrl: Url, pageLimit: int, site: set<Url>)
    requires pageLimit != 0
    requires pageLimit < 0 ==> ClosedSite(parser, uri, startUrl, site)
    ensures Searching(parser, uri, startUrl, pageLimit, site, [], {}, [startUrl], map[], 0, false)
  {
    assert Reached(parser, uri, startUrl, [], [startUrl][0]);
  }

  /** A polled URL that was visited before is dropped. */
  lemma SearchSkips(parser: Url -> ParseOutcome, uri: Url -> UriHost, startUrl: Url, pageLimit: int, site: set<Url>,
                    dispatched: seq<Url>, visited: set<Url>, url: Url, rest: seq<Url>,
                    pageLinks: map<Url, set<Url>>, pagesCrawled: int)
    requires Searching(parser, uri, startUrl, pageLimit, site, dispatched, visited, [url] + rest, pageLinks, pagesCrawled, false)
    requires url in visited
    ensures Searching(parser, uri, startUrl, pageLimit, site, dispatched, visited, rest, pageLinks, pagesCrawled, false)
  {
    SkipVisited(parser, uri, startUrl, dispatched, url, rest);
    assert LinkSet(rest) <= LinkSet([url] + rest);
  }

  /** An unvisited URL polled at the limit sets the flag and is not fetched. */
  lemma SearchHitsLimit(parser: Url -> ParseOutcome, uri: Url -> UriHost, startUrl: Url, pageLimit: int, site: set<Url>,
                        dispatched: seq<Url>, visited: set<Url>, url: Url, rest: seq<Url>,
                        pageLinks: map<Url, set<Url>>, pagesCrawled: int)
    requires Searching(parser, uri, startUrl, pageLimit, site, dispatched, visited, [url] + rest, pageLinks, pagesCrawled, false)
    requires pageLimit > 0 && pagesCrawled >= pageLimit
    ensures Searching(parser, uri, startUrl, pageLimit, site, dispatched, visited, rest, pageLinks, pagesCrawled, true)
  {
    assert Logged(parser, uri, startUrl, pageLimit, dispatched, visited, pageLinks, pagesCrawled);
    AllReachedTail(parser, uri, startUrl, dispatched, url, rest);
    assert |dispatched| == pageLimit;
  }

  /**
   * An unvisited URL polled under the limit is fetched: it joins the log
   * and the visited set, the counter counts it under a positive limit, its
   * page is put in the result map if absent, and `added` (its filtered
   * links) joins the frontier. With no limit, fewer URLs of the site remain
   * unvisited.
   */
  lemma SearchDispatches(parser: Url -> ParseOutcome, uri: Url -> UriHost, startUrl: Url, pageLimit: int, site: set<Url>,
                         dispatched: seq<Url>, visited: set<Url>, url: Url, rest: seq<Url>, added: seq<Url>,
                         pageLinks: map<Url, set<Url>>, pagesCrawled: int)
    requires Searching(parser, uri, startUrl, pageLimit, site, dispatched, visited, [url] + rest, pageLinks, pagesCrawled, false)
    requires url !in visited && (pageLimit < 0 || pagesCrawled < pageLimit)
    requires LinkSet(added) == Enqueued(parser, uri, startUrl, url)
    ensures Searching(parser, uri, startUrl, pageLimit, site, dispatched + [url], visited + {url}, rest + added,
                      if parser(url).Returned?
                      then PutIfAbsent(pageLinks, parser(url).page.key, LinkSet(parser(url).page.links))
                      else pageLinks,
                      if pageLimit > 0 then pagesCrawled + 1 else pagesCrawled, false)
    ensures pageLimit < 0 ==> |site - (visited + {url})| < |site - visited|
  {
    DispatchUnvisited(parser, uri, startUrl, dispatched, url, rest, added);
    RecordedStep(parser, dispatched, url);
    LinkSetAppend(dispatched, url);
    if pageLimit < 0 {
      StaysInSite(parser, uri, startUrl, site, url, rest, added);
      FewerUnvisited(site, visited, url);
    }
  }

  /**
   * When the loop ends (the frontier is empty or the flag is set), the log
   * has no repetition, was discovered from the start URL, respects a
   * positive limit, and is exhausted unless the limit stopped it.
   */
  lemma SearchEnds(parser: Url -> ParseOutcome, uri: Url -> UriHost, startUrl: Url, pageLimit: int, site: set<Url>,
                   dispatched: seq<Url>, visited: set<Url>, frontier: seq<Url>,
                   pageLinks: map<Url, set<Url>>, pagesCrawled: int, limitReached: bool)
    requires Searching(parser, uri, startUrl, pageLimit, site, dispatched, visited, frontier, pageLinks, pagesCrawled, limitReached)
    requires frontier == [] || limitReached
    ensures NoRepeats(dispatched) && Discovered(parser, uri, startUrl, dispatched)
    ensures pageLinks == Recorded(parser, dispatched)
    ensures pageLimit > 0 ==> |dispatched| <= pageLimit
    ensures pageLimit < 0 || (0 < pageLimit && |dispatched| < pageLimit) ==> Exhausted(parser, uri, startUrl, dispatched)
  {
    if pageLimit < 0 || (0 < pageLimit && |dispatched| < pageLimit) {
      assert !limitReached && frontier == [];
      assert NothingLost(parser, uri, startUrl, dispatched, frontier);
      forall i, x | 0 <= i < |dispatched| && x in Enqueued(parser, uri, startUrl, dispatched[i])
        ensures x in dispatched
      {
        assert x in dispatched || x in frontier;
      }
    }
  }

  /** Domain containment: every fetched URL other than the start is on the start URL's host. */
  lemma DispatchedAreInternal(parser: Url -> ParseOutcome, uri: Url -> UriHost, startUrl: Url, dispatched: seq<Url>)
    requires Discovered(parser, uri, startUrl, dispatched)
    ensures forall i :: 0 <= i < |dispatched| ==> dispatched[i] == startUrl || SameHost(uri, startUrl, dispatched[i])
  {
    forall i | 0 <= i < |dispatched| && dispatched[i] != startUrl
      ensures SameHost(uri, startUrl, dispatched[i])
    {
      var j :| 0 <= j < i && dispatched[i] in Enqueued(parser, uri, startUrl, dispatched[j]);
      InternalLinksSound(uri, startUrl, parser(dispatched[j]).page.links, dispatched[i]);
    }
  }

  lemma {:induction false} DispatchedInSite(parser: Url -> ParseOutcome, uri: Url -> UriHost, startUrl: Url,
                                            dispatched: seq<Url>, site: set<Url>, i: nat)
    requires Discovered(parser, uri, startUrl, dispatched) && ClosedSite(parser, uri, startUrl, site)
    requires i < |dispatched|
    ensures dispatched[i] in site
    decreases i
  {
    if dispatched[i] != startUrl {
      var j :| 0 <= j < i && dispatched[i] in Enqueued(parser, uri, startUrl, dispatched[j]);
      DispatchedInSite(parser, uri, startUrl, dispatched, site, j);
    }
  }

  /**
   * A crawl that ran out of work fetched exactly the least closed site: the
   * fetched URLs form a closed site, and lie inside every closed site.
   */
  lemma ExhaustedCrawlIsLeastClosedSite(parser: Url -> ParseOutcome, uri: Url -> UriHost, startUrl: Url, dispatched: seq<Url>)
    requires Discovered(parser, uri, startUrl, dispatched) && Exhausted(parser, uri, startUrl, dispatched)
    ensures ClosedSite(parser, uri, startUrl, LinkSet(dispatched))
    ensures forall site :: ClosedSite(parser, uri, startUrl, site) ==> LinkSet(dispatched) <= site
  {
    forall u, x | u in LinkSet(dispatched) && x in Enqueued(parser, uri, startUrl, u)
      ensures x in LinkSet(dispatched)
    {
      var i :| 0 <= i < |dispatched| && dispatched[i] == u;
    }
    forall site | ClosedSite(parser, uri, startUrl, site)
      ensures LinkSet(dispatched) <= site
    {
      forall i | 0 <= i < |dispatched| ensures dispatched[i] in site {
        DispatchedInSite(parser, uri, startUrl, dispatched, site, i);
      }
    }
  }
}
