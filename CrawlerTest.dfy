/**
 * The crawler's unit-test scenario: three pages of www.a.com, a mock
 * parser, and crawls with the limits -1, 3, 2 and 1.
 */
module CrawlerTest {
  import opened Wrappers
  import opened Uri
  import opened Parser
  import opened CrawlSpec
  import opened Crawling

  const Url1: Url := "http://www.a.com"
  const Url2: Url := "http://www.a.com/b"
  const Url3: Url := "http://www.a.com/c"
  const UrlB: Url := "http://www.b.com"

  const Links1: seq<Url> := [Url1, Url2, Url3]
  const Links2: seq<Url> := [Url2, Url3, UrlB]
  const Links3: seq<Url> := []

  /** The mock parser: three stubbed pages; any other URL gets null. */
  function MockParser(url: Url): ParseOutcome
  {
    if url == Url1 then Returned(Page(Url1, Links1))
    else if url == Url2 then Returned(Page(Url2, Links2))
    else if url == Url3 then Returned(Page(Url3, Links3))
    else ReturnedNull
  }

  /** Hosts of the fixture's URLs; no other URL occurs in the scenario. */
  function TestUri(url: Url): UriHost
  {
    if url == Url1 || url == Url2 || url == Url3 then Host("www.a.com")
    else if url == UrlB then Host("www.b.com")
    else Malformed
  }

  /** The three pages of www.a.com. */
  const Site: set<Url> := {Url1, Url2, Url3}

  /** The map the test expects for an unrestricted crawl. */
  const Expected: map<Url, set<Url>> := map[Url1 := {Url1, Url2, Url3}, Url2 := {Url2, Url3, UrlB}, Url3 := {}]

  lemma Distinct()
    ensures Url1 != Url2 && Url1 != Url3 && Url2 != Url3
    ensures UrlB != Url1 && UrlB != Url2 && UrlB != Url3
  {
    assert Url2[17] != Url3[17];
    assert Url1[11] != UrlB[11];
  }

  /**
   * The links each page appends to the frontier: www.b.com is dropped as
   * another host.
   */
  lemma FixtureLinks(url: Url)
    ensures Enqueued(MockParser, TestUri, Url1, url) ==
            if url == Url1 then Site else if url == Url2 then {Url2, Url3} else {}
  {
    Distinct();
    EqualsIgnoreCaseIsEquivalence("www.a.com", "www.a.com", "www.a.com");
    EqualsIgnoreCaseExamples();
    assert Kept(TestUri, "www.a.com", []) == {};
    assert Kept(TestUri, "www.a.com", [UrlB]) == {} by {
      assert [UrlB][1..] == [];
    }
    assert Kept(TestUri, "www.a.com", [Url3]) == {Url3} by {
      assert [Url3][1..] == [];
    }
    assert Kept(TestUri, "www.a.com", [Url3, UrlB]) == {Url3} by {
      assert [Url3, UrlB][1..] == [UrlB];
    }
    assert Kept(TestUri, "www.a.com", [Url2, Url3]) == {Url2, Url3} by {
      assert [Url2, Url3][1..] == [Url3];
    }
    if url == Url1 {
      assert Links1[1..] == [Url2, Url3];
      assert Kept(TestUri, "www.a.com", Links1) == Site;
    } else if url == Url2 {
      assert Links2[1..] == [Url3, UrlB];
      assert Kept(TestUri, "www.a.com", Links2) == {Url2, Url3};
    }
  }

  lemma SubsetSize(a: set<Url>, b: set<Url>)
    requires a <= b
    ensures |a| <= |b|
    ensures |a| == |b| ==> a == b
  {
    assert b == a + (b - a);
    if |a| == |b| {
      assert |b - a| == 0;
    }
  }

  /** The three pages form a closed site. */
  lemma FixtureSiteIsClosed()
    ensures ClosedSite(MockParser, TestUri, Url1, Site)
  {
    forall u, x | u in Site && x in Enqueued(MockParser, TestUri, Url1, u) ensures x in Site {
      FixtureLinks(u);
    }
  }

  /** What crawl promises about its dispatch log, for the fixture. */
  ghost predicate CrawlLog(pageLimit: int, dispatched: seq<Url>)
  {
    && NoRepeats(dispatched)
    && Discovered(MockParser, TestUri, Url1, dispatched)
    && (pageLimit > 0 ==> |dispatched| <= pageLimit)
    && (pageLimit < 0 || (0 < pageLimit && |dispatched| < pageLimit) ==> Exhausted(MockParser, TestUri, Url1, dispatched))
  }

  /**
   * Any crawl of the fixture fetches only its three pages, never
   * www.b.com, and fetches min(limit, 3) of them (all three with no limit).
   */
  lemma FixtureLog(pageLimit: int, dispatched: seq<Url>)
    requires pageLimit != 0 && CrawlLog(pageLimit, dispatched)
    ensures LinkSet(dispatched) <= Site && UrlB !in dispatched
    ensures |dispatched| == if 0 < pageLimit < 3 then pageLimit else 3
    ensures |dispatched| == 3 ==> LinkSet(dispatched) == Site
  {
    Distinct();
    FixtureInSite(dispatched);
    NoRepeatsCount(dispatched);
    assert |Site| == 3;
    SubsetSize(LinkSet(dispatched), Site);
    if pageLimit < 0 || (0 < pageLimit && |dispatched| < pageLimit) {
      FixtureExhausted(dispatched);
    }
  }

  /** A crawl from www.a.com fetches only pages of the fixture's site. */
  lemma FixtureInSite(dispatched: seq<Url>)
    requires Discovered(MockParser, TestUri, Url1, dispatched)
    ensures LinkSet(dispatched) <= Site
  {
    FixtureSiteIsClosed();
    forall i | 0 <= i < |dispatched| ensures dispatched[i] in Site {
      DispatchedInSite(MockParser, TestUri, Url1, dispatched, Site, i);
    }
  }

  /** A crawl of the fixture that is not cut short fetches the whole site. */
  lemma FixtureExhausted(dispatched: seq<Url>)
    requires Exhausted(MockParser, TestUri, Url1, dispatched) && LinkSet(dispatched) <= Site
    ensures LinkSet(dispatched) == Site
  {
    FixtureLinks(Url1);
    var i :| 0 <= i < |dispatched| && dispatched[i] == Url1;
    assert Site <= LinkSet(dispatched);
  }

  /** The mock parser returns each page of the site under its own URL, with the links the test expects. */
  lemma FixturePage(u: Url)
    requires u in Site
    ensures MockParser(u).Returned? && MockParser(u).page.key == u
    ensures u in Expected && LinkSet(MockParser(u).page.links) == Expected[u]
  {
    Distinct();
    assert LinkSet(Links1) == {Url1, Url2, Url3};
    assert LinkSet(Links2) == {Url2, Url3, UrlB};
    assert LinkSet(Links3) == {};
  }

  /** A log of distinct pages of the site records each of them with the links the test expects. */
  lemma FixtureKeys(dispatched: seq<Url>)
    requires NoRepeats(dispatched) && LinkSet(dispatched) <= Site
    ensures Recorded(MockParser, dispatched).Keys == LinkSet(dispatched)
    ensures forall u :: u in Recorded(MockParser, dispatched) ==> u in Expected && Recorded(MockParser, dispatched)[u] == Expected[u]
  {
    var m := Recorded(MockParser, dispatched);
    assert KeysAreUrls(MockParser, dispatched) by {
      forall i | 0 <= i < |dispatched| && MockParser(dispatched[i]).Returned? ensures MockParser(dispatched[i]).page.key == dispatched[i] {
        assert dispatched[i] in LinkSet(dispatched);
        FixturePage(dispatched[i]);
      }
    }
    forall u ensures (u in m <==> u in LinkSet(dispatched)) && (u in m ==> u in Expected && m[u] == Expected[u]) {
      RecordedPages(MockParser, dispatched, u);
      if u in LinkSet(dispatched) {
        FixturePage(u);
      }
    }
  }

  lemma SameMap(m: map<Url, set<Url>>, e: map<Url, set<Url>>)
    requires m.Keys == e.Keys && forall u :: u in m ==> m[u] == e[u]
    ensures m == e
  {
  }

  /** One map entry per distinct fetched page. */
  lemma FixtureSize(dispatched: seq<Url>)
    requires NoRepeats(dispatched) && LinkSet(dispatched) <= Site
    ensures |Recorded(MockParser, dispatched)| == |dispatched|
  {
    var m := Recorded(MockParser, dispatched);
    FixtureKeys(dispatched);
    assert |m| == |LinkSet(dispatched)| by {
      assert |m| == |m.Keys|;
    }
    NoRepeatsCount(dispatched);
  }

  /** Once the whole site is fetched, the map is the one the test expects. */
  lemma FixtureComplete(dispatched: seq<Url>)
    requires NoRepeats(dispatched) && LinkSet(dispatched) == Site
    ensures Recorded(MockParser, dispatched) == Expected
  {
    FixtureKeys(dispatched);
    SameMap(Recorded(MockParser, dispatched), Expected);
  }

  /** The result map of a crawl of the fixture: one entry per fetched page, with its links. */
  lemma FixtureResult(pageLimit: int, dispatched: seq<Url>)
    requires pageLimit != 0 && CrawlLog(pageLimit, dispatched)
    ensures |Recorded(MockParser, dispatched)| == if 0 < pageLimit < 3 then pageLimit else 3
    ensures pageLimit < 0 || pageLimit >= 3 ==> Recorded(MockParser, dispatched) == Expected
  {
    FixtureLog(pageLimit, dispatched);
    FixtureSize(dispatched);
    if pageLimit < 0 || pageLimit >= 3 {
      FixtureComplete(dispatched);
    }
  }

  /**
   * testCrawl: one crawler with five threads, crawling with the limits 2,
   * 3 and 1 in turn.
   */
  method TestCrawl() returns (result2: map<Url, set<Url>>, result1: map<Url, set<Url>>, result3: map<Url, set<Url>>)
    ensures |result2| == 2
    ensures |result1| == 3 && result1 == Expected
    ensures |result3| == 1
  {
    var crawler := new Crawler.WithThreads(MockParser, TestUri, 5);
    assert TestUri(Url1) == Host("www.a.com");

    var r2, d2 := crawler.Crawl(Url1, 2, {});
    FixtureResult(2, d2);
    result2 := r2.value;

    var r1, d1 := crawler.Crawl(Url1, 3, {});
    FixtureResult(3, d1);
    result1 := r1.value;

    var r3, d3 := crawler.Crawl(Url1, 1, {});
    FixtureResult(1, d3);
    result3 := r3.value;
  }

  /** A start URL with no host, whose page links to a page of www.a.com. */
  const FileUrl: Url := "file:///index.html"

  function FileParser(url: Url): ParseOutcome
  {
    if url == FileUrl then Returned(Page(FileUrl, [Url2])) else ReturnedNull
  }

  function FileUri(url: Url): UriHost
  {
    if url == FileUrl then NoHost else TestUri(url)
  }

  /**
   * A crawl from a host-less start URL, with no limit: the page is recorded
   * and none of its links is followed, where the source never returns.
   */
  method TestHostlessStart() returns (result: map<Url, set<Url>>)
    ensures result == map[FileUrl := {Url2}]
  {
    var crawler := new Crawler(FileParser, FileUri);
    HostlessStartFetchesItself(FileParser, FileUri, FileUrl, []);
    var r, d := crawler.Crawl(FileUrl, -1, {FileUrl});
    HostlessStartFetchesItself(FileParser, FileUri, FileUrl, d);
    assert d == [FileUrl];
    assert d[..0] == [];
    assert LinkSet([Url2]) == {Url2};
    result := r.value;
  }

  /** testCrawlDefaultThreads: no limit. */
  method TestCrawlDefaultThreads() returns (result1: map<Url, set<Url>>)
    ensures result1 == Expected
  {
    var crawler := new Crawler(MockParser, TestUri);
    assert TestUri(Url1) == Host("www.a.com");
    FixtureSiteIsClosed();
    var r1, d1 := crawler.Crawl(Url1, -1, Site);
    FixtureResult(-1, d1);
    result1 := r1.value;
  }
}
