# SimpleCrawler in Dafny

A model of SimpleCrawler, a Java web crawler, with proofs about the model.
Starting from a URL, the crawler fetches pages and follows only internal
links: links whose host equals the start URL's host, ignoring case. It
returns a map from each fetched page's URL to the set of links found on that
page. It may be given a limit on the number of pages it fetches.

The model covers three source files.

- `Crawler.java` is modelled by the class `Crawling.Crawler` (Crawler.dfy).
  - Its fields `visitedLinks` and `toVisit` are updated in place, as in the source.
  - `crawl` is a `while` loop over the frontier queue.
  - The completion callbacks `onSuccess` and `onFailure`, `cleanUp`, and the
    loop of `filterInternalLinks` are each a method.
  - The specification functions behind these methods are in `CrawlSpec`
    (CrawlSpec.dfy), with the lemmas about them:
    - `InternalLinks`: the filter.
    - `Enqueued`: the links a fetch appends to the frontier.
    - `Recorded`: the result map as a fold of `putIfAbsent` over the dispatch log.
    - `Searching`: the loop invariant of the worklist search.
- `HtmlParser.java` is modelled in HtmlParser.dfy.
  - `removeTrailingChars` is a function.
  - `parse` is a method with a `for` loop over the anchors of the page.
- `SimpleCrawler.java` is modelled in SimpleCrawler.dfy, for `getHumanRedableTime` only.
  - It is written with Java's truncating `/` and `%`.
  - The formatted string has a reader (`ParseDuration`), and the round trip is proved.

CrawlerTest.dfy replays the crawler's unit-test scenario:
- three pages of `www.a.com`;
- a mock parser;
- crawls with the limits 2, 3, 1 and -1.

It proves that the model returns the maps the tests expect.

Design of the model:

- **Threads.** Every fetch task completes synchronously when it is dispatched.
  - The task adds its URL to `visitedLinks`, calls the parser, and runs its callback at once.
  - So the in-flight task count is 0 at every loop head.
- **Parser.** The `Parser` given to the constructor is the function `parser: Url -> ParseOutcome`.
  - A `ParseOutcome` is one of: a returned page, a returned `null`, a thrown `Exception`, or a thrown `Error`.
  - An `Exception` is caught inside the task and reaches `onSuccess` as `null`.
  - An `Error` reaches `onFailure`.
- **URIs.** `java.net.URI` is the function `uri: Url -> UriHost`.
  - A `UriHost` is one of: malformed (`URISyntaxException`), no host, or a host name.
- **Dispatch log.** `Crawl` returns a ghost `dispatched`: the log of fetched URLs in dispatch order.
- **Link sets.** A page's link set is a sequence, in the set's iteration order. `HtmlParser.Parse` returns one without repetitions; the crawler's `parser` may repeat links, and `LinkSet` of the sequence is the set.
- **Normalisation.** Trailing marks are removed only in `HtmlParser.parse` (HtmlParser.java:41); `filterInternalLinks` does not normalise, since `uri.toString()` of a URI built from a string is that string.
- **Queue.** `toVisit.addAll` appends the filtered set in an arbitrary order (`:|`).

Where the Javadoc and the code differ, the model follows the code:

- **Page limit counts dispatches.** The Javadoc of `crawl` (Crawler.java:77)
  calls `pageLimit` the number of pages crawled successfully. The counter is
  incremented when a fetch is dispatched (Crawler.java:96-99), so a failed
  fetch uses up the limit as well. `Crawling.Crawler.Crawl` bounds the number
  of dispatches by the limit.

## Model

| member | source | states |
|---|---|---|
| Uri.EqualsIgnoreCase | src/main/java/com/scrawl/Crawler.java:169 | String.equalsIgnoreCase on host names; pinned down by FoldedEqual, EqualsIgnoreCaseIsEquivalence, SubdomainIsAnotherHost and EqualsIgnoreCaseExamples |
| Uri.ToLowerAscii | src/main/java/com/scrawl/Crawler.java:169 | case folding for equalsIgnoreCase: an upper-case ASCII letter maps to its lower-case letter, 32 code points up; every other character is unchanged |
| Uri.FoldedEqual | src/main/java/com/scrawl/Crawler.java:169 | two characters fold to the same character exactly when they are equal or are the two cases of one letter |
| Uri.EqualsIgnoreCaseIsEquivalence | src/main/java/com/scrawl/Crawler.java:169 | host comparison ignoring case is reflexive, symmetric and transitive |
| Uri.SubdomainIsAnotherHost | src/main/java/com/scrawl/Crawler.java:169 | a subdomain `sub.host` never matches `host`, so subdomains are not internal |
| Uri.EqualsIgnoreCaseExamples | src/main/java/com/scrawl/Crawler.java:169 | `WWW.A.com` matches `www.a.COM`; `www.a.com` does not match `www.b.com` |
| Parser.LinkSet | src/main/java/com/scrawl/Crawler.java:132 | the set a page's link sequence stands for: exactly its elements |
| HtmlParser.RemoveTrailingChars | src/main/java/com/scrawl/HtmlParser.java:46-52 | the result is a prefix of the link, at most one character shorter, and equals the link exactly when the link does not end in '/', '#' or '?' (so the empty string is unchanged) |
| HtmlParser.RemoveTrailingCharsIdempotentIff | src/main/java/com/scrawl/HtmlParser.java:47-48 | a second application changes nothing exactly when the link does not end with two marks: at most one character is stripped |
| HtmlParser.RemoveTrailingCharsStripsOne | src/main/java/com/scrawl/HtmlParser.java:47-48 | "x//" becomes "x/", and only a second call gives "x" |
| HtmlParser.RemoveTrailingCharsExamples | src/main/java/com/scrawl/HtmlParser.java:46-52 | "http://a.com/", "http://a.com#", "http://a.com?" and "http://a.com" all become "http://a.com"; "" stays "" |
| HtmlParser.Normalised | src/main/java/com/scrawl/HtmlParser.java:39-42 | an element is in the set exactly when it is removeTrailingChars of some href |
| HtmlParser.Parse | src/main/java/com/scrawl/HtmlParser.java:33-44 | a failed fetch throws and nothing else does; the key is the input URL unchanged; the links are exactly the normalised hrefs, without repetition, and no more of them than anchors |
| CrawlSpec.PutIfAbsent | src/main/java/com/scrawl/Crawler.java:132 | Map.putIfAbsent: the key is added, every existing entry keeps its value, and an absent key gets the new value |
| CrawlSpec.InternalLinks | src/main/java/com/scrawl/Crawler.java:161-177 | the specification of filterInternalLinks; pinned down by InternalLinksSound, InternalLinksExact and MalformedEndsFiltering, and computed by Crawling.Crawler.FilterInternalLinks |
| CrawlSpec.Enqueued | src/main/java/com/scrawl/Crawler.java:130-139 | the links one fetch appends to the frontier: the filtered links of a returned page with links, and none otherwise; what Crawling.Crawler.RunTask appends, and the step of Reached, DispatchedAreInternal and ClosedSite |
| CrawlSpec.Recorded | src/main/java/com/scrawl/Crawler.java:132 | the result map after the logged completions; pinned down by RecordedStep, RecordedKeys, RecordedNeverOverwritten, AllFailedRecordsNothing and RecordedPages |
| CrawlSpec.KeptSound | src/main/java/com/scrawl/Crawler.java:167-171 | every link the loop keeps is one of the input links, has a host, and that host equals the start host ignoring case |
| CrawlSpec.InternalLinksSound | src/main/java/com/scrawl/Crawler.java:161-177 | filterInternalLinks returns a subset of its input, and every kept link has the start URL's host ignoring case |
| CrawlSpec.KeptComplete | src/main/java/com/scrawl/Crawler.java:167-171 | when no link is malformed, every input link with the start host ignoring case is kept |
| CrawlSpec.InternalLinksExact | src/main/java/com/scrawl/Crawler.java:161-177 | when no link is malformed, a link is kept if and only if it is an input link with the start URL's host ignoring case |
| CrawlSpec.KeptStopsAtMalformed | src/main/java/com/scrawl/Crawler.java:164-175 | a malformed link ends the loop: nothing after it is kept, and what came before it is kept |
| CrawlSpec.MalformedEndsFiltering | src/main/java/com/scrawl/Crawler.java:164-175 | the same for filterInternalLinks as a whole, since the URISyntaxException is caught outside the loop |
| CrawlSpec.RecordedStep | src/main/java/com/scrawl/Crawler.java:130-139 | one more completed fetch puts its page into the result map if its key is absent, and a failed fetch leaves the map unchanged |
| CrawlSpec.RecordedKeys | src/main/java/com/scrawl/Crawler.java:130-132 | a key is in the result map exactly when some dispatched fetch returned a page with that key |
| CrawlSpec.RecordedNeverOverwritten | src/main/java/com/scrawl/Crawler.java:132 | an entry, once recorded, keeps its key and value through every later completion |
| CrawlSpec.AllFailedRecordsNothing | src/main/java/com/scrawl/Crawler.java:130-145 | if no fetch returns a page, the result map is empty |
| CrawlSpec.RecordedPages | src/main/java/com/scrawl/Crawler.java:130-132 | with distinct URLs and pages keyed by their URL, the map holds exactly the fetched URLs whose fetch returned a page, each with its link set |
| CrawlSpec.SkipVisited | src/main/java/com/scrawl/Crawler.java:92-95 | polling an already visited URL loses no discovered link |
| CrawlSpec.DispatchUnvisited | src/main/java/com/scrawl/Crawler.java:95-114 | dispatching an unvisited frontier URL keeps the log free of repeats, keeps every fetched URL reachable from the start URL, and loses no discovered link |
| CrawlSpec.StaysInSite | src/main/java/com/scrawl/Crawler.java:133-135 | in a closed site, the polled URL and the frontier it leaves stay inside the site |
| CrawlSpec.NoRepeatsCount | src/main/java/com/scrawl/Crawler.java:95-102 | a log without repeats has as many distinct URLs as entries |
| CrawlSpec.SearchStarts | src/main/java/com/scrawl/Crawler.java:84-90 | the crawl invariant holds after the start URL is queued, with nothing visited, fetched or recorded |
| CrawlSpec.SearchSkips | src/main/java/com/scrawl/Crawler.java:92-95 | skipping a visited URL preserves the crawl invariant |
| CrawlSpec.SearchHitsLimit | src/main/java/com/scrawl/Crawler.java:115-116 | an unvisited URL polled at the limit sets the flag, dispatches nothing more and preserves the invariant |
| CrawlSpec.SearchDispatches | src/main/java/com/scrawl/Crawler.java:96-114 | a dispatch below the limit preserves the invariant with the new log, visited set, frontier, map and counter; with no limit it shrinks the unvisited part of the site |
| CrawlSpec.SearchEnds | src/main/java/com/scrawl/Crawler.java:91-122 | when the loop exits, the result is the map recorded by the log; the log has no repeats and every entry was discovered; a positive limit bounds it; and unless the limit was hit, every discovered internal link was fetched |
| CrawlSpec.DispatchedAreInternal | src/main/java/com/scrawl/Crawler.java:133-135 | every fetched URL is the start URL or has its host: links are filtered against the start URL, not the page's own URL |
| CrawlSpec.DispatchedInSite | src/main/java/com/scrawl/Crawler.java:90-120 | every fetched URL lies in any closed site containing the start URL |
| CrawlSpec.ExhaustedCrawlIsLeastClosedSite | src/main/java/com/scrawl/Crawler.java:90-120 | an unlimited crawl fetches exactly the least closed site of the start URL: the fetched URLs are closed under internal links, and lie inside every closed site |
| Crawling.LoopGoesOn | src/main/java/com/scrawl/Crawler.java:91 | the loop condition; SearchEnds states what holds when it is false, and Crawling.Crawler.HostlessStartHangs shows a state in which it stays true |
| Crawling.Crawler.constructor | src/main/java/com/scrawl/Crawler.java:52-57 | a new crawler has empty visited and frontier sets, the given parser and 10 threads |
| Crawling.Crawler.WithThreads | src/main/java/com/scrawl/Crawler.java:65-70 | the same, with the given thread count |
| Crawling.Crawler.Poll | src/main/java/com/scrawl/Crawler.java:92 | Queue.poll: the head is removed and returned, and an empty queue gives null |
| Crawling.Crawler.AddAll | src/main/java/com/scrawl/Crawler.java:135 | Queue.addAll of a set: the queue keeps its contents and gains exactly the set's members, once each |
| Crawling.Crawler.FilterInternalLinks | src/main/java/com/scrawl/Crawler.java:161-177 | the loop computes the specification InternalLinks, including the cut at the first malformed link and the empty result for a malformed start URL; a host-less start URL gives no links, the corrected behaviour under Findings |
| Crawling.Crawler.OnSuccess | src/main/java/com/scrawl/Crawler.java:130-139 | a null result changes nothing; a page is put into the map if absent, and its non-empty links, filtered against the start URL, are appended to the queue, once each; the task count drops by one |
| Crawling.Crawler.OnFailure | src/main/java/com/scrawl/Crawler.java:141-145 | the task count drops by one and nothing else changes |
| Crawling.Crawler.RunTask | src/main/java/com/scrawl/Crawler.java:100-114 | the fetched URL is marked visited, the map gains the returned page if absent, the queue gains the enqueued links once each, and the task count is back where it was |
| Crawling.Crawler.CleanUp | src/main/java/com/scrawl/Crawler.java:149-159 | the visited set and the queue are empty afterwards, so a reused crawler starts fresh |
| Crawling.Crawler.Fetch | src/main/java/com/scrawl/Crawler.java:96-114 | fetching an unvisited URL below the limit keeps the search invariant with the URL appended to the log, leaves the task count where it was, and uses up one more URL of the positive limit or of the site |
| Crawling.Crawler.Visit | src/main/java/com/scrawl/Crawler.java:92-118 | one pass of the loop keeps the search invariant; from an empty frontier the poll gives null and nothing changes; from a non-empty one the pass makes progress: it sets the limit flag, uses up one more URL of the limit or the site, or shortens the frontier without fetching |
| Crawling.Crawler.Crawl | src/main/java/com/scrawl/Crawler.java:80-123 | a pool of no threads or a limit of 0 is an illegal argument, and nothing is fetched; otherwise the map is what the fetch log recorded; no URL is fetched twice; every fetch was reached by internal links; a positive limit bounds the fetches; unless stopped by the limit, every discovered internal link is fetched; the crawler is left idle |
| CrawlerTest.FixtureLinks | src/test/java/com/scrawl/CrawlerTest.java:25-29 | of the fixture's links, www.a.com's page enqueues all three pages and /b enqueues /b and /c; www.b.com is dropped as another host |
| CrawlerTest.FixtureSiteIsClosed | src/test/java/com/scrawl/CrawlerTest.java:21-33 | the three pages form a closed site |
| CrawlerTest.FixtureLog | src/test/java/com/scrawl/CrawlerTest.java:47-72 | every crawl of the fixture fetches only its pages, never www.b.com, and min(limit, 3) of them, all three with no limit |
| CrawlerTest.FixturePage | src/test/java/com/scrawl/CrawlerTest.java:31-40 | the mock returns each page under its own URL with the link set the tests expect |
| CrawlerTest.FixtureKeys | src/test/java/com/scrawl/CrawlerTest.java:54-58 | distinct fetched pages of the site are recorded under their URLs with the expected link sets |
| CrawlerTest.FixtureSize | src/test/java/com/scrawl/CrawlerTest.java:51-61 | the result has one entry per fetched page |
| CrawlerTest.FixtureComplete | src/test/java/com/scrawl/CrawlerTest.java:54-58 | once all three pages are fetched, the result is exactly the expected map |
| CrawlerTest.FixtureResult | src/test/java/com/scrawl/CrawlerTest.java:47-72 | the result of a crawl of the fixture has min(limit, 3) entries, and is the expected map for limit 3 or -1 |
| CrawlerTest.TestCrawl | src/test/java/com/scrawl/CrawlerTest.java:47-62 | one crawler with 5 threads, reused: limit 2 gives 2 entries, limit 3 gives the 3 expected entries, limit 1 gives 1 |
| Crawling.ScanAsWrittenAgrees | src/main/java/com/scrawl/Crawler.java:164-175 | the loop as written, scanned link by link: for an input URL with a host it keeps what the specification Kept keeps; for one without, it throws exactly when the first link parses (the null host reaches `equalsIgnoreCase` there), and otherwise gives nothing |
| Crawling.FilterAsWritten | src/main/java/com/scrawl/Crawler.java:161-177 | filterInternalLinks as written, derived from that scan: it throws a NullPointerException exactly when the input URL has no host, there is a link, and the first link parses; whenever it returns, it returns InternalLinks |
| Crawling.Crawler.OnSuccessAsWritten | src/main/java/com/scrawl/Crawler.java:130-139 | onSuccess as written: it throws exactly when a page with links comes back for a host-less start URL whose first link parses; then the page is recorded, nothing is queued and the task count is not decremented; otherwise it does what OnSuccess does |
| Crawling.Crawler.HostlessStartHangs | src/main/java/com/scrawl/Crawler.java:84-139 | as written, a crawl from a host-less start URL whose page has a well-formed first link: the first pass fetches it and the completion throws, leaving the frontier empty and one task counted; every later pass polls null and changes nothing, so after any number of passes the loop condition at Crawler.java:91 still holds |
| CrawlSpec.HostlessStartFetchesItself | src/main/java/com/scrawl/Crawler.java:90-120 | corrected: a host-less start URL enqueues nothing, so it alone is a closed site, and a crawl from it fetches at most that URL, exactly it when it runs out of work |
| CrawlerTest.TestHostlessStart | src/main/java/com/scrawl/Crawler.java:80-123 | corrected: an unlimited crawl from `file:///index.html` records its page and follows none of its links |
| CrawlerTest.TestCrawlDefaultThreads | src/test/java/com/scrawl/CrawlerTest.java:64-72 | with default threads and no limit, the result is the 3 expected entries |
| SimpleCrawler.TimeFields | src/main/java/com/scrawl/SimpleCrawler.java:31-35 | the four fields computed from the nanoseconds with truncating division; pinned down by FieldsInRange, NegatedFields, NegativeFields, FieldsAddUp and DayWraps |
| SimpleCrawler.HumanReadableTime | src/main/java/com/scrawl/SimpleCrawler.java:30-38 | getHumanRedableTime; pinned down by HumanReadableTimeReadsBack, PrintsNoMinus and the two example lemmas |
| SimpleCrawler.JavaDiv | src/main/java/com/scrawl/SimpleCrawler.java:31 | the quotient truncates toward zero: the remainder it leaves has the dividend's sign and is smaller than the divisor |
| SimpleCrawler.JavaRem | src/main/java/com/scrawl/SimpleCrawler.java:32-35 | the remainder is the dividend less the truncated quotient times the divisor, non-negative for a non-negative dividend and non-positive for a negative one |
| SimpleCrawler.Digits | src/main/java/com/scrawl/SimpleCrawler.java:37 | `%d` of a natural number is a non-empty string of decimal digits |
| SimpleCrawler.Decimal | src/main/java/com/scrawl/SimpleCrawler.java:37 | `%d` of an integer is non-empty and uses only digits and '-' |
| SimpleCrawler.ParseDigits | src/main/java/com/scrawl/SimpleCrawler.java:37 | the reader accepts exactly non-empty digit strings, and gives a non-negative value |
| SimpleCrawler.DigitsRoundTrip | src/main/java/com/scrawl/SimpleCrawler.java:37 | reading the printed digits gives back the number |
| SimpleCrawler.NoLeadingZero | src/main/java/com/scrawl/SimpleCrawler.java:37 | no zero padding: the printed number starts with '0' exactly when it is 0 |
| SimpleCrawler.DecimalRoundTrip | src/main/java/com/scrawl/SimpleCrawler.java:37 | reading a printed integer, sign included, gives back the integer |
| SimpleCrawler.SplitClock | src/main/java/com/scrawl/SimpleCrawler.java:37 | the "hour:min:sec" part splits at its colons into exactly the three printed fields |
| SimpleCrawler.SplitWords | src/main/java/com/scrawl/SimpleCrawler.java:37 | the output splits at its only space into the printed day and the clock |
| SimpleCrawler.FormatRoundTrip | src/main/java/com/scrawl/SimpleCrawler.java:37 | reading "day hour:min:sec" back gives the four fields |
| SimpleCrawler.FormatInjective | src/main/java/com/scrawl/SimpleCrawler.java:37 | different fields always print differently |
| SimpleCrawler.HumanReadableTimeReadsBack | src/main/java/com/scrawl/SimpleCrawler.java:30-38 | the output of getHumanRedableTime reads back as the fields computed from the nanoseconds |
| SimpleCrawler.FieldsInRange | src/main/java/com/scrawl/SimpleCrawler.java:32-35 | for a non-negative count, sec and min lie in [0,59], and hour and day in [0,23] |
| SimpleCrawler.PrintsNoMinus | src/main/java/com/scrawl/SimpleCrawler.java:30-38 | a non-negative count prints no minus sign |
| SimpleCrawler.JavaNegate | src/main/java/com/scrawl/SimpleCrawler.java:31-35 | truncating division and remainder change sign with the dividend |
| SimpleCrawler.NegatedFields | src/main/java/com/scrawl/SimpleCrawler.java:31-35 | negating the count negates each of the four fields |
| SimpleCrawler.NegativeFields | src/main/java/com/scrawl/SimpleCrawler.java:31-35 | for a negative count every field is zero or negative, and above minus its unit's range |
| SimpleCrawler.FieldsAddUp | src/main/java/com/scrawl/SimpleCrawler.java:31-35 | for a non-negative count, day*86400 + hour*3600 + min*60 + sec is the elapsed whole seconds modulo 24 days, and equals them below 24 days |
| SimpleCrawler.DayWraps | src/main/java/com/scrawl/SimpleCrawler.java:35 | the day field wraps every 24 days: adding 24 days to a non-negative count leaves every field unchanged |
| SimpleCrawler.HumanReadableTimeExamples | src/main/java/com/scrawl/SimpleCrawler.java:30-38 | 90061 s prints "1 1:1:1"; exactly 24 days prints "0 0:0:0" |
| SimpleCrawler.HumanReadableTimeTruncates | src/main/java/com/scrawl/SimpleCrawler.java:30-38 | 999999999 ns prints "0 0:0:0"; -61 s prints "0 0:-1:-1" |
| SimpleCrawler.UnwrappedFieldsAddUp | src/main/java/com/scrawl/SimpleCrawler.java:31-35 | with whole days, for every non-negative count the fields add up to the elapsed whole seconds, with hour, min and sec in range |
| SimpleCrawler.UnwrappedAgreesBelow24Days | src/main/java/com/scrawl/SimpleCrawler.java:31-35 | below 24 days the whole-day fields equal the source's fields |
| SimpleCrawler.TwentyFourDays | src/main/java/com/scrawl/SimpleCrawler.java:35 | at exactly 24 days the source's fields are all 0, while the whole-day fields show 24 days |

## Left out

- The thread pool, futures and callbacks wiring, `AtomicInteger`, `volatile` and the 5-second `awaitTermination` (Crawler.java:81-82,109-114,151-152) are concurrency. Each task completes synchronously at dispatch, so interleavings, the busy-waiting loop head and the unsynchronised `HashSet` of visited links are not modelled.
- Crawling.Crawler.Crawl: with a negative limit it requires a ghost finite `site` closed under internal links. The source needs such a site to return at all, and the model needs it to prove termination. A site with infinitely many internal pages is not modelled.
- Crawling.Crawler.FilterInternalLinks: for a host-less input URL it gives no links, the corrected behaviour; the source throws a NullPointerException (Crawler.java:169), modelled by `Crawling.FilterAsWritten` and listed under Findings.
- Crawling.Crawler.OnSuccess: for a start URL with no host whose page's first link parses, the source's onSuccess throws a NullPointerException before the decrement at Crawler.java:138; the model follows the corrected behaviour and decrements. The as-written step is `Crawling.Crawler.OnSuccessAsWritten`.
- Crawling.Crawler.RunTask: on the same input the source leaves the task count one higher; the model restores it, following the corrected onSuccess.
- Crawling.Crawler.Fetch: on the same input the source leaves the task count one higher; the model restores it, following the corrected onSuccess.
- Crawling.Crawler.Visit: on the same input the source leaves the task count one higher after the pass that fetches the start URL; the model restores it, following the corrected onSuccess.
- Crawling.Crawler.Crawl: on the same input the loop at Crawler.java:91 never exits in the source, as `Crawling.Crawler.HostlessStartHangs` shows; the model follows the corrected behaviour and returns the start URL's page.
- Crawling.Crawler.CleanUp: an InterruptedException from `awaitTermination` (Crawler.java:156-158) skips the shutdown and the clears and leaves a crawler that is not idle. Interruption comes from another thread and is not modelled, so the model always clears.
- The iteration order of `HashSet`s is not modelled. A link set is a sequence in some order, and `addAll` appends in an arbitrary order.
- The Jsoup fetch and the `a[href]` selection (HtmlParser.java:35-36) are I/O and a foreign library. They are the parameter `jsoup` of `HtmlParser.Parse`: the absolute hrefs of the page, or none for the IOException.
- `java.net.URI` (Crawler.java:165-168) is a foreign library. It is the constructor parameter `uri`. `uri.toString()` of a URI built from a string is that string.
- Uri.ToLowerAscii: `equalsIgnoreCase` folds case over all of Unicode; the model folds ASCII letters only.
- Logging calls are left out.
- `SimpleCrawler.main` is left out: console output and `System.nanoTime`.
- Parser.java is an interface with no logic. Its `parse` signature is the `parser` function.
- The Mockito fixtures are modelled as the functions `MockParser` and `TestUri`. An unstubbed URL gets `null` from the mock, as Mockito returns it.
- SimpleCrawler.Decimal: `String.format` uses the default locale; the model writes the digits '0' to '9', as a locale whose zero digit is '0' does.
- SimpleCrawler.HumanReadableTime: `nanos` is a boxed `Long`, and a null argument is not modelled. No 64-bit overflow can occur, because every operation is a division or remainder by a positive constant, so the arithmetic is on unbounded integers.

## Findings

| source | as written | input that shows it | evidently intended | confidence | as-written member | corrected member |
|---|---|---|---|---|---|---|
| src/main/java/com/scrawl/Crawler.java:130-169 | for a start URL with no host, `inputDomain` is null and `equalsIgnoreCase` throws a NullPointerException inside onSuccess, before `taskCount` is decremented; Guava's listener dispatch logs the exception and drops it, `directExecutor` only running the callback, so the loop at Crawler.java:91 never exits | the start URL `file:///index.html` whose page has one link `http://www.a.com/b` | a host-less start URL has no internal links: the page is recorded and the crawl returns | medium, not executed | Crawling.Crawler.HostlessStartHangs | CrawlSpec.HostlessStartFetchesItself |
| src/main/java/com/scrawl/SimpleCrawler.java:35 | the day field is the whole days modulo 24, copied from the hour line | a duration of exactly 24 days (2073600000000000 ns) prints "0 0:0:0" | the whole number of days, so that the fields add up to the elapsed time | medium, not executed | SimpleCrawler.TwentyFourDays | SimpleCrawler.UnwrappedFieldsAddUp |

`SimpleCrawler.HumanReadableTime` models the code as written, with the day
field taken modulo 24. `SimpleCrawler.UnwrappedFields` is the corrected field
computation, and `SimpleCrawler.UnwrappedAgreesBelow24Days` proves it agrees
with the source below 24 days.

`Crawling.Crawler.FilterInternalLinks`, and with it `Crawling.Crawler.Crawl`,
follows the corrected behaviour for a start URL with no host:
`CrawlerTest.TestHostlessStart` shows such a crawl returning its one page.
