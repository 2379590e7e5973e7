/**
 * The Parser interface: fetch a page and return it paired with the
 * absolute links found on it.
 */
module Parser {
  import opened Uri

  /**
   * The pair returned by Parser.parse: a key URL and the page's link set.
   * The set is given as a sequence, in the set's iteration order.
   */
  datatype Page = Page(key: Url, links: seq<Url>)

  /**
   * How a call of Parser.parse ends. It returns a page or null, or throws
   * an Exception (such as an IOException), or throws an Error (a Throwable
   * that is not an Exception).
   */
  datatype ParseOutcome = Returned(page: Page) | ReturnedNull | ThrewException | ThrewError

  /** The set of links of a page, as the crawler stores it in its result map. */
  function LinkSet(links: seq<Url>): (s: set<Url>)
    ensures forall x :: x in s <==> x in links
  {
    set x | x in links
  }
}
