/**
 * HtmlParser: the Parser that fetches a page, selects its anchors and
 * collects their absolute hrefs, each with one trailing '/', '#' or '?'
 * removed.
 */
module HtmlParser {
  import opened Wrappers
  import opened Uri
  import opened Parser

  /** The characters removeTrailingChars strips. */
  predicate IsTrailingMark(c: char)
  {
    c == '/' || c == '#' || c == '?'
  }

  predicate EndsWithMark(s: string)
  {
    |s| > 0 && IsTrailingMark(s[|s| - 1])
  }

  /**
   * removeTrailingChars: drops the last character of a link that ends with
   * '/', '#' or '?'. The result is the link or the link less one character,
   * and it is the link itself exactly when the link ends with none of them.
   */
  function RemoveTrailingChars(link: string): (r: string)
    ensures r <= link
    ensures |link| - 1 <= |r| <= |link|
    ensures r == link <==> !EndsWithMark(link)
  {
    if EndsWithMark(link) then link[..|link| - 1] else link
  }

  /**
   * Stripping twice changes nothing more exactly when the link does not end
   * with two marks: at most one character is ever stripped.
   */
  lemma RemoveTrailingCharsIdempotentIff(link: string)
    ensures RemoveTrailingChars(RemoveTrailingChars(link)) == RemoveTrailingChars(link)
            <==> !(|link| >= 2 && IsTrailingMark(link[|link| - 1]) && IsTrailingMark(link[|link| - 2]))
  {
    if |link| >= 2 && IsTrailingMark(link[|link| - 1]) && IsTrailingMark(link[|link| - 2]) {
      var once := RemoveTrailingChars(link);
      assert once == link[..|link| - 1];
      assert EndsWithMark(once);
    }
  }

  /** "x//" becomes "x/", not "x". */
  lemma RemoveTrailingCharsStripsOne()
    ensures RemoveTrailingChars("x//") == "x/"
    ensures RemoveTrailingChars(RemoveTrailingChars("x//")) == "x"
  {
    assert EndsWithMark("x//");
    assert "x//"[..2] == "x/";
    assert EndsWithMark("x/");
    assert "x/"[..1] == "x";
  }

  /** The four spellings of the same address normalise to one. */
  lemma RemoveTrailingCharsExamples()
    ensures RemoveTrailingChars("http://a.com/") == "http://a.com"
    ensures RemoveTrailingChars("http://a.com#") == "http://a.com"
    ensures RemoveTrailingChars("http://a.com?") == "http://a.com"
    ensures RemoveTrailingChars("http://a.com") == "http://a.com"
    ensures RemoveTrailingChars("") == ""
  {
    assert "http://a.com/"[..12] == "http://a.com";
    assert "http://a.com#"[..12] == "http://a.com";
    assert "http://a.com?"[..12] == "http://a.com";
  }

  /** The normalised forms of a sequence of hrefs. */
  function Normalised(hrefs: seq<string>): (s: set<Url>)
    ensures forall x :: x in s <==> exists h :: h in hrefs && x == RemoveTrailingChars(h)
  {
    set h | h in hrefs :: RemoveTrailingChars(h)
  }

  /**
   * parse: `jsoup(url)` stands for fetching the page and reading the
   * "abs:href" attribute of every `a[href]` element, in document order;
   * None stands for the IOException the fetch throws. The loop adds each
   * normalised href to a HashSet, which the result enumerates without
   * repetition.
   */
  method Parse(url: Url, jsoup: Url -> Option<seq<string>>) returns (r: ParseOutcome)
    ensures jsoup(url).None? <==> r == ThrewException
    ensures jsoup(url).Some? ==> r.Returned? && r.page.key == url
    ensures r.Returned? ==> LinkSet(r.page.links) == Normalised(jsoup(url).value)
    ensures r.Returned? ==> |r.page.links| <= |jsoup(url).value|
    ensures r.Returned? ==> forall i, j :: 0 <= i < j < |r.page.links| ==> r.page.links[i] != r.page.links[j]
  {
    var fetched := jsoup(url);
    if fetched.None? {
      return ThrewException;
    }
    var anchors := fetched.value;
    var pageLinks: seq<Url> := [];
    for k := 0 to |anchors|
      invariant LinkSet(pageLinks) == Normalised(anchors[..k])
      invariant |pageLinks| <= k
      invariant forall i, j :: 0 <= i < j < |pageLinks| ==> pageLinks[i] != pageLinks[j]
    {
      var link := anchors[k];
      assert anchors[..k + 1] == anchors[..k] + [link];
      var normal := RemoveTrailingChars(link);
      if normal !in pageLinks {
        pageLinks := pageLinks + [normal];
      }
    }
    assert anchors[..|anchors|] == anchors;
    return Returned(Page(url, pageLinks));
  }
}
