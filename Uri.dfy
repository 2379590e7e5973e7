/**
 * URLs and the part of java.net.URI the crawler relies on: extracting the
 * host of a URL, and comparing hosts with String.equalsIgnoreCase.
 */
module Uri {

  /** A URL is an opaque string key. */
  type Url = string

  /**
   * What `new URI(s).getHost()` gives for a string `s`: the constructor
   * throws URISyntaxException (Malformed), or the parsed URI has no host
   * component and getHost() returns null (NoHost), or it has one.
   * `uri.toString()` of a URI built from a string is that string, so the
   * URL itself stands for the parsed URI.
   */
  datatype UriHost = Malformed | NoHost | Host(name: string)

  /** ASCII case folding to lower case. */
  function ToLowerAscii(c: char): (r: char)
    ensures 'A' <= c <= 'Z' ==> 'a' <= r <= 'z' && r as int - c as int == 32
    ensures !('A' <= c <= 'Z') ==> r == c
  {
    if 'A' <= c <= 'Z' then (c as int + 32) as char else c
  }

  /** String.equalsIgnoreCase restricted to ASCII case folding. */
  predicate EqualsIgnoreCase(a: string, b: string)
  {
    |a| == |b| && forall i :: 0 <= i < |a| ==> ToLowerAscii(a[i]) == ToLowerAscii(b[i])
  }

  /** Folding identifies exactly an upper-case letter with its lower-case one. */
  lemma FoldedEqual(c: char, d: char)
    ensures ToLowerAscii(c) == ToLowerAscii(d) <==>
            c == d || ('A' <= c <= 'Z' && d as int == c as int + 32)
                   || ('A' <= d <= 'Z' && c as int == d as int + 32)
  {
  }

  /** equalsIgnoreCase is an equivalence relation. */
  lemma EqualsIgnoreCaseIsEquivalence(a: string, b: string, c: string)
    ensures EqualsIgnoreCase(a, a)
    ensures EqualsIgnoreCase(a, b) ==> EqualsIgnoreCase(b, a)
    ensures EqualsIgnoreCase(a, b) && EqualsIgnoreCase(b, c) ==> EqualsIgnoreCase(a, c)
  {
  }

  /** Strings of different lengths never match: a subdomain is another host. */
  lemma SubdomainIsAnotherHost(sub: string, host: string)
    requires |sub| > 0
    ensures !EqualsIgnoreCase(sub + "." + host, host)
  {
  }

  /** Case is ignored, and only case. */
  lemma EqualsIgnoreCaseExamples()
    ensures EqualsIgnoreCase("WWW.A.com", "www.a.COM")
    ensures !EqualsIgnoreCase("www.a.com", "www.b.com")
  {
    assert ToLowerAscii("www.a.com"[4]) != ToLowerAscii("www.b.com"[4]);
  }
}
