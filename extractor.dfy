/**
 * `scrape_medium_article` (medium_scraper.py): from what the HTTP client and
 * the HTML queries return for one URL to an article record, or to no record.
 */
module Extractor {
  import opened Wrappers
  import opened PyText

  /**
   * What the HTML queries return for one page: the text of the first <h1>
   * and of the first <h2> (None when the page has none), the texts of the
   * tag divs in document order, the number of <img> elements, and the text
   * of the read-time span (None when the page has none).
   */
  datatype Page = Page(h1: Option<string>, h2: Option<string>, tagDivs: seq<string>,
                       imageCount: nat, readTime: Option<string>)

  /** What `requests.get` gives: a transport fault (it raises) or a reply with a status code. */
  datatype Response = TransportFault | Reply(status: int, page: Page)

  /** The network as the scraper sees it: the reply each reachable URL gives. */
  type Web = map<string, Response>

  type Bit = b: int | 0 <= b <= 1

  /** The dictionary `scrape_medium_article` returns, with its seven keys. */
  datatype ArticleRecord = ArticleRecord(
    title: Option<string>,
    subtitle: Option<string>,
    tags: seq<string>,
    titleCharacter: nat,
    imageCount: nat,
    duration: nat,
    success: Bit)

  /** Python truthiness of `None` or a string: a string is true when it is not empty. */
  predicate Truthy(s: Option<string>) {
    s.Some? && s.value != []
  }

  /** `x.text.strip() if x else None`. */
  function StripOpt(s: Option<string>): Option<string> {
    match s
    case None => None
    case Some(t) => Some(Strip(t))
  }

  /**
   * The read time in minutes: `int` of the first run of digits in the span's
   * text, and 0 when there is no span or the text has no digit.
   */
  function ReadTimeMinutes(span: Option<string>): (n: nat)
    ensures span.None? ==> n == 0
    ensures span.Some? && (forall k :: 0 <= k < |span.value| ==> !IsDigit(span.value[k])) ==> n == 0
  {
    match span
    case None => 0
    case Some(text) =>
      match SearchDigits(text)
      case None => 0
      case Some(m) => DigitsValue(text[m.start..m.end])
  }

  /** The record a page with status 200 yields. */
  function Extract(p: Page): (r: ArticleRecord)
    ensures r.title.Some? <==> p.h1.Some?
    ensures r.subtitle.Some? <==> p.h2.Some?
    ensures p.h1.Some? ==> r.title.value == Strip(p.h1.value)
    ensures p.h2.Some? ==> r.subtitle.value == Strip(p.h2.value)
    ensures |r.tags| == |p.tagDivs|
    ensures forall i :: 0 <= i < |p.tagDivs| ==> r.tags[i] == Strip(p.tagDivs[i])
    ensures r.titleCharacter == if p.h1.Some? then |Strip(p.h1.value)| else 0
    ensures r.imageCount == p.imageCount
    ensures r.duration == ReadTimeMinutes(p.readTime)
    ensures r.success == 1 <==> Truthy(r.title) && Truthy(r.subtitle) && r.duration > 0
  {
    var title := StripOpt(p.h1);
    var subtitle := StripOpt(p.h2);
    var duration := ReadTimeMinutes(p.readTime);
    ArticleRecord(
      title,
      subtitle,
      StripAll(p.tagDivs),
      if Truthy(title) then |title.value| else 0,
      p.imageCount,
      duration,
      if Truthy(title) && Truthy(subtitle) && duration > 0 then 1 else 0)
  }

  /**
   * Whether `requests.get` reaches the network at all: the URL begins, in
   * any letter case, with "http://" or "https://". Any other URL (no scheme,
   * or another scheme) makes it raise before a request is sent.
   */
  predicate HasHttpScheme(url: string) {
    var u := Lower(url);
    (|u| >= 7 && u[..7] == "http://") || (|u| >= 8 && u[..8] == "https://")
  }

  /**
   * `requests.get(url)`: a reply only for a URL with an http(s) scheme that
   * the network answers, and then that URL's reply.
   */
  function Get(web: Web, url: string): (r: Response)
    ensures r.Reply? ==> HasHttpScheme(url) && url in web && r == web[url]
    ensures HasHttpScheme(url) && url in web ==> r == web[url]
  {
    if HasHttpScheme(url) && url in web then web[url] else TransportFault
  }

  /** `scrape_medium_article(url)`: a record exactly for a 200 reply. */
  function ScrapeMediumArticle(web: Web, url: string): (r: Option<ArticleRecord>)
    ensures r.Some? <==> Get(web, url).Reply? && Get(web, url).status == 200
    ensures r.Some? ==> r.value == Extract(Get(web, url).page)
  {
    match Get(web, url)
    case TransportFault => None
    case Reply(status, page) => if status != 200 then None else Some(Extract(page))
  }

  // ---------------------------------------------------------------------------
  // Properties

  /** A reply whose status is not 200 gives no record, whatever the page. */
  lemma NonOkStatusGivesNoRecord(web: Web, url: string, status: int, page: Page)
    requires url in web && web[url] == Reply(status, page) && status != 200
    ensures ScrapeMediumArticle(web, url) == None
  {
  }

  /** A line that is not an http(s) URL, such as a CSV header or a blank line, never gives a record. */
  lemma NoSchemeGivesNoRecord(web: Web, url: string)
    requires !HasHttpScheme(url)
    ensures ScrapeMediumArticle(web, url) == None
  {
  }

  /** The header word "link" and the empty line are not URLs requests accepts. */
  lemma HeaderAndBlankAreNotUrls()
    ensures !HasHttpScheme("link") && !HasHttpScheme("")
  {
    assert |Lower("link")| == 4;
  }

  /** The first maximal run of digits in the read-time text has a digit other than '0'. */
  predicate PositiveFirstRun(text: string) {
    match SearchDigits(text)
    case None => false
    case Some(m) => exists k :: m.start <= k < m.end && text[k] != '0'
  }

  /** A heading that is present and holds something other than whitespace. */
  predicate HasText(h: Option<string>) {
    h.Some? && !AllSpace(h.value)
  }

  /** The read time is positive exactly when its first run of digits is not all zeros. */
  lemma ReadTimePositiveIff(span: Option<string>)
    ensures ReadTimeMinutes(span) > 0 <==> span.Some? && PositiveFirstRun(span.value)
  {
    if span.Some? {
      var text := span.value;
      match SearchDigits(text)
      case None =>
      case Some(m) =>
        var d := text[m.start..m.end];
        DigitsValuePositive(d);
        if exists j :: 0 <= j < |d| && d[j] != '0' {
          var j :| 0 <= j < |d| && d[j] != '0';
          assert text[m.start + j] == d[j];
        }
        if PositiveFirstRun(text) {
          var k :| m.start <= k < m.end && text[k] != '0';
          assert d[k - m.start] == text[k];
        }
    }
  }

  /**
   * Success in terms of the page: both headings hold a non-whitespace
   * character and the read time's first run of digits is not all zeros.
   */
  lemma SuccessIff(p: Page)
    ensures Extract(p).success == 1 <==>
              HasText(p.h1) && HasText(p.h2) && p.readTime.Some? && PositiveFirstRun(p.readTime.value)
  {
    if p.h1.Some? { StripEmptyIff(p.h1.value); }
    if p.h2.Some? { StripEmptyIff(p.h2.value); }
    ReadTimePositiveIff(p.readTime);
  }

  /** A read time written as `str(n)` and then a non-digit (or nothing) reads back as n. */
  lemma ReadTimeOfDecimal(n: nat, rest: string)
    requires rest == [] || !IsDigit(rest[0])
    ensures ReadTimeMinutes(Some(Decimal(n) + rest)) == n
  {
    var d := Decimal(n);
    var text := d + rest;
    LeadingDigitsOfDigits(d, rest);
    assert SearchDigits(text) == Some(Span(0, |d|));
    assert text[0..|d|] == d;
    DecimalRoundTrip(n);
  }

  /**
   * The read time is the value of the first run of digits in the span's
   * text: whatever precedes it holds no digit, and it ends at a non-digit or
   * at the end of the text.
   */
  lemma ReadTimeOfFirstRun(prefix: string, d: string, rest: string)
    requires forall k :: 0 <= k < |prefix| ==> !IsDigit(prefix[k])
    requires d != [] && AllDigits(d) && (rest == [] || !IsDigit(rest[0]))
    ensures ReadTimeMinutes(Some(prefix + d + rest)) == DigitsValue(d)
  {
    var text := prefix + d + rest;
    var i, j := |prefix|, |prefix| + |d|;
    assert IsDigit(text[i]) by { assert text[i] == d[0]; }
    assert forall k :: 0 <= k < i ==> text[k] == prefix[k];
    assert forall k :: i <= k < j ==> text[k] == d[k - i];
    assert j < |text| ==> text[j] == rest[0];
    var m := SearchDigits(text).value;
    assert IsDigit(text[m.start]);
    assert m.start == i;
    assert m.end == j;
    assert text[i..j] == d;
  }

  /** A URL beginning with "http://" or "https://", in any letter case, reaches the network. */
  lemma SchemedUrls(rest: string)
    ensures HasHttpScheme("http://" + rest)
    ensures HasHttpScheme("https://" + rest)
    ensures HasHttpScheme("HTTPS://" + rest)
  {
    LowerHttp(rest);
    LowerHttps(rest);
    LowerUpperHttps(rest);
  }

  /** Each accepted scheme, lower-cased one character at a time. */
  lemma LowerHttp(rest: string)
    ensures Lower("http://" + rest)[..7] == "http://"
  {
    var l := Lower("http://" + rest);
    assert l[0] == 'h' && l[1] == 't' && l[2] == 't' && l[3] == 'p';
    assert l[4] == ':' && l[5] == '/' && l[6] == '/';
  }

  lemma LowerHttps(rest: string)
    ensures Lower("https://" + rest)[..8] == "https://"
  {
    var l := Lower("https://" + rest);
    assert l[0] == 'h' && l[1] == 't' && l[2] == 't' && l[3] == 'p';
    assert l[4] == 's' && l[5] == ':' && l[6] == '/' && l[7] == '/';
  }

  lemma LowerUpperHttps(rest: string)
    ensures Lower("HTTPS://" + rest)[..8] == "https://"
  {
    var l := Lower("HTTPS://" + rest);
    assert l[0] == 'h' && l[1] == 't' && l[2] == 't' && l[3] == 'p';
    assert l[4] == 's' && l[5] == ':' && l[6] == '/' && l[7] == '/';
  }

  /** The scheme test ignores letter case. */
  lemma SchemeIgnoresCase(url: string)
    ensures HasHttpScheme(Lower(url)) <==> HasHttpScheme(url)
  {
    LowerIdempotent(url);
  }

  /** Text with no whitespace at either end. */
  predicate Unpadded(s: string) {
    s != [] && !IsSpace(s[0]) && !IsSpace(s[|s| - 1])
  }

  lemma StripUnpadded(s: string)
    requires Unpadded(s)
    ensures Strip(s) == s
  {
  }

  /**
   * A page like the one in the scraper's test (headings and tags without
   * surrounding whitespace, read time "<n> min read") yields its headings and
   * tags as they are, the title's length, its image count, n as the duration,
   * and success exactly when n > 0.
   */
  lemma ExtractCleanPage(p: Page, n: nat)
    requires p.h1.Some? && Unpadded(p.h1.value) && p.h2.Some? && Unpadded(p.h2.value)
    requires forall i :: 0 <= i < |p.tagDivs| ==> Unpadded(p.tagDivs[i])
    requires p.readTime == Some(Decimal(n) + " min read")
    ensures Extract(p) == ArticleRecord(p.h1, p.h2, p.tagDivs, |p.h1.value|, p.imageCount, n,
                                        if n > 0 then 1 else 0)
  {
    var r := Extract(p);
    ReadTimeOfDecimal(n, " min read");
    StripUnpadded(p.h1.value);
    StripUnpadded(p.h2.value);
    assert r.title == p.h1 && r.subtitle == p.h2;
    forall i | 0 <= i < |p.tagDivs| ensures r.tags[i] == p.tagDivs[i] {
      StripUnpadded(p.tagDivs[i]);
    }
    assert r.tags == p.tagDivs;
    assert r.duration == n;
  }
}
