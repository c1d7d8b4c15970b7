/**
 * `scrape_articles_from_file` (medium_scraper.py): reads the URL list, strips
 * each line, scrapes every URL in turn and appends a row to the output CSV
 * for each URL that yields a record.
 */
module BatchRunner {
  import opened Wrappers
  import opened PyText
  import opened Extractor
  import opened Sink
  import opened UrlScraper

  /**
   * The URLs the loop visits: the stripped lines of the input file, in
   * order, or none when the file cannot be opened or read (the error is
   * printed and nothing is scraped). Header and blank lines are kept.
   */
  function UrlsToScrape(input: Option<string>): (urls: seq<string>)
    ensures input.Some? ==>
              var lines := ReadLines(UniversalNewlines(input.value));
              |urls| == |lines| && forall i :: 0 <= i < |lines| ==> urls[i] == Strip(lines[i])
    ensures input.None? ==> urls == []
  {
    match input
    case None => []
    case Some(text) => StripAll(ReadLines(UniversalNewlines(text)))
  }

  /** One URL per line of the file: one for each line break, and one more for a last line without one. */
  lemma UrlCount(text: string)
    ensures var t := UniversalNewlines(text);
            |UrlsToScrape(Some(text))| == Count('\n', t) + (if t != [] && t[|t| - 1] != '\n' then 1 else 0)
  {
    ReadLinesCount(UniversalNewlines(text));
  }

  /** `[f(x) for x in xs]`, built from the left. */
  function MapSeq<A, B>(f: A -> B, xs: seq<A>): (ys: seq<B>)
    ensures |ys| == |xs|
  {
    if xs == [] then [] else MapSeq(f, xs[..|xs| - 1]) + [f(xs[|xs| - 1])]
  }

  lemma {:induction false} MapSeqAt<A, B>(f: A -> B, xs: seq<A>, i: nat)
    requires i < |xs|
    ensures MapSeq(f, xs)[i] == f(xs[i])
  {
    if i < |xs| - 1 {
      MapSeqAt(f, xs[..|xs| - 1], i);
    }
  }

  lemma {:induction false} MapSeqConcat<A, B>(f: A -> B, u: seq<A>, v: seq<A>)
    ensures MapSeq(f, u + v) == MapSeq(f, u) + MapSeq(f, v)
  {
    if v == [] {
      assert u + v == u;
    } else {
      var front, x := v[..|v| - 1], v[|v| - 1];
      assert (u + v)[..|u + v| - 1] == u + front;
      assert (u + v)[|u + v| - 1] == x;
      calc {
        MapSeq(f, u + v);
        MapSeq(f, u + front) + [f(x)];
        { MapSeqConcat(f, u, front); }
        (MapSeq(f, u) + MapSeq(f, front)) + [f(x)];
        { AppendAssoc(MapSeq(f, u), MapSeq(f, front), [f(x)]); }
        MapSeq(f, u) + (MapSeq(f, front) + [f(x)]);
        MapSeq(f, u) + MapSeq(f, v);
      }
    }
  }

  lemma AppendAssoc<T>(a: seq<T>, b: seq<T>, c: seq<T>)
    ensures (a + b) + c == a + (b + c)
  {
  }

  /** `scrape_medium_article` against a fixed web. */
  function Scraper(web: Web): string -> Option<ArticleRecord> {
    url => ScrapeMediumArticle(web, url)
  }

  /** What `scrape_medium_article` returns for each URL, in order. */
  function Outcomes(web: Web, urls: seq<string>): (os: seq<Option<ArticleRecord>>)
    ensures |os| == |urls|
  {
    MapSeq(Scraper(web), urls)
  }

  /** The outcome at position i is that of the i-th URL. */
  lemma OutcomeAt(web: Web, urls: seq<string>, i: nat)
    requires i < |urls|
    ensures Outcomes(web, urls)[i] == ScrapeMediumArticle(web, urls[i])
  {
    MapSeqAt(Scraper(web), urls, i);
  }

  /** The records among the outcomes, in order: `if article_data:` holds exactly for a record. */
  function Records(os: seq<Option<ArticleRecord>>): (recs: seq<ArticleRecord>)
    ensures |recs| <= |os|
  {
    if os == [] then []
    else
      var front := Records(os[..|os| - 1]);
      match os[|os| - 1]
      case None => front
      case Some(r) => front + [r]
  }

  /** The records the loop writes: one per URL that yields a record, in URL order. */
  function Produced(web: Web, urls: seq<string>): seq<ArticleRecord> {
    Records(Outcomes(web, urls))
  }

  /** `scrape_articles_from_file(file_path, output_csv)`, the input file's text given as `input`. */
  method ScrapeArticlesFromFile(input: Option<string>, web: Web, output: CsvFile)
    modifies output
    ensures output.content == WriteAll(old(output.content), output.writable, Produced(web, UrlsToScrape(input)))
  {
    if input.None? {
      return;
    }
    var urls := StripAll(ReadLines(UniversalNewlines(input.value)));
    ScrapeEach(urls, web, output);
  }

  /** The loop over the URLs: scrape each, and append a row for each record. */
  method ScrapeEach(urls: seq<string>, web: Web, output: CsvFile)
    modifies output
    ensures output.content == WriteAll(old(output.content), output.writable, Produced(web, urls))
  {
    var i := 0;
    while i < |urls|
      invariant 0 <= i <= |urls|
      invariant output.content == WriteAll(old(output.content), output.writable, Records(Outcomes(web, urls)[..i]))
    {
      var articleData := ScrapeMediumArticle(web, urls[i]);
      OutcomeAt(web, urls, i);
      WriteStep(old(output.content), output.writable, Outcomes(web, urls), i);
      if articleData.Some? {
        WriteToCsv(articleData.value, output);
      }
      i := i + 1;
    }
    assert Outcomes(web, urls)[..|urls|] == Outcomes(web, urls);
  }

  /** Handling one more outcome writes its record, if it has one, after those already written. */
  lemma WriteStep(content: Option<seq<Row>>, writable: bool, os: seq<Option<ArticleRecord>>, i: nat)
    requires i < |os|
    ensures var before := WriteAll(content, writable, Records(os[..i]));
            WriteAll(content, writable, Records(os[..i + 1]))
              == if os[i].Some? then AfterWrite(before, writable, os[i].value) else before
  {
    var done := Records(os[..i]);
    assert os[..i + 1][..i] == os[..i];
    if os[i].Some? {
      assert (done + [os[i].value])[..|done|] == done;
    }
  }

  // ---------------------------------------------------------------------------
  // Properties

  /** The records of two outcome lists in sequence are those of each list, in sequence. */
  lemma {:induction false} RecordsConcat(o1: seq<Option<ArticleRecord>>, o2: seq<Option<ArticleRecord>>)
    ensures Records(o1 + o2) == Records(o1) + Records(o2)
  {
    if o2 == [] {
      assert o1 + o2 == o1;
    } else {
      var front := o2[..|o2| - 1];
      RecordsConcat(o1, front);
      assert (o1 + o2)[..|o1 + o2| - 1] == o1 + front;
      assert (o1 + o2)[|o1 + o2| - 1] == o2[|o2| - 1];
    }
  }

  /** When every outcome is a record, the records are the outcomes' values, one for one. */
  lemma {:induction false} RecordsAllSome(os: seq<Option<ArticleRecord>>)
    requires forall i :: 0 <= i < |os| ==> os[i].Some?
    ensures |Records(os)| == |os|
    ensures forall i :: 0 <= i < |os| ==> Records(os)[i] == os[i].value
  {
    if os != [] {
      RecordsAllSome(os[..|os| - 1]);
    }
  }

  lemma OutcomesConcat(web: Web, u: seq<string>, v: seq<string>)
    ensures Outcomes(web, u + v) == Outcomes(web, u) + Outcomes(web, v)
  {
    MapSeqConcat(Scraper(web), u, v);
  }

  /** The records of two URL lists in sequence are those of each list, in sequence. */
  lemma ProducedConcat(web: Web, u: seq<string>, v: seq<string>)
    ensures Produced(web, u + v) == Produced(web, u) + Produced(web, v)
  {
    OutcomesConcat(web, u, v);
    RecordsConcat(Outcomes(web, u), Outcomes(web, v));
  }

  /** When every URL yields a record, there is one record per URL, in URL order. */
  lemma ProducedAllSucceed(web: Web, urls: seq<string>)
    requires forall i :: 0 <= i < |urls| ==> ScrapeMediumArticle(web, urls[i]).Some?
    ensures |Produced(web, urls)| == |urls|
    ensures forall i :: 0 <= i < |urls| ==> Produced(web, urls)[i] == ScrapeMediumArticle(web, urls[i]).value
  {
    forall i | 0 <= i < |urls| ensures Outcomes(web, urls)[i] == ScrapeMediumArticle(web, urls[i]) {
      OutcomeAt(web, urls, i);
    }
    RecordsAllSome(Outcomes(web, urls));
  }

  /** A URL that yields no record contributes nothing, wherever it stands. */
  lemma FailedUrlContributesNothing(web: Web, u: seq<string>, url: string, v: seq<string>)
    requires ScrapeMediumArticle(web, url).None?
    ensures Produced(web, u + [url] + v) == Produced(web, u + v)
  {
    ProducedConcat(web, u + [url], v);
    ProducedConcat(web, u, [url]);
    ProducedConcat(web, u, v);
    var o := Outcomes(web, [url]);
    OutcomeAt(web, [url], 0);
    assert o == [None];
    assert o[..0] == [];
  }

  /**
   * Run on a new, writable output file: when no URL yields a record the file
   * is never created; otherwise it holds the header once, then one row per
   * record in URL order.
   */
  lemma RunOnNewFile(web: Web, input: Option<string>)
    ensures var recs := Produced(web, UrlsToScrape(input));
            WriteAll(None, true, recs) == if recs == [] then None else Some([Fieldnames] + Rows(recs))
  {
    var recs := Produced(web, UrlsToScrape(input));
    if recs != [] {
      WriteAllFresh(recs);
    }
  }

  /** An input file that cannot be opened leaves the output as it was. */
  lemma MissingInputLeavesOutput(content: Option<seq<Row>>, writable: bool, web: Web)
    ensures WriteAll(content, writable, Produced(web, UrlsToScrape(None))) == content
  {
    assert Produced(web, []) == [];
  }

  /** A line holding only whitespace is still visited, as the empty URL. */
  lemma BlankLineIsVisited(line: string)
    requires AllSpace(line) && '\n' !in line && '\r' !in line
    ensures UrlsToScrape(Some(line + "\n")) == [""]
  {
    var text := line + "\n";
    assert text[..|text| - 1] == line;
    assert '\r' !in text;
    UniversalNewlinesPlain(text);
    ReadLinesOfLines([text]);
    assert Concat([text]) == text;
    assert AllSpace(text);
    StripEmptyIff(text);
  }

  /** Visiting the empty URL yields no record. */
  lemma BlankUrlYieldsNothing(web: Web)
    ensures Produced(web, [""]) == []
  {
    HeaderAndBlankAreNotUrls();
    var o := Outcomes(web, [""]);
    OutcomeAt(web, [""], 0);
    assert o == [None];
    assert o[..0] == [];
  }

  /** Lines made of plain texts end in '\n' and hold no other line break. */
  lemma PlainLinesAreLines(ws: seq<string>)
    requires forall i :: 0 <= i < |ws| ==> PlainLink(ws[i])
    ensures var ls := LinkLines(ws);
            forall i :: 0 <= i < |ls| ==> '\r' !in ls[i] && IsLine(ls[i]) && ls[i][|ls[i]| - 1] == '\n'
  {
    var ls := LinkLines(ws);
    forall i | 0 <= i < |ls| ensures '\r' !in ls[i] && IsLine(ls[i]) && ls[i][|ls[i]| - 1] == '\n' {
      assert ls[i][..|ls[i]| - 1] == ws[i];
    }
  }

  /** Stripping lines made of plain texts gives back the texts. */
  lemma StripPlainLines(ws: seq<string>)
    requires forall i :: 0 <= i < |ws| ==> PlainLink(ws[i])
    ensures StripAll(LinkLines(ws)) == ws
  {
    var urls := StripAll(LinkLines(ws));
    forall i | 0 <= i < |ws| ensures urls[i] == ws[i] {
      StripLineEnd(ws[i]);
    }
  }

  /**
   * The links file `save_to_csv` writes, read back as the URL list: the
   * header word first, then each link as it was saved.
   */
  lemma UrlsOfLinkFile(links: seq<string>)
    requires forall i :: 0 <= i < |links| ==> PlainLink(links[i])
    ensures UrlsToScrape(Some(LinkFileText(links))) == ["link"] + links
  {
    var ws := ["link"] + links;
    assert PlainLink("link");
    assert forall i :: 0 <= i < |ws| ==> PlainLink(ws[i]);
    var ls := LinkLines(ws);
    PlainLinesAreLines(ws);
    NotInConcat('\r', ls);
    UniversalNewlinesPlain(Concat(ls));
    ReadLinesOfLines(ls);
    StripPlainLines(ws);
  }

  /** The header word, visited as a URL, yields no record. */
  lemma HeaderYieldsNothing(web: Web)
    ensures ScrapeMediumArticle(web, "link") == None
  {
    HeaderAndBlankAreNotUrls();
    NoSchemeGivesNoRecord(web, "link");
  }

  /**
   * Scraping the links file visits the header line too, and that visit
   * yields no record: the rows written are those of the links alone.
   */
  lemma LinkFileProducesLinksOnly(web: Web, links: seq<string>)
    requires forall i :: 0 <= i < |links| ==> PlainLink(links[i])
    ensures Produced(web, UrlsToScrape(Some(LinkFileText(links)))) == Produced(web, links)
  {
    UrlsOfLinkFile(links);
    SkipHeader(web, links);
  }

  lemma SkipHeader(web: Web, links: seq<string>)
    ensures Produced(web, ["link"] + links) == Produced(web, links)
  {
    HeaderYieldsNothing(web);
    FailedUrlContributesNothing(web, [], "link", links);
    assert [] + ["link"] + links == ["link"] + links;
    assert [] + links == links;
  }
}
