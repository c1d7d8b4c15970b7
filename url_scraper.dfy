/**
 * url_scraper.py: turns the entries of a Medium RSS feed into article links
 * and merges them into the links CSV file, keeping the first row for each
 * link.
 */
module UrlScraper {
  import opened Wrappers
  import opened PyText

  /** One feed entry as the feed parser gives it; `link` is None when the entry has none. */
  datatype Entry = Entry(link: Option<string>)

  /** The dictionary `{"link": ...}` made for each entry. */
  datatype Article = Article(link: string)

  /**
   * `scrape_medium_rss()` once the feed is parsed: one article per entry, in
   * feed order. An entry without a link makes the attribute access raise,
   * and no list is returned.
   */
  function ScrapeMediumRss(entries: seq<Entry>): (r: Option<seq<Article>>)
    ensures r.Some? <==> forall i :: 0 <= i < |entries| ==> entries[i].link.Some?
    ensures r.Some? ==> |r.value| == |entries|
    ensures r.Some? ==> forall i :: 0 <= i < |entries| ==> r.value[i].link == entries[i].link.value
  {
    if entries == [] then Some([])
    else if entries[0].link.None? then None
    else
      match ScrapeMediumRss(entries[1..])
      case None => None
      case Some(rest) => Some([Article(entries[0].link.value)] + rest)
  }

  function Links(articles: seq<Article>): (links: seq<string>)
    ensures |links| == |articles|
    ensures forall i :: 0 <= i < |articles| ==> links[i] == articles[i].link
  {
    seq(|articles|, i requires 0 <= i < |articles| => articles[i].link)
  }

  // ---------------------------------------------------------------------------
  // Keep-first de-duplication

  predicate NoDuplicates(s: seq<string>) {
    forall i, j :: 0 <= i < j < |s| ==> s[i] != s[j]
  }

  /** The position of the first occurrence of x in s. */
  function FirstIndex(s: seq<string>, x: string): (k: nat)
    requires x in s
    ensures k < |s| && s[k] == x
    ensures forall i :: 0 <= i < k ==> s[i] != x
  {
    if s[0] == x then 0 else 1 + FirstIndex(s[1..], x)
  }

  lemma FirstIndexInPrefix(s: seq<string>, n: nat, x: string)
    requires n <= |s| && x in s[..n]
    ensures FirstIndex(s, x) == FirstIndex(s[..n], x)
  {
  }

  lemma InPrefix(s: seq<string>, n: nat, k: nat)
    requires n <= |s| && k < |s|
    ensures k < n ==> s[k] in s[..n]
  {
    if k < n {
      assert s[..n][k] == s[k];
    }
  }

  /**
   * `drop_duplicates()`: the first occurrence of each element, in the order
   * of first occurrence (see DedupOrder).
   */
  function Dedup(s: seq<string>): (r: seq<string>)
    ensures forall x :: x in r <==> x in s
  {
    if s == [] then []
    else
      var p := Dedup(s[..|s| - 1]);
      if s[|s| - 1] in p then p else p + [s[|s| - 1]]
  }

  /** No element is kept twice. */
  lemma {:induction false} DedupNoDuplicates(s: seq<string>)
    ensures NoDuplicates(Dedup(s))
  {
    if s != [] {
      DedupNoDuplicates(s[..|s| - 1]);
    }
  }

  /** The kept elements appear in the order of their first occurrences in the input. */
  lemma {:induction false} DedupOrder(s: seq<string>)
    ensures forall i, j :: 0 <= i < j < |Dedup(s)| ==> FirstIndex(s, Dedup(s)[i]) < FirstIndex(s, Dedup(s)[j])
  {
    if s != [] {
      var front := s[..|s| - 1];
      var x := s[|s| - 1];
      var p := Dedup(front);
      DedupOrder(front);
      assert s == front + [x];
      var r := Dedup(s);
      assert r == if x in p then p else p + [x];
      forall i, j | 0 <= i < j < |r| ensures FirstIndex(s, r[i]) < FirstIndex(s, r[j]) {
        assert r[i] == p[i] && p[i] in front;
        FirstIndexInPrefix(s, |s| - 1, p[i]);
        assert FirstIndex(s, r[i]) == FirstIndex(front, p[i]) < |front|;
        if j < |p| {
          assert r[j] == p[j] && p[j] in front;
          FirstIndexInPrefix(s, |s| - 1, p[j]);
          assert FirstIndex(front, p[i]) < FirstIndex(front, p[j]);
        } else {
          assert r[j] == x && x !in front;
          InPrefix(s, |s| - 1, FirstIndex(s, x));
          assert FirstIndex(s, x) >= |front|;
        }
      }
    }
  }

  /** The elements of b that are not in a, in order. */
  function Unseen(b: seq<string>, a: seq<string>): (r: seq<string>)
    ensures forall x :: x in r <==> x in b && x !in a
  {
    if b == [] then []
    else if b[|b| - 1] in a then Unseen(b[..|b| - 1], a)
    else Unseen(b[..|b| - 1], a) + [b[|b| - 1]]
  }

  /** A sequence without duplicates is its own de-duplication. */
  lemma {:induction false} DedupOfNoDuplicates(s: seq<string>)
    requires NoDuplicates(s)
    ensures Dedup(s) == s
  {
    if s != [] {
      var front := s[..|s| - 1];
      DedupOfNoDuplicates(front);
      assert s == front + [s[|s| - 1]];
    }
  }

  /** De-duplicating twice is de-duplicating once. */
  lemma DedupIdempotent(s: seq<string>)
    ensures Dedup(Dedup(s)) == Dedup(s)
  {
    DedupNoDuplicates(s);
    DedupOfNoDuplicates(Dedup(s));
  }

  /** The result of a + b is that of a, then the first occurrences of what b adds. */
  lemma {:induction false} DedupAppend(a: seq<string>, b: seq<string>)
    ensures Dedup(a + b) == Dedup(a) + Dedup(Unseen(b, a))
  {
    if b == [] {
      assert a + b == a;
      assert Unseen(b, a) == [];
    } else {
      var front, x := b[..|b| - 1], b[|b| - 1];
      var u := Unseen(front, a);
      DedupAppend(a, front);
      assert a + b == (a + front) + [x] by {
        assert b == front + [x];
      }
      DedupSnoc(a + front, x);
      assert x in a + front <==> x in a || x in front;
      if x in a {
        assert Unseen(b, a) == u;
      } else {
        assert Unseen(b, a) == u + [x];
        DedupSnoc(u, x);
        assert x in u <==> x in front;
        if x !in front {
          SnocAssoc(Dedup(a), Dedup(u), x);
        }
      }
    }
  }

  lemma SnocAssoc(p: seq<string>, q: seq<string>, x: string)
    ensures p + (q + [x]) == (p + q) + [x]
  {
  }

  /** Adding one element at the end adds it to the result exactly when it is new. */
  lemma DedupSnoc(s: seq<string>, x: string)
    ensures Dedup(s + [x]) == if x in s then Dedup(s) else Dedup(s) + [x]
  {
    assert (s + [x])[..|s + [x]| - 1] == s;
  }

  lemma {:induction false} UnseenOfPresent(b: seq<string>, a: seq<string>)
    requires forall x :: x in b ==> x in a
    ensures Unseen(b, a) == []
  {
    if b != [] {
      var front := b[..|b| - 1];
      assert forall y :: y in front ==> y in b;
      UnseenOfPresent(front, a);
      assert b[|b| - 1] in b;
    }
  }

  /** Appending only elements already present changes nothing. */
  lemma {:induction false} DedupAbsorbs(a: seq<string>, b: seq<string>)
    requires forall x :: x in b ==> x in a
    ensures Dedup(a + b) == Dedup(a)
  {
    DedupAppend(a, b);
    UnseenOfPresent(b, a);
  }

  // ---------------------------------------------------------------------------
  // save_to_csv

  /** The links CSV file: None while it does not exist, else the links of its rows in order. */
  class LinkFile {
    var rows: Option<seq<string>>

    constructor (rows: Option<seq<string>>)
      ensures this.rows == rows
    {
      this.rows := rows;
    }
  }

  /** The table read back from the file; a missing file reads as an empty table. */
  function Existing(rows: Option<seq<string>>): seq<string> {
    match rows
    case None => []
    case Some(links) => links
  }

  /** The rows `save_to_csv` leaves: old and new links together, the first row of each link kept. */
  function Saved(rows: Option<seq<string>>, articles: seq<Article>): seq<string> {
    Dedup(Existing(rows) + Links(articles))
  }

  /** `save_to_csv(new_articles)`: the file is rewritten with the merged, de-duplicated rows. */
  method SaveToCsv(newArticles: seq<Article>, file: LinkFile)
    modifies file
    ensures file.rows == Some(Saved(old(file.rows), newArticles))
  {
    var existing := if file.rows.None? then [] else file.rows.value;
    var combined := Dedup(existing + Links(newArticles));
    file.rows := Some(combined);
  }

  /** The `__main__` block: save the feed's links when there is at least one; report whether the file was written. */
  method RunLinkDiscovery(entries: seq<Entry>, file: LinkFile) returns (written: bool)
    modifies file
    ensures written <==> ScrapeMediumRss(entries).Some? && ScrapeMediumRss(entries).value != []
    ensures written ==> file.rows == Some(Saved(old(file.rows), ScrapeMediumRss(entries).value))
    ensures !written ==> file.rows == old(file.rows)
  {
    var articles := ScrapeMediumRss(entries);
    written := false;
    if articles.Some? && articles.value != [] {
      SaveToCsv(articles.value, file);
      written := true;
    }
  }

  // ---------------------------------------------------------------------------
  // Properties of save_to_csv

  /** After saving, no two rows share a link, and every old or new link is there. */
  lemma SavedHoldsEachLinkOnce(rows: Option<seq<string>>, articles: seq<Article>)
    ensures NoDuplicates(Saved(rows, articles))
    ensures forall x :: x in Saved(rows, articles) <==> x in Existing(rows) || x in Links(articles)
  {
    DedupNoDuplicates(Existing(rows) + Links(articles));
  }

  /** The existing links come first (de-duplicated), then the new links not seen before, in input order. */
  lemma SavedOrder(rows: Option<seq<string>>, articles: seq<Article>)
    ensures Saved(rows, articles) == Dedup(Existing(rows)) + Dedup(Unseen(Links(articles), Existing(rows)))
  {
    DedupAppend(Existing(rows), Links(articles));
  }

  /** Saving the same batch a second time leaves the file as the first save left it. */
  lemma SaveTwice(rows: Option<seq<string>>, articles: seq<Article>)
    ensures Saved(Some(Saved(rows, articles)), articles) == Saved(rows, articles)
  {
    var once := Saved(rows, articles);
    DedupNoDuplicates(Existing(rows) + Links(articles));
    DedupAbsorbs(once, Links(articles));
    DedupOfNoDuplicates(once);
  }

  // ---------------------------------------------------------------------------
  // The file as text

  /**
   * A link `to_csv` writes as it is and `strip()` gives back unchanged: not
   * empty, no whitespace at either end, no delimiter, quote or line break.
   */
  predicate PlainLink(l: string) {
    l != [] && !IsSpace(l[0]) && !IsSpace(l[|l| - 1])
    && ',' !in l && '"' !in l && '\n' !in l && '\r' !in l
  }

  /** The lines of the file after the header, one per link. */
  function LinkLines(links: seq<string>): (ls: seq<string>)
    ensures |ls| == |links|
    ensures forall i :: 0 <= i < |links| ==> ls[i] == links[i] + "\n"
  {
    seq(|links|, i requires 0 <= i < |links| => links[i] + "\n")
  }

  /** `to_csv(index=False)` of the links table, when every link is plain: the header line, then one line per link. */
  function LinkFileText(links: seq<string>): (r: string)
    ensures |r| >= 5 && r[..5] == "link\n"
    ensures r[|r| - 1] == '\n'
  {
    var ls := LinkLines(["link"] + links);
    assert ls[0] == "link\n";
    ConcatEndsLikeLast(ls);
    Concat(ls)
  }

  /** Pieces put together end as the last piece ends, when that piece is not empty. */
  lemma {:induction false} ConcatEndsLikeLast(ls: seq<string>)
    requires ls != [] && ls[|ls| - 1] != []
    ensures |Concat(ls)| >= |ls[|ls| - 1]|
    ensures Concat(ls)[|Concat(ls)| - 1] == ls[|ls| - 1][|ls[|ls| - 1]| - 1]
  {
    if |ls| > 1 {
      ConcatEndsLikeLast(ls[1..]);
    }
  }
}
