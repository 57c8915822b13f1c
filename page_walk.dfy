/**
 * The page walk shared by the three listing scrapers of scrapers/: fetch the
 * listing pages 1..max_pages in order, stop at the first page that is missing
 * (404), fails, or holds no article, and turn every article whose cleaned
 * name is non-empty into a record.
 *
 * HTTP and HTML parsing are not modelled: the outcome of fetching a URL is a
 * parameter `fetch`, and a loaded page is given as what the parser's
 * successive `find_all` strategies return.
 */
module PageWalk {
  import opened Wrappers
  import opened Text
  import opened Normalizer

  /** An `<a>` element; `href` is None when the attribute is absent. */
  datatype Anchor = Anchor(href: Option<string>)

  /** A title element: its stripped text and the first `<a>` inside it. */
  datatype Heading = Heading(text: string, anchor: Option<Anchor>)

  /**
   * One article or product. `titles` holds what the successive title
   * lookups return (the first one that finds an element wins); `link` is the
   * container-level link lookup. `Broken` stands for an element whose
   * processing raises, which the per-article handler skips.
   */
  datatype Container =
    | Container(titles: seq<Option<Heading>>, link: Option<Anchor>)
    | Broken

  /** What fetching one listing page gives: a 404, any other failure, or the containers found by each strategy. */
  datatype PageOutcome = NotFound | Failed | Loaded(strategies: seq<seq<Container>>)

  /**
   * The constants that distinguish the three scrapers: the site, the listing
   * path (with its leading and trailing '/'), the noise words of the name
   * cleaner, and whether the link is looked up inside the title first.
   */
  datatype Source = Source(baseUrl: string, section: string, noise: seq<string>, titleLink: bool)

  /** A scraped record: `nombre`, `version`, `url`, `titulo_original`. */
  datatype Record = Record(name: string, version: string, url: string, rawTitle: string)

  predicate ValidSource(src: Source) {
    StartsWith(src.baseUrl, "http") && NoiseWords(src.noise)
  }

  /** The result of the first strategy that finds anything (`if not articles: articles = …`). */
  function FirstNonEmpty(xs: seq<seq<Container>>): (r: seq<Container>)
    ensures r == [] || r in xs
  {
    if xs == [] then []
    else if xs[0] != [] then xs[0]
    else FirstNonEmpty(xs[1..])
  }

  /** `FirstNonEmpty` picks the earliest non-empty strategy result, and is empty only when all are. */
  lemma {:induction false} FirstNonEmptyIsFirst(xs: seq<seq<Container>>)
    ensures FirstNonEmpty(xs) == [] <==> forall i :: 0 <= i < |xs| ==> xs[i] == []
    ensures forall i :: 0 <= i < |xs| && xs[i] != [] && (forall j :: 0 <= j < i ==> xs[j] == []) ==> FirstNonEmpty(xs) == xs[i]
  {
    if xs != [] && xs[0] == [] {
      FirstNonEmptyIsFirst(xs[1..]);
      assert forall i :: 1 <= i < |xs| ==> xs[i] == xs[1..][i - 1];
      forall i | 1 <= i < |xs| && xs[i] != [] && (forall j :: 0 <= j < i ==> xs[j] == [])
        ensures FirstNonEmpty(xs) == xs[i]
      {
        assert forall j :: 0 <= j < i - 1 ==> xs[1..][j] == xs[j + 1];
      }
    }
  }

  /** The first lookup that found a title element. */
  function FirstHeading(titles: seq<Option<Heading>>): (r: Option<Heading>)
    ensures r.None? <==> forall i :: 0 <= i < |titles| ==> titles[i].None?
    ensures r.Some? ==> r in titles
  {
    if titles == [] then None
    else if titles[0].Some? then titles[0]
    else
      var r := FirstHeading(titles[1..]);
      assert forall i :: 1 <= i < |titles| ==> titles[i] == titles[1..][i - 1];
      r
  }

  /** The listing URL of page `n`. */
  function PageUrl(src: Source, n: nat): (u: string)
    requires n >= 1
    ensures StartsWith(u, src.baseUrl + src.section)
    ensures n == 1 <==> u == src.baseUrl + src.section
  {
    var prefix := src.baseUrl + src.section;
    if n == 1 then prefix
    else
      var u := prefix + "page/" + Decimal(n) + "/";
      assert u[..|prefix|] == prefix;
      u
  }

  /** Distinct pages are fetched at distinct URLs. */
  lemma PageUrlInjective(src: Source, m: nat, n: nat)
    requires m >= 1 && n >= 1 && PageUrl(src, m) == PageUrl(src, n)
    ensures m == n
  {
    var prefix := src.baseUrl + src.section + "page/";
    if m > 1 && n > 1 {
      var a, b := Decimal(m) + "/", Decimal(n) + "/";
      assert PageUrl(src, m) == prefix + a && PageUrl(src, n) == prefix + b;
      assert a == (prefix + a)[|prefix|..] == (prefix + b)[|prefix|..] == b;
      assert Decimal(m) == a[..|a| - 1] == b[..|b| - 1] == Decimal(n);
      DecimalValue(m);
      DecimalValue(n);
    }
  }

  /** A link taken verbatim when it starts with "http", else appended to the site. */
  function Absolute(baseUrl: string, href: string): (u: string)
    ensures StartsWith(baseUrl, "http") ==> StartsWith(u, "http")
    ensures StartsWith(href, "http") ==> u == href
    ensures !StartsWith(href, "http") ==> u == baseUrl + href
  {
    if StartsWith(href, "http") then href
    else
      assert StartsWith(baseUrl, "http") ==> (baseUrl + href)[..4] == baseUrl[..4];
      baseUrl + href
  }

  /** The link of an article: inside the title when the scraper looks there and finds one, else the container's. */
  function LinkOf(src: Source, h: Heading, c: Container): Option<Anchor>
    requires c.Container?
  {
    if src.titleLink && h.anchor.Some? then h.anchor else c.link
  }

  /** The URL of an article: "" without a link carrying `href`. */
  function UrlOf(src: Source, link: Option<Anchor>): (u: string)
    ensures link.None? || link.value.href.None? ==> u == ""
    ensures link.Some? && link.value.href.Some? ==> u == Absolute(src.baseUrl, link.value.href.value)
  {
    match link
    case Some(Anchor(Some(href))) => Absolute(src.baseUrl, href)
    case _ => ""
  }

  /** The record one container contributes: none without a title or with an empty cleaned name. */
  function ContainerRecord(src: Source, c: Container): (r: Option<Record>)
    requires NoiseWords(src.noise)
    ensures r.Some? ==> c.Container? && FirstHeading(c.titles).Some?
    ensures r.Some? ==>
      var h := FirstHeading(c.titles).value;
      && r.value.rawTitle == h.text
      && r.value.name == CleanName(h.text, src.noise) != ""
      && r.value.version == ExtractVersion(h.text)
      && r.value.url == UrlOf(src, LinkOf(src, h, c))
    ensures r.None? ==> c.Broken? || FirstHeading(c.titles).None? || CleanName(FirstHeading(c.titles).value.text, src.noise) == ""
  {
    match c
    case Broken => None
    case Container(titles, link) =>
      match FirstHeading(titles)
      case None => None
      case Some(h) =>
        var name := CleanName(h.text, src.noise);
        if name == "" then None
        else Some(Record(name, ExtractVersion(h.text), UrlOf(src, LinkOf(src, h, c)), h.text))
  }

  /** The records of one page's containers, in order. */
  function PageRecords(src: Source, cs: seq<Container>): (rs: seq<Record>)
    requires NoiseWords(src.noise)
    ensures |rs| <= |cs|
    decreases |cs|
  {
    if cs == [] then []
    else
      var rest := PageRecords(src, cs[..|cs| - 1]);
      match ContainerRecord(src, cs[|cs| - 1])
      case Some(r) => rest + [r]
      case None => rest
  }

  /** A record is well formed: a non-empty cleaned name of its title, the title's version, an absolute or empty URL. */
  predicate WellFormed(src: Source, r: Record)
    requires NoiseWords(src.noise)
  {
    r.name != "" && r.name == CleanName(r.rawTitle, src.noise) &&
    r.version == ExtractVersion(r.rawTitle) &&
    (r.url == "" || StartsWith(r.url, "http"))
  }

  lemma {:induction false} PageRecordsWellFormed(src: Source, cs: seq<Container>)
    requires ValidSource(src)
    ensures forall k :: 0 <= k < |PageRecords(src, cs)| ==> WellFormed(src, PageRecords(src, cs)[k])
    decreases |cs|
  {
    if cs != [] {
      var c := cs[|cs| - 1];
      PageRecordsWellFormed(src, cs[..|cs| - 1]);
      var r := ContainerRecord(src, c);
      if r.Some? {
        var h := FirstHeading(c.titles).value;
        assert Some(h) in c.titles;
      }
    }
  }

  /** Whether the walk goes on past this page. */
  predicate Continues(p: PageOutcome) {
    p.Loaded? && FirstNonEmpty(p.strategies) != []
  }

  /** The records of the pages `pages` (page i+1 at index i), stopping at the first page that does not continue. */
  function Walk(src: Source, pages: seq<PageOutcome>): (rs: seq<Record>)
    requires NoiseWords(src.noise)
    decreases |pages|
  {
    if pages == [] || !Continues(pages[0]) then []
    else
      var cs := FirstNonEmpty(pages[0].strategies);
      PageRecords(src, cs) + Walk(src, pages[1..])
  }

  lemma AllWellFormedAppend(src: Source, a: seq<Record>, b: seq<Record>)
    requires ValidSource(src)
    requires forall k :: 0 <= k < |a| ==> WellFormed(src, a[k])
    requires forall k :: 0 <= k < |b| ==> WellFormed(src, b[k])
    ensures forall k :: 0 <= k < |a + b| ==> WellFormed(src, (a + b)[k])
  {
    assert forall k :: 0 <= k < |a + b| ==> (a + b)[k] == if k < |a| then a[k] else b[k - |a|];
  }

  /** Every record of the walk is well formed. */
  lemma {:induction false} WalkWellFormed(src: Source, pages: seq<PageOutcome>)
    requires ValidSource(src)
    ensures forall k :: 0 <= k < |Walk(src, pages)| ==> WellFormed(src, Walk(src, pages)[k])
    decreases |pages|
  {
    if pages != [] && Continues(pages[0]) {
      var cs := FirstNonEmpty(pages[0].strategies);
      PageRecordsWellFormed(src, cs);
      WalkWellFormed(src, pages[1..]);
      AllWellFormedAppend(src, PageRecords(src, cs), Walk(src, pages[1..]));
    }
  }

  /** Nothing after the first page that stops the walk is ever read. */
  lemma {:induction false} WalkStopsAtFirstFailure(src: Source, pages: seq<PageOutcome>, n: nat)
    requires NoiseWords(src.noise)
    requires n < |pages| && !Continues(pages[n])
    ensures Walk(src, pages) == Walk(src, pages[..n])
    decreases n
  {
    if n > 0 && Continues(pages[0]) {
      WalkStopsAtFirstFailure(src, pages[1..], n - 1);
      assert pages[1..][..n - 1] == pages[..n][1..];
    }
  }

  /** The walk of more pages extends the walk of fewer: records are only appended, in page order, never merged. */
  lemma WalkPrefix(src: Source, pages: seq<PageOutcome>, n: nat)
    requires NoiseWords(src.noise)
    requires n <= |pages|
    ensures Walk(src, pages[..n]) <= Walk(src, pages)
  {
    if forall i :: 0 <= i < n ==> Continues(pages[i]) {
      assert pages == pages[..n] + pages[n..];
      WalkAppend(src, pages[..n], pages[n..]);
    } else {
      var m :| 0 <= m < n && !Continues(pages[m]);
      WalkStopsAtFirstFailure(src, pages, m);
      WalkStopsAtFirstFailure(src, pages[..n], m);
      assert pages[..n][..m] == pages[..m];
    }
  }

  /** Pages that all continue contribute their records one after the other. */
  lemma {:induction false} WalkAppend(src: Source, a: seq<PageOutcome>, b: seq<PageOutcome>)
    requires NoiseWords(src.noise)
    requires forall i :: 0 <= i < |a| ==> Continues(a[i])
    ensures Walk(src, a + b) == Walk(src, a) + Walk(src, b)
    decreases |a|
  {
    if a == [] {
      assert a + b == b;
    } else {
      assert (a + b)[0] == a[0];
      assert (a + b)[1..] == a[1..] + b;
      WalkAppend(src, a[1..], b);
    }
  }

  /** The outcomes of pages 1..maxPages under `fetch` (none when maxPages < 1, as `range(1, max_pages + 1)`). */
  function Pages(src: Source, maxPages: int, fetch: string -> PageOutcome): (ps: seq<PageOutcome>)
    ensures |ps| == if maxPages < 0 then 0 else maxPages
    ensures forall i :: 0 <= i < |ps| ==> ps[i] == fetch(PageUrl(src, i + 1))
  {
    seq(if maxPages < 0 then 0 else maxPages, i requires 0 <= i => fetch(PageUrl(src, i + 1)))
  }

  /** The per-article loop of one page: each article that yields a record appends it. */
  method ScrapeArticles(src: Source, articles: seq<Container>) returns (found: seq<Record>)
    requires NoiseWords(src.noise)
    ensures found == PageRecords(src, articles)
  {
    found := [];
    for k := 0 to |articles|
      invariant found == PageRecords(src, articles[..k])
    {
      assert articles[..k + 1][..k] == articles[..k];
      var r := ContainerRecord(src, articles[k]);
      if r.Some? {
        found := found + [r.value];
      }
    }
    assert articles[..|articles|] == articles;
  }

  /**
   * `scrape_plugins_weadown` / `scrape_temas_weadown` / `scrape_temas_wp`:
   * the page loop with its `break`s, appending each page's records.
   */
  method Scrape(src: Source, maxPages: int, fetch: string -> PageOutcome) returns (records: seq<Record>)
    requires ValidSource(src)
    ensures records == Walk(src, Pages(src, maxPages, fetch))
    ensures forall k :: 0 <= k < |records| ==> WellFormed(src, records[k])
  {
    ghost var pages := Pages(src, maxPages, fetch);
    records := [];
    var pageNum := 1;
    while pageNum <= maxPages
      invariant 1 <= pageNum && pageNum - 1 <= |pages|
      invariant Walk(src, pages) == records + Walk(src, pages[pageNum - 1..])
      decreases maxPages - pageNum
    {
      ghost var rest := pages[pageNum - 1..];
      var outcome := fetch(PageUrl(src, pageNum));
      assert rest[0] == outcome;
      if outcome.NotFound? || outcome.Failed? || FirstNonEmpty(outcome.strategies) == [] {
        break;
      }
      var found := ScrapeArticles(src, FirstNonEmpty(outcome.strategies));
      assert rest[1..] == pages[pageNum..];
      records := records + found;
      pageNum := pageNum + 1;
    }
    WalkWellFormed(src, pages);
  }
}
