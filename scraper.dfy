/**
 * src/scraper.py: the older single-page scrapers `WeadownScraper` and
 * `PluginswpScraper`. Each loads one listing page, looks at its first 50
 * articles and fills a dict keyed by the cleaned plugin name.
 *
 * The HTTP request and the HTML parser are not modelled: a page is given as
 * what its two `find_all` lookups return, and an article as what its title
 * lookup and its first `<a>` give.
 */
module Scraper {
  import opened Wrappers
  import opened Text
  import opened Normalizer
  import PageWalk

  /** One article: the stripped text of its first `h2`/`h3`/`h4`, if any, and its first `<a>`, if any. */
  datatype Article = Article(title: Option<string>, link: Option<PageWalk.Anchor>)

  /** The page request failed (connection error, error status), or the articles each lookup found. */
  datatype Page = Failed | Loaded(primary: seq<Article>, fallback: seq<Article>)

  /** A value of the dict built by `WeadownScraper`. */
  datatype WeadownInfo = WeadownInfo(version: Option<string>, downloadUrl: Option<string>, rawTitle: string)

  /** A value of the dict built by `PluginswpScraper`: no download URL. */
  datatype PluginswpInfo = PluginswpInfo(version: Option<string>, rawTitle: string)

  const WeadownBase := "https://weadown.com"
  const PluginswpBase := "http://pluginswp.online"

  /** The alternatives of the noise-word pattern of `_clean_plugin_name`. */
  const Noise: seq<string> := ["pro", "premium", "nulled", "free", "download"]

  /** Only this many articles of the page are looked at. */
  const Limit := 50

  lemma NoiseValid()
    ensures NoiseWords(Noise)
  {
  }

  /** `_clean_plugin_name`: the ends carry none of ' -–|', and no capital is left. */
  function CleanPluginName(title: string): (name: string)
    ensures IsLowercase(name)
    ensures name == "" || (name[0] !in {' ', '-', '–', '|'} && name[|name| - 1] !in {' ', '-', '–', '|'})
  {
    NoiseValid();
    CleanNameShort(title, Noise)
  }

  /**
   * Cutting a blank-preceded noise word, with the blanks around it, out of a
   * title without digits leaves the cleaned name as it was: "Akismet Pro" and
   * "Akismet" clean alike, and "Yoast Premium SEO" cleans as "YoastSEO" does,
   * since the blanks on both sides go with the word.
   */
  lemma CleanPluginNameDropsNoise(x: string, sp1: string, w: string, sp2: string, y: string, n: nat)
    requires n < |Noise| && DigitFree(x) && DigitFree(y)
    requires forall j :: 0 <= j < |x| ==> !IsSpace(x[j])
    requires sp1 != "" && Blanks(sp1) && Blanks(sp2)
    requires Lower(w) == Noise[n]
    requires forall m :: 0 <= m < n ==> !StartsWithWord(w + sp2 + y, 0, Noise[m])
    requires y == "" || !IsSpace(y[0])
    ensures CleanPluginName(x + sp1 + w + sp2 + y) == CleanPluginName(x + y)
  {
    NoiseValid();
    NoiseWordDropped(x, sp1, w, sp2, y, Noise, n);
  }

  /**
   * `download_url` of `WeadownScraper`: the `href` of the first link (None
   * without a link or without the attribute); a non-empty href that does
   * not start with "http" gets `BASE_URL` in front.
   */
  function DownloadUrl(link: Option<PageWalk.Anchor>): (u: Option<string>)
    ensures u.Some? <==> link.Some? && link.value.href.Some?
    ensures u.Some? ==> u.value == "" || StartsWith(u.value, "http")
    ensures u.Some? ==> var href := link.value.href.value;
      && |href| <= |u.value| && u.value[|u.value| - |href|..] == href
      && (href == "" || StartsWith(href, "http") ==> u.value == href)
      && (href != "" && !StartsWith(href, "http") ==> u.value == WeadownBase + href)
  {
    if link.None? || link.value.href.None? then None
    else
      var href := link.value.href.value;
      if href != "" && !StartsWith(href, "http") then
        var v := WeadownBase + href;
        assert v[..4] == WeadownBase[..4];
        assert v[|v| - |href|..] == href;
        Some(v)
      else Some(href)
  }

  function WeadownInfoOf(title: string, link: Option<PageWalk.Anchor>): WeadownInfo {
    WeadownInfo(ExtractVersionShort(title), DownloadUrl(link), title)
  }

  /** `PluginswpScraper` does not look at the link. */
  function PluginswpInfoOf(title: string, link: Option<PageWalk.Anchor>): PluginswpInfo {
    PluginswpInfo(ExtractVersionShort(title), title)
  }

  /** The dict key an article contributes under the name cleaner `clean`: none without a title or for an empty name. */
  function Key(a: Article, clean: string -> string): (k: Option<string>)
    ensures k.Some? <==> a.title.Some? && clean(a.title.value) != ""
    ensures k.Some? ==> k.value == clean(a.title.value)
  {
    match a.title
    case None => None
    case Some(t) => var name := clean(t); if name == "" then None else Some(name)
  }

  /** The dict after the articles `arts`, in order, one assignment `plugins[name] = …` each. */
  function Ingest<V>(arts: seq<Article>, clean: string -> string, info: (string, Option<PageWalk.Anchor>) -> V): (m: map<string, V>)
    ensures "" !in m
    decreases |arts|
  {
    if arts == [] then map[]
    else
      var a := arts[|arts| - 1];
      var m := Ingest(arts[..|arts| - 1], clean, info);
      match Key(a, clean)
      case None => m
      case Some(k) => m[k := info(a.title.value, a.link)]
  }

  /** One more article: the dict is updated at its key, if it has one. */
  lemma IngestStep<V>(arts: seq<Article>, i: nat, clean: string -> string, info: (string, Option<PageWalk.Anchor>) -> V)
    requires i < |arts|
    ensures Ingest(arts[..i + 1], clean, info) ==
      if Key(arts[i], clean).Some? then Ingest(arts[..i], clean, info)[Key(arts[i], clean).value := info(arts[i].title.value, arts[i].link)]
      else Ingest(arts[..i], clean, info)
  {
    assert arts[..i + 1][..i] == arts[..i];
  }

  /** `j` is the last of `arts` with key `k`. */
  predicate LastWith(arts: seq<Article>, clean: string -> string, k: string, j: nat) {
    j < |arts| && Key(arts[j], clean) == Some(k) && forall i :: j < i < |arts| ==> Key(arts[i], clean) != Some(k)
  }

  /** The keys of the dict are exactly the non-empty names of the articles. */
  lemma {:induction false} IngestKeys<V>(arts: seq<Article>, clean: string -> string, info: (string, Option<PageWalk.Anchor>) -> V, k: string)
    ensures k in Ingest(arts, clean, info) <==> exists j :: 0 <= j < |arts| && Key(arts[j], clean) == Some(k)
    decreases |arts|
  {
    if arts != [] {
      var n := |arts| - 1;
      var p := arts[..n];
      IngestKeys(p, clean, info, k);
      assert arts[..n + 1] == arts;
      IngestStep(arts, n, clean, info);
      assert k in Ingest(arts, clean, info) <==> Key(arts[n], clean) == Some(k) || k in Ingest(p, clean, info);
      if k in Ingest(p, clean, info) {
        var j :| 0 <= j < |p| && Key(p[j], clean) == Some(k);
        assert p[j] == arts[j];
      }
      if Key(arts[n], clean) != Some(k) && exists j :: 0 <= j < |arts| && Key(arts[j], clean) == Some(k) {
        var j :| 0 <= j < |arts| && Key(arts[j], clean) == Some(k);
        assert p[j] == arts[j];
      }
    }
  }

  /** A later article with the same name overwrites an earlier one: the value comes from the last. */
  lemma {:induction false} IngestLastWins<V>(arts: seq<Article>, clean: string -> string, info: (string, Option<PageWalk.Anchor>) -> V, k: string, j: nat)
    requires LastWith(arts, clean, k, j)
    ensures k in Ingest(arts, clean, info)
    ensures Ingest(arts, clean, info)[k] == info(arts[j].title.value, arts[j].link)
    decreases |arts|
  {
    var p := arts[..|arts| - 1];
    if j < |arts| - 1 {
      assert forall i :: 0 <= i < |p| ==> p[i] == arts[i];
      assert LastWith(p, clean, k, j);
      IngestLastWins(p, clean, info, k, j);
    }
  }

  /** The articles of a loaded page: the first lookup's, or the second's when the first finds none. */
  function Articles(page: Page): (arts: seq<Article>)
    requires page.Loaded?
    ensures arts == (if page.primary != [] then page.primary else page.fallback)
  {
    if page.primary != [] then page.primary else page.fallback
  }

  /** `articles[:50]`. */
  function Capped(arts: seq<Article>): (c: seq<Article>)
    ensures |c| == if |arts| < Limit then |arts| else Limit
    ensures c == arts[..|c|]
  {
    if |arts| < Limit then arts else arts[..Limit]
  }

  /** `WeadownScraper.scrape_plugins`: the dict of the first 50 articles; empty when the request fails. */
  method ScrapeWeadown(page: Page) returns (plugins: map<string, WeadownInfo>)
    ensures page.Failed? ==> plugins == map[]
    ensures page.Loaded? ==> plugins == Ingest(Capped(Articles(page)), CleanPluginName, WeadownInfoOf)
  {
    plugins := map[];
    if page.Loaded? {
      var articles := Articles(page);
      var n := if |articles| < Limit then |articles| else Limit;
      for i := 0 to n
        invariant plugins == Ingest(articles[..i], CleanPluginName, WeadownInfoOf)
      {
        var article := articles[i];
        IngestStep(articles, i, CleanPluginName, WeadownInfoOf);
        if article.title.Some? {
          var title := article.title.value;
          var version := ExtractVersionShort(title);
          var downloadUrl := DownloadUrl(article.link);
          var name := CleanPluginName(title);
          if name != "" {
            plugins := plugins[name := WeadownInfo(version, downloadUrl, title)];
          }
        }
      }
      assert Capped(articles) == articles[..n];
    }
  }

  /** `PluginswpScraper.scrape_plugins`: the same loop over its own page, without download URLs. */
  method ScrapePluginswp(page: Page) returns (plugins: map<string, PluginswpInfo>)
    ensures page.Failed? ==> plugins == map[]
    ensures page.Loaded? ==> plugins == Ingest(Capped(Articles(page)), CleanPluginName, PluginswpInfoOf)
  {
    plugins := map[];
    if page.Loaded? {
      var articles := Articles(page);
      var n := if |articles| < Limit then |articles| else Limit;
      for i := 0 to n
        invariant plugins == Ingest(articles[..i], CleanPluginName, PluginswpInfoOf)
      {
        var article := articles[i];
        IngestStep(articles, i, CleanPluginName, PluginswpInfoOf);
        if article.title.Some? {
          var title := article.title.value;
          var version := ExtractVersionShort(title);
          var name := CleanPluginName(title);
          if name != "" {
            plugins := plugins[name := PluginswpInfo(version, title)];
          }
        }
      }
      assert Capped(articles) == articles[..n];
    }
  }

  /** Articles past the fiftieth never reach the dict. */
  lemma CapIgnoresRest(arts: seq<Article>, more: seq<Article>)
    requires |arts| >= Limit
    ensures Capped(arts + more) == Capped(arts)
  {
    assert (arts + more)[..Limit] == arts[..Limit];
  }

  /** Titles of the version-extraction examples. */
  const TitleV := "Plugin Name v1.2.3"
  const TitlePlain := "Plugin Name 2.0.1"
  const TitleWord := "Plugin Name Version 3.5"
  const TitleAbbreviation := "Plugin Name Ver 4.0.0"
  const TitleFourParts := "Plugin Name 1.2.3.4"
  const TitleAbsent := "Plugin Name"

  /** Text without a digit before `a`, where a version starts: the search finds that one. */
  lemma {:induction false} FirstNumberAt(s: string, i: nat, a: nat)
    requires i <= a < |s| && NumberStartsAt(s, a)
    requires forall j :: i <= j < a ==> !IsDigit(s[j])
    ensures FirstNumber(s, i) == Some(a)
    decreases a - i
  {
    if i < a {
      FirstNumberAt(s, i + 1, a);
    }
  }

  /** The version found is the text `v` at `a`, when `a` is the leftmost number and its match ends after `v`. */
  lemma ShortVersionIs(s: string, a: nat, v: string)
    requires FirstNumber(s, 0) == Some(a) && NumberEnd(s, a, 1) == a + |v|
    requires s[a..a + |v|] == v
    ensures ExtractVersionShort(s) == Some(v)
  {
  }

  /** Single digits `d.d` at `a`, ending the text. */
  lemma TwoParts(s: string, a: nat)
    requires a + 3 == |s| && IsDigit(s[a]) && s[a + 1] == '.' && IsDigit(s[a + 2])
    ensures NumberStartsAt(s, a) && NumberEnd(s, a, 1) == |s|
  {
    DigitRunAt(s, a, 1);
    DigitRunAt(s, a + 2, 1);
  }

  /** Single digits `d.d.d` at `a`, followed by the end of the text or by a '.'. */
  lemma ThreeParts(s: string, a: nat)
    requires a + 5 <= |s| && IsDigit(s[a]) && s[a + 1] == '.' && IsDigit(s[a + 2]) && s[a + 3] == '.' && IsDigit(s[a + 4])
    requires a + 5 == |s| || s[a + 5] == '.'
    ensures NumberStartsAt(s, a) && NumberEnd(s, a, 1) == a + 5
  {
    DigitRunAt(s, a, 1);
    DigitRunAt(s, a + 2, 1);
    DigitRunAt(s, a + 4, 1);
  }

  lemma VersionAfterVNumber()
    ensures FirstNumber(TitleV, 0) == Some(13) && NumberEnd(TitleV, 13, 1) == 18
  {
    var s := TitleV;
    ThreeParts(s, 13);
    assert forall j :: 0 <= j < 13 ==> !IsDigit(s[j]);
    FirstNumberAt(s, 0, 13);
  }

  lemma VersionAfterVText()
    ensures TitleV[13..18] == "1.2.3"
  {
  }

  /** `_extract_version("Plugin Name v1.2.3") == "1.2.3"`: the `v` is outside the group. */
  lemma VersionAfterV()
    ensures ExtractVersionShort(TitleV) == Some("1.2.3")
  {
    VersionAfterVNumber();
    VersionAfterVText();
    ShortVersionIs(TitleV, 13, "1.2.3");
  }

  lemma VersionPlainNumber()
    ensures FirstNumber(TitlePlain, 0) == Some(12) && NumberEnd(TitlePlain, 12, 1) == 17
  {
    var s := TitlePlain;
    ThreeParts(s, 12);
    assert forall j :: 0 <= j < 12 ==> !IsDigit(s[j]);
    FirstNumberAt(s, 0, 12);
  }

  lemma VersionPlainText()
    ensures TitlePlain[12..17] == "2.0.1"
  {
  }

  /** `_extract_version("Plugin Name 2.0.1") == "2.0.1"`. */
  lemma VersionPlain()
    ensures ExtractVersionShort(TitlePlain) == Some("2.0.1")
  {
    VersionPlainNumber();
    VersionPlainText();
    ShortVersionIs(TitlePlain, 12, "2.0.1");
  }

  lemma VersionAfterWordNumber()
    ensures FirstNumber(TitleWord, 0) == Some(20) && NumberEnd(TitleWord, 20, 1) == 23
  {
    var s := TitleWord;
    TwoParts(s, 20);
    assert forall j :: 0 <= j < 20 ==> !IsDigit(s[j]);
    FirstNumberAt(s, 0, 20);
  }

  lemma VersionAfterWordText()
    ensures TitleWord[20..23] == "3.5"
  {
  }

  /** `_extract_version("Plugin Name Version 3.5") == "3.5"`: found by the first pattern already. */
  lemma VersionAfterWord()
    ensures ExtractVersionShort(TitleWord) == Some("3.5")
  {
    VersionAfterWordNumber();
    VersionAfterWordText();
    ShortVersionIs(TitleWord, 20, "3.5");
  }

  lemma VersionAfterAbbreviationNumber()
    ensures FirstNumber(TitleAbbreviation, 0) == Some(16) && NumberEnd(TitleAbbreviation, 16, 1) == 21
  {
    var s := TitleAbbreviation;
    ThreeParts(s, 16);
    assert forall j :: 0 <= j < 16 ==> !IsDigit(s[j]);
    FirstNumberAt(s, 0, 16);
  }

  lemma VersionAfterAbbreviationText()
    ensures TitleAbbreviation[16..21] == "4.0.0"
  {
  }

  /** `_extract_version("Plugin Name Ver 4.0.0") == "4.0.0"`. */
  lemma VersionAfterAbbreviation()
    ensures ExtractVersionShort(TitleAbbreviation) == Some("4.0.0")
  {
    VersionAfterAbbreviationNumber();
    VersionAfterAbbreviationText();
    ShortVersionIs(TitleAbbreviation, 16, "4.0.0");
  }

  lemma VersionFourPartsNumber()
    ensures FirstNumber(TitleFourParts, 0) == Some(12) && NumberEnd(TitleFourParts, 12, 1) == 17
  {
    var s := TitleFourParts;
    ThreeParts(s, 12);
    assert forall j :: 0 <= j < 12 ==> !IsDigit(s[j]);
    FirstNumberAt(s, 0, 12);
  }

  lemma VersionFourPartsText()
    ensures TitleFourParts[12..17] == "1.2.3"
  {
  }

  /** `_extract_version("Plugin Name 1.2.3.4") == "1.2.3"`: one optional group only. */
  lemma VersionFourParts()
    ensures ExtractVersionShort(TitleFourParts) == Some("1.2.3")
  {
    VersionFourPartsNumber();
    VersionFourPartsText();
    ShortVersionIs(TitleFourParts, 12, "1.2.3");
  }

  /** `_extract_version("Plugin Name")` is None. */
  lemma VersionAbsent()
    ensures ExtractVersionShort(TitleAbsent) == None
  {
    var s := TitleAbsent;
    assert forall j :: 0 <= j < |s| ==> !IsDigit(s[j]);
  }

  /** Title of the example showing that `_clean_plugin_name` ignores word boundaries. */
  const TitleInside := "Super Professional"
  const Cleaned := "Superfessional"

  lemma InsideNumbers()
    ensures RemoveNumbers(TitleInside, 0, 1) == TitleInside
  {
    var s := TitleInside;
    assert forall j :: 0 <= j < |s| ==> !IsDigit(s[j]);
    KeepNonDigits(s, 0, |s|, 1);
    assert s[0..|s|] == s;
  }

  lemma InsideMatch(words: seq<string>)
    requires NoiseWords(words) && words != [] && words[0] == "pro"
    ensures SpacedWordAt(TitleInside, 5, words) == Some(9)
  {
    var s := TitleInside;
    assert SpaceRunEnd(s, 5) == 6 && SpaceRunEnd(s, 9) == 9;
    StartsWithWordChars(s, 6, "pro");
    assert FirstWordFrom(s, 6, words) == Some(3);
  }

  lemma InsideHead(words: seq<string>)
    requires NoiseWords(words)
    ensures RemoveSpacedWords(TitleInside, 0, words) == TitleInside[..5] + RemoveSpacedWords(TitleInside, 5, words)
  {
    NoBlankKeep(TitleInside, 0, 5, words);
  }

  lemma InsideTail(words: seq<string>)
    requires NoiseWords(words)
    ensures RemoveSpacedWords(TitleInside, 9, words) == TitleInside[9..]
  {
    var s := TitleInside;
    NoBlankKeep(s, 9, |s|, words);
  }

  lemma InsideSpaced(words: seq<string>)
    requires NoiseWords(words) && words != [] && words[0] == "pro"
    ensures RemoveSpacedWords(TitleInside, 0, words) == TitleInside[..5] + TitleInside[9..]
  {
    InsideHead(words);
    InsideMatch(words);
    InsideTail(words);
  }

  lemma InsideJoined()
    ensures TitleInside[..5] + TitleInside[9..] == Cleaned
  {
  }

  lemma InsideLower()
    ensures Lower(Cleaned) == "superfessional"
  {
  }

  lemma InsideStrip()
    ensures Strip(Cleaned, {' ', '-', '–', '|'}) == Cleaned
  {
    StripIdempotent(Cleaned, {' ', '-', '–', '|'});
  }

  lemma CleanInsideWord(words: seq<string>)
    requires NoiseWords(words) && words != [] && words[0] == "pro"
    ensures CleanNameShort(TitleInside, words) == "superfessional"
  {
    InsideNumbers();
    InsideSpaced(words);
    InsideJoined();
    InsideStrip();
    CleanNameShortStages(TitleInside, words, TitleInside, Cleaned, Cleaned);
    InsideLower();
  }

  /** `_clean_plugin_name("Super Professional") == "superfessional"`: "pro" goes even inside a word. */
  lemma CleanPluginNameInsideWord()
    ensures CleanPluginName(TitleInside) == "superfessional"
  {
    NoiseValid();
    assert Noise[0] == "pro";
    CleanInsideWord(Noise);
  }
}
