/**
 * scrapers/scraper_plugins_weadown.py: the plugin listing of weadown.com.
 */
module WeadownPlugins {
  import opened Text
  import opened Normalizer
  import opened PageWalk
  import NameCases

  /** The alternatives of the noise-word pattern of `clean_plugin_name`. */
  const Noise: seq<string> := ["pro", "premium", "nulled", "free", "download", "wordpress", "plugin", "version"]

  const Base := "https://weadown.com"
  const Section := "/wordpress-plugins/"

  const Site: Source := Source(Base, Section, Noise, true)

  lemma SiteValid()
    ensures ValidSource(Site)
  {
  }

  /** `clean_plugin_name`. */
  function CleanPluginName(title: string): (name: string)
    ensures title == "" ==> name == ""
    ensures IsLowercase(name) && Tidy(name)
  {
    SiteValid();
    CleanName(title, Noise)
  }

  /** `scrape_plugins_weadown(max_pages)`. */
  method ScrapePlugins(maxPages: int, fetch: string -> PageOutcome) returns (records: seq<Record>)
    ensures records == Walk(Site, Pages(Site, maxPages, fetch))
    ensures forall k :: 0 <= k < |records| ==> WellFormed(Site, records[k])
  {
    SiteValid();
    records := Scrape(Site, maxPages, fetch);
  }

  /** `clean_plugin_name("Plugin Name Pro 1.2.3") == "name"`. */
  lemma CleanPluginNameCase1()
    ensures CleanPluginName(NameCases.T1) == "name"
  {
    SiteValid();
    assert Noise[6] == "plugin" && Noise[0] == "pro";
    NameCases.CleanNameCase1(Noise);
  }

  /** `clean_plugin_name("Something Premium | Download") == "something"`. */
  lemma CleanPluginNameCase2()
    ensures CleanPluginName(NameCases.T2) == "something"
  {
    SiteValid();
    assert Noise[1] == "premium" && Noise[4] == "download";
    NameCases.CleanNameCase2(Noise);
  }

  /** `clean_plugin_name("Test Plugin - WordPress") == "test"`. */
  lemma CleanPluginNameCase3()
    ensures CleanPluginName(NameCases.T3) == "test"
  {
    SiteValid();
    assert Noise[5] == "wordpress" && Noise[6] == "plugin";
    NameCases.CleanNameCase3(Noise);
  }
}

/**
 * scrapers/scraper_temas_weadown.py: the theme listing of weadown.com.
 */
module WeadownThemes {
  import opened Text
  import opened Normalizer
  import opened PageWalk
  import NameCases

  /** The alternatives of the noise-word pattern of `clean_theme_name`. */
  const Noise: seq<string> := ["pro", "premium", "nulled", "free", "download", "wordpress", "theme", "version"]

  const Base := "https://weadown.com"
  const Section := "/wordpress-themes/"

  const Site: Source := Source(Base, Section, Noise, true)

  lemma SiteValid()
    ensures ValidSource(Site)
  {
  }

  /** `clean_theme_name`. */
  function CleanThemeName(title: string): (name: string)
    ensures title == "" ==> name == ""
    ensures IsLowercase(name) && Tidy(name)
  {
    SiteValid();
    CleanName(title, Noise)
  }

  /** `scrape_temas_weadown(max_pages)`. */
  method ScrapeThemes(maxPages: int, fetch: string -> PageOutcome) returns (records: seq<Record>)
    ensures records == Walk(Site, Pages(Site, maxPages, fetch))
    ensures forall k :: 0 <= k < |records| ==> WellFormed(Site, records[k])
  {
    SiteValid();
    records := Scrape(Site, maxPages, fetch);
  }

  /** "plugin" is no noise word for themes: `clean_theme_name("Test Plugin - WordPress") == "test plugin"`. */
  lemma CleanThemeNameCase()
    ensures CleanThemeName(NameCases.T3) == "test plugin"
  {
    SiteValid();
    assert Noise[5] == "wordpress";
    NameCases.CleanNameCase4(Noise);
  }
}

/**
 * scrapers/scraper_temas_wp.py: the WooCommerce theme catalogue of plugins-wp.online; the link is the product's first `<a>` with an `href`.
 */
module WpThemes {
  import opened Text
  import opened Normalizer
  import opened PageWalk
  import NameCases

  /** The alternatives of the noise-word pattern of `clean_theme_name`. */
  const Noise: seq<string> := ["pro", "premium", "nulled", "free", "download", "wordpress", "theme", "version"]

  const Base := "https://plugins-wp.online"
  const Section := "/categoria-producto/temas/"

  const Site: Source := Source(Base, Section, Noise, false)

  lemma SiteValid()
    ensures ValidSource(Site)
  {
  }

  /** `clean_theme_name`. */
  function CleanThemeName(title: string): (name: string)
    ensures title == "" ==> name == ""
    ensures IsLowercase(name) && Tidy(name)
  {
    SiteValid();
    CleanName(title, Noise)
  }

  /** `scrape_temas_wp(max_pages)`. */
  method ScrapeThemes(maxPages: int, fetch: string -> PageOutcome) returns (records: seq<Record>)
    ensures records == Walk(Site, Pages(Site, maxPages, fetch))
    ensures forall k :: 0 <= k < |records| ==> WellFormed(Site, records[k])
  {
    SiteValid();
    records := Scrape(Site, maxPages, fetch);
  }

  /** "plugin" is no noise word for themes: `clean_theme_name("Test Plugin - WordPress") == "test plugin"`. */
  lemma CleanThemeNameCase()
    ensures CleanThemeName(NameCases.T3) == "test plugin"
  {
    SiteValid();
    assert Noise[5] == "wordpress";
    NameCases.CleanNameCase4(Noise);
  }
}
