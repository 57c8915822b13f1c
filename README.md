# ComparadorPlugins in Dafny

ComparadorPlugins checks two WordPress download sites against each other.
It scrapes plugin and theme listings, turns every listing title into a
normalised name and a version, and reconciles the two catalogues. This
project models the core of that pipeline and proves properties of the model:

- **Catalogue comparators** (`comparadores/comparacion_plugins.py`,
  `comparadores/comparacion_temas.py`). Each Weadown record is matched
  greedily against the WordPress records not yet consumed. The best
  candidate is found with a strict `>` running maximum and is accepted at a
  similarity of 0.80 or more. The modules are `Matching`, `Versions`,
  `PluginComparison` and `ThemeComparison`. The two files are identical up to
  names, so they share `Matching` and each has a thin entry module. The
  similarity ratio of `difflib` is a parameter `ratio`, with values in
  [0, 1] and 1 for a non-empty name against itself.
- **Version freshness** (`compare_versions`, module `Versions`). A version is
  split on `.` and each part is read as a number. The two lists are
  zero-padded to the same length and compared lexicographically. When a part
  does not parse, the comparison falls back to string equality.
- **Site scrapers** (`scrapers/*.py`, modules `Normalizer`, `PageWalk`,
  `WeadownPlugins`, `WeadownThemes`, `WpThemes` and `NameCases`).
  - The regular expressions of `extract_version` and `clean_*_name` are
    written as explicit scanners, and the leftmost-match semantics of
    Python's `re` is proved about them.
  - The page loop fetches pages 1..max_pages in order and stops at the first
    404, failure or empty page. Every article whose cleaned name is
    non-empty becomes a record, and records are only ever appended.
- **Dictionary scrapers** (`src/scraper.py`, module `Scraper`).
  `WeadownScraper` and `PluginswpScraper` read one page, look at its first 50
  articles and build a dict keyed by cleaned name. A later article with the
  same name overwrites an earlier one. Their `_extract_version` and
  `_clean_plugin_name` differ from the scrapers/ versions: at most three
  version parts, and noise words removed without word boundaries.
- **Dictionary comparator** (`src/comparator.py`, module `Comparator`). It
  reports every common name whose versions are known and differ, and every
  name only weadown.com lists.
- **Scraper coordinator** (`src/scraper_coordinator.py`, module
  `Coordinator`). This is a class holding a registry of task objects. A task
  goes PENDING -> ACTIVE -> FINISHED | FAILED. The worker pool is a queue of
  submitted tasks, and a separate method runs one of them with the scraper's
  outcome and the clock reading as parameters.

`Wrappers` holds `Option` and `Result`. `Text` holds ASCII lowercasing and
decimal spelling.

## Model

| member | source | states |
|---|---|---|
| Text.ToLower | scrapers/scraper_plugins_weadown.py:47 | an ASCII capital becomes its small letter, every other character stays, and no capital is left |
| Text.Lower | scrapers/scraper_plugins_weadown.py:47 | `lower()`: the same length, and each character lowered on its own |
| Text.LowerIsLowercase | scrapers/scraper_plugins_weadown.py:47 | a lowered text has no capital, lowering twice is lowering once, and only the empty text lowers to "" |
| Text.DecimalValue | scrapers/scraper_plugins_weadown.py:71-72 | the decimal spelling of a page number reads back as that number, so no two page numbers share a spelling |
| Versions.SplitJoin | comparadores/comparacion_plugins.py:27-28 | `split('.')` loses nothing: the parts joined with '.' give the version back, and no part contains '.' |
| Versions.ParseComponent | comparadores/comparacion_plugins.py:27 | `int(x)` succeeds exactly on a non-empty run of digits |
| Versions.ParseAll | comparadores/comparacion_plugins.py:27-28 | the list comprehension succeeds exactly when every part parses, and then gives each part's number in place |
| Versions.Pad | comparadores/comparacion_plugins.py:31-33 | padding keeps the parts, appends only zeros, and reaches the longer length |
| Versions.Lex | comparadores/comparacion_plugins.py:35-40 | list comparison gives 0 exactly for equal lists, 1 exactly when the first component where they differ is larger in the first list, and -1 exactly when it is larger in the second |
| Versions.LexAntisymmetric | comparadores/comparacion_plugins.py:35-40 | swapping the two lists negates the comparison |
| Versions.CompareVersions | comparadores/comparacion_plugins.py:22-23 | a missing version on either side gives DESCONOCIDO |
| Versions.FallbackIsStringEquality | comparadores/comparacion_plugins.py:41-45 | when a part does not parse, the result is IGUAL for equal strings and DESCONOCIDO otherwise |
| Versions.CompareVersionsAntisymmetric | comparadores/comparacion_plugins.py:17-45 | ACTUALIZADO one way exactly when DESACTUALIZADO the other way, and IGUAL is symmetric |
| Versions.CompareVersionsReflexive | comparadores/comparacion_plugins.py:17-45 | a present version is IGUAL to itself |
| VersionExamples.PaddingMakesEqual | comparadores/comparacion_plugins.py:30-33 | "1.2" and "1.2.0" are IGUAL because of the zero padding |
| VersionExamples.ComponentsAreNumbers | comparadores/comparacion_plugins.py:27-36 | "1.10" is ahead of "1.9": parts compare as numbers, not as text |
| Matching.Similarity | comparadores/comparacion_plugins.py:11-15 | a score in [0, 1], 0 when either name is empty, and 1 for a non-empty name against itself ignoring case |
| Matching.SimilarityIgnoresCase | comparadores/comparacion_plugins.py:15 | the score depends only on the lowercased names |
| Matching.Best | comparadores/comparacion_plugins.py:104-119 | the inner scan returns index -1 and 0.0 when no unconsumed candidate scores above 0; otherwise an unconsumed index with the highest score, the first one on ties because of the strict `>` |
| Matching.BestMatch | comparadores/comparacion_plugins.py:104-119 | the WordPress loop with skipped indices computes exactly that scan |
| Matching.Decide | comparadores/comparacion_plugins.py:109-123 | a record is matched exactly when some unconsumed candidate reaches 0.80, and then to the first best-scoring unconsumed candidate |
| Matching.Decisions | comparadores/comparacion_plugins.py:100-123 | one decision per Weadown record, and every matched score lies in [0.80, 1] |
| Matching.DecisionsPrefix | comparadores/comparacion_plugins.py:102-123 | a record's decision never depends on the records after it |
| Matching.DecisionIsGreedy | comparadores/comparacion_plugins.py:102-123 | the k-th decision is `Decide` over the candidates the first k records did not consume |
| Matching.EachCandidateConsumedOnce | comparadores/comparacion_plugins.py:110-123 | two matched Weadown records never share a WordPress record |
| Matching.PartitionCounts | comparadores/comparacion_plugins.py:136-151 | exactas, similares and faltantes together hold exactly as many entries as there are Weadown records |
| Matching.OutdatedAreMatches | comparadores/comparacion_plugins.py:141-143 | desactualizados holds exactly the matched records whose state is DESACTUALIZADO |
| Matching.BucketThresholds | comparadores/comparacion_plugins.py:122-139 | every exact pair scores 1.0, and every similar pair scores in [0.80, 1) |
| Matching.BucketsInRange | comparadores/comparacion_plugins.py:136-139 | the bucketing alone keeps every exact score at 1.0 and every similar one in [0.80, 1) |
| Matching.SameNameIsExact | comparadores/comparacion_plugins.py:136-137 | one record on each side with the same name ignoring case gives one exact pair and nothing similar or missing |
| Matching.Compare | comparadores/comparacion_plugins.py:87-151 | nothing is reported when a list is empty; otherwise the four lists are the greedy reconciliation |
| PluginComparison.ComparePlugins | comparadores/comparacion_plugins.py:73-151 | `compare_plugins`: the reconciliation, or none for an empty list, with every Weadown plugin classified once and every entry of desactualizados a matched pair whose state is DESACTUALIZADO |
| ThemeComparison.CompareTemas | comparadores/comparacion_temas.py:73-151 | `compare_temas`: the same reconciliation for themes, with every Weadown theme classified once and every entry of desactualizados a matched pair whose state is DESACTUALIZADO |
| Normalizer.FirstNumber | scrapers/scraper_plugins_weadown.py:20-25 | the leftmost position where `\d+\.\d+` matches, with no match before it |
| Normalizer.SearchFindsFirstNumber | scrapers/scraper_plugins_weadown.py:19-27 | `re.search` of `v?(\d+\.\d+…)` yields the group at the leftmost number, ending where the optional groups greedily stop |
| Normalizer.SecondPatternNeverDecides | scrapers/scraper_plugins_weadown.py:19-27 | the `version\s+…` pattern only runs after the first pattern failed, and then it fails too |
| Normalizer.VersionSpan | scrapers/scraper_plugins_weadown.py:19-29 | the pattern loop finds a group exactly when a number occurs, and it is the leftmost with its greedy end |
| Normalizer.ExtractVersion | scrapers/scraper_plugins_weadown.py:14-29 | "" exactly when no version occurs; otherwise the leftmost version with up to four parts, without its `v` |
| Normalizer.ExtractVersionShort | src/scraper.py:90-103 | None exactly when no version occurs; otherwise the leftmost version with at most three parts |
| Normalizer.KeepNonDigits | scrapers/scraper_plugins_weadown.py:37 | version removal copies a digit-free stretch of the title verbatim |
| Normalizer.WholeWordAtIsFirstAlternative | scrapers/scraper_plugins_weadown.py:40 | the alternation matches at a position exactly when one of its words stands there between two `\b`s, and the first such word wins |
| Normalizer.NoWholeWordNoChange | scrapers/scraper_plugins_weadown.py:40 | where no noise word stands as a whole word, the text is unchanged |
| Normalizer.WordRemovedIffNoise | scrapers/scraper_plugins_weadown.py:40 | a single word is removed exactly when its lowercase is a noise word, and kept unchanged otherwise |
| Normalizer.NonWordKept | scrapers/scraper_plugins_weadown.py:40 | a stretch without word characters is never touched |
| Normalizer.RemoveWholeWordsConcat | scrapers/scraper_plugins_weadown.py:40 | removal works piecewise across a word/non-word transition |
| Normalizer.RemoveWholeWordsByTokens | scrapers/scraper_plugins_weadown.py:40 | a text cut into word and gap tokens loses exactly its noise-word tokens |
| Normalizer.FirstSeparator | scrapers/scraper_plugins_weadown.py:43 | the leftmost blank-flanked '-', '–' or '\|', with none before it |
| Normalizer.Truncate | scrapers/scraper_plugins_weadown.py:43 | everything from the first blank-flanked separator on is dropped, and a text without one is unchanged |
| Normalizer.TruncateLeavesNoSeparator | scrapers/scraper_plugins_weadown.py:43 | a truncated text holds no blank-flanked separator |
| Normalizer.Strip | scrapers/scraper_plugins_weadown.py:46 | neither end of the result is one of the stripped characters |
| Normalizer.StripRuns | scrapers/scraper_plugins_weadown.py:46 | stripping removes exactly the leading and trailing runs of those characters |
| Normalizer.StripIdempotent | scrapers/scraper_plugins_weadown.py:46 | stripping a stripped text changes nothing |
| Normalizer.Words | scrapers/scraper_plugins_weadown.py:47 | `split()` gives non-empty blank-free words, lowercase when the text is |
| Normalizer.JoinWords | scrapers/scraper_plugins_weadown.py:47 | joining words with single blanks gives a tidy text |
| Normalizer.Collapse | scrapers/scraper_plugins_weadown.py:47 | the result is tidy (no blank at either end, no two in a row) and lowercase when the text is |
| Normalizer.CollapseIdempotent | scrapers/scraper_plugins_weadown.py:47 | collapsing a tidy text changes nothing |
| Normalizer.CleanName | scrapers/scraper_plugins_weadown.py:31-49 | an empty title gives ""; every result is lowercase and tidy |
| Normalizer.NoBlankKeep | src/scraper.py:109 | noise removal copies a blank-free stretch verbatim |
| Normalizer.CleanNameShort | src/scraper.py:105-111 | the result is lowercase and neither end is one of ' -–\|' |
| Normalizer.RemoveSpacedWordsShift | src/scraper.py:109 | what the noise substitution does from a position on depends only on the text from there on |
| Normalizer.SpacedNoiseRemoved | src/scraper.py:109 | in `x + blanks + w + blanks + y`, with `x` blank-free, `w` a noise word in any case and `y` not starting with a blank, the blanks, the word and the blanks after it all go: the result is `x` followed by the substitution on `y` |
| Normalizer.BlankRunKept | src/scraper.py:109 | a blank run that no noise word follows is copied unchanged, so inner blanks are not collapsed |
| Normalizer.NoiseWordDropped | src/scraper.py:105-111 | for a title without digits, cutting out a blank-preceded noise word with the blanks around it does not change the cleaned name |
| NameCases.CleanNameCase1 | scrapers/scraper_plugins_weadown.py:31-49 | with "plugin" and "pro" among the noise words, "Plugin Name Pro 1.2.3" cleans to "name" |
| NameCases.CleanNameCase2 | scrapers/scraper_plugins_weadown.py:31-49 | "Something Premium \| Download" cleans to "something" |
| NameCases.CleanNameCase3 | scrapers/scraper_plugins_weadown.py:31-49 | with "plugin" among the noise words, "Test Plugin - WordPress" cleans to "test" |
| NameCases.CleanNameCase4 | scrapers/scraper_temas_weadown.py:31-49 | without "plugin" among the noise words, "Test Plugin - WordPress" cleans to "test plugin" |
| PageWalk.FirstNonEmpty | scrapers/scraper_plugins_weadown.py:86-93 | the fallback chain of `find_all` gives one of the strategies' results, or nothing |
| PageWalk.FirstNonEmptyIsFirst | scrapers/scraper_plugins_weadown.py:86-93 | it is the earliest non-empty result, and empty only when every strategy found nothing |
| PageWalk.FirstHeading | scrapers/scraper_plugins_weadown.py:103-108 | the title lookups give the first element found, and none only when every lookup fails |
| PageWalk.PageUrl | scrapers/scraper_plugins_weadown.py:67-72 | every listing URL starts with site + section, and only page 1 is exactly that |
| PageWalk.PageUrlInjective | scrapers/scraper_plugins_weadown.py:67-72 | distinct pages are fetched at distinct URLs |
| PageWalk.Absolute | scrapers/scraper_plugins_weadown.py:116-118 | an `http` link is kept verbatim, any other one is appended to the site, and the result is absolute |
| PageWalk.UrlOf | scrapers/scraper_plugins_weadown.py:113-118 | "" without a link carrying `href`, otherwise the absolutised `href` |
| PageWalk.ContainerRecord | scrapers/scraper_plugins_weadown.py:100-130 | an article yields a record exactly when it has a title whose cleaned name is non-empty, and the record holds that name, the title's version, its URL and the raw title |
| PageWalk.PageRecords | scrapers/scraper_plugins_weadown.py:100-134 | the records of a page are no more than its articles |
| PageWalk.PageRecordsWellFormed | scrapers/scraper_plugins_weadown.py:100-130 | every record of a page is well formed: a non-empty cleaned name, its title's version, an absolute or empty URL |
| PageWalk.WalkWellFormed | scrapers/scraper_plugins_weadown.py:67-147 | every record of the whole walk is well formed |
| PageWalk.WalkStopsAtFirstFailure | scrapers/scraper_plugins_weadown.py:78-96 | no page after the first 404, failure or empty page is ever read |
| PageWalk.WalkPrefix | scrapers/scraper_plugins_weadown.py:124-130 | records are only appended: the walk of fewer pages is a prefix of the walk of more |
| PageWalk.WalkAppend | scrapers/scraper_plugins_weadown.py:67-130 | pages that load contribute their records one after the other, in page order |
| PageWalk.Pages | scrapers/scraper_plugins_weadown.py:67-72 | pages 1..max_pages are fetched at their listing URLs, and none when max_pages < 1 |
| PageWalk.ScrapeArticles | scrapers/scraper_plugins_weadown.py:100-134 | the article loop appends exactly the page's records, in order |
| PageWalk.Scrape | scrapers/scraper_plugins_weadown.py:51-147 | the page loop returns the walk of the fetched pages, and every record is well formed |
| WeadownPlugins.CleanPluginName | scrapers/scraper_plugins_weadown.py:31-49 | an empty title gives ""; the name is lowercase and tidy |
| WeadownPlugins.ScrapePlugins | scrapers/scraper_plugins_weadown.py:51-147 | `scrape_plugins_weadown`: the walk of weadown.com's plugin pages, all records well formed |
| WeadownPlugins.CleanPluginNameCase1 | scrapers/scraper_plugins_weadown.py:31-49 | "Plugin Name Pro 1.2.3" cleans to "name" |
| WeadownPlugins.CleanPluginNameCase2 | scrapers/scraper_plugins_weadown.py:31-49 | "Something Premium \| Download" cleans to "something" |
| WeadownPlugins.CleanPluginNameCase3 | scrapers/scraper_plugins_weadown.py:31-49 | "Test Plugin - WordPress" cleans to "test" |
| WeadownThemes.CleanThemeName | scrapers/scraper_temas_weadown.py:31-49 | an empty title gives ""; the name is lowercase and tidy |
| WeadownThemes.ScrapeThemes | scrapers/scraper_temas_weadown.py:51-147 | `scrape_temas_weadown`: the walk of weadown.com's theme pages, all records well formed |
| WeadownThemes.CleanThemeNameCase | scrapers/scraper_temas_weadown.py:40 | "plugin" is no noise word for themes: "Test Plugin - WordPress" cleans to "test plugin" |
| WpThemes.CleanThemeName | scrapers/scraper_temas_wp.py:31-49 | an empty title gives ""; the name is lowercase and tidy |
| WpThemes.ScrapeThemes | scrapers/scraper_temas_wp.py:51-146 | `scrape_temas_wp`: the walk of plugins-wp.online's theme pages, all records well formed |
| WpThemes.CleanThemeNameCase | scrapers/scraper_temas_wp.py:40 | "Test Plugin - WordPress" cleans to "test plugin" |
| Scraper.CleanPluginName | src/scraper.py:105-111 | `_clean_plugin_name`: lowercase, and neither end is one of ' -–\|' |
| Scraper.CleanPluginNameDropsNoise | src/scraper.py:105-111 | for a title without digits, "pro", "premium", "nulled", "free" or "download" after blanks, in any case, is cut out with the blanks around it before the name is lowercased and stripped |
| Scraper.DownloadUrl | src/scraper.py:64-68 | a URL exactly when the first link has an `href`; an empty `href` or one starting with "http" is kept as it is, and any other one becomes `BASE_URL` followed by that `href` |
| Scraper.Key | src/scraper.py:54-73 | an article gives a dict key exactly when it has a title with a non-empty cleaned name, and the key is that name |
| Scraper.Ingest | src/scraper.py:73-78 | the empty name is never a key |
| Scraper.IngestKeys | src/scraper.py:51-78 | the dict's keys are exactly the articles' non-empty cleaned names |
| Scraper.IngestLastWins | src/scraper.py:73-78 | for a repeated name the value comes from the last article with that name |
| Scraper.Articles | src/scraper.py:43-47 | the primary selector's articles, or the fallback's when it finds none |
| Scraper.Capped | src/scraper.py:51 | `articles[:50]`: the first 50 articles, or all of them when there are fewer |
| Scraper.CapIgnoresRest | src/scraper.py:51 | articles after the fiftieth never reach the dict |
| Scraper.ScrapeWeadown | src/scraper.py:25-88 | an empty dict when the request fails, otherwise the dict of the first 50 articles |
| Scraper.ScrapePluginswp | src/scraper.py:125-180 | the same for pluginswp.online, without download URLs |
| Scraper.VersionAfterV | src/scraper.py:94 | `_extract_version("Plugin Name v1.2.3")` is "1.2.3": the `v` is not in the group |
| Scraper.VersionPlain | src/scraper.py:94 | "Plugin Name 2.0.1" gives "2.0.1" |
| Scraper.VersionAfterWord | src/scraper.py:94-95 | "Plugin Name Version 3.5" gives "3.5", found by the first pattern already |
| Scraper.VersionAfterAbbreviation | src/scraper.py:94 | "Plugin Name Ver 4.0.0" gives "4.0.0" |
| Scraper.VersionFourParts | src/scraper.py:94 | "Plugin Name 1.2.3.4" gives "1.2.3": only one optional group |
| Scraper.VersionAbsent | src/scraper.py:98-103 | "Plugin Name" gives None |
| Scraper.CleanPluginNameInsideWord | src/scraper.py:109 | "Super Professional" cleans to "superfessional": with no `\b`, "pro" is removed inside a word |
| Comparator.Reported | src/comparator.py:27-64 | the reported names: every weadown.com-only name, and a common name exactly when both versions are known and differ |
| Comparator.Entry | src/comparator.py:46-64 | a reported name's entry carries both versions, or "Not found" for a weadown.com-only name, plus weadown.com's link and title |
| Comparator.Compare | src/comparator.py:13-67 | `compare` lists every reported name once, each with its entry, and nothing else |
| Comparator.DistinctCount | src/comparator.py:37-64 | entries with distinct names are as many as their names |
| Comparator.ReportSize | src/comparator.py:13-67 | a report has one entry per changed common name plus one per weadown.com-only name, and is empty for an empty weadown.com dict |
| Coordinator.TaskState.Value | src/scraper_coordinator.py:13-18 | each state has its own string value |
| Coordinator.ScraperTask.constructor | src/scraper_coordinator.py:21-31 | a new task is PENDING, with no data, a count of zero, no timestamp and no error |
| Coordinator.ScraperCoordinator.constructor | src/scraper_coordinator.py:37-40 | an empty registry, nothing submitted |
| Coordinator.ScraperCoordinator.RegisterTask | src/scraper_coordinator.py:42-50 | a fresh PENDING task replaces whatever was registered under the id |
| Coordinator.ScraperCoordinator.ExecuteTask | src/scraper_coordinator.py:52-65 | an unknown id is an error; an ACTIVE task is left alone; otherwise the task becomes ACTIVE and is submitted once, keeping its old data; no other task changes |
| Coordinator.ScraperCoordinator.PerformScrape | src/scraper_coordinator.py:67-80 | success stores the data with its size, FINISHED and the time; an exception gives FAILED with its message and keeps the old data |
| Coordinator.ScraperCoordinator.GetTaskInfo | src/scraper_coordinator.py:82-93 | none exactly for an unknown id, otherwise the task's state value, count, timestamp and error |
| Coordinator.ScraperCoordinator.GetAllStatus | src/scraper_coordinator.py:95-100 | one snapshot per registered id, and no other key |
| Coordinator.ScraperCoordinator.RetrieveData | src/scraper_coordinator.py:102-106 | the task's data, or an empty dict for an unknown id |
| Coordinator.RegisteredTasksArePending | tests/test_scrapers.py:45-51 | two registered tasks are both reported pending, and nothing else is in the status |
| Coordinator.ExecuteTwice | src/scraper_coordinator.py:52-65 | the first execution starts the task, the second returns False, and an unknown id is an error |
| Coordinator.RestartAfterFailure | src/scraper_coordinator.py:59-80 | a failed task reports FAILED and can be started again, still showing its old error |
| Coordinator.FinishedTaskReportsItems | src/scraper_coordinator.py:73-93 | a finished task reports the size of its data and the completion time, and returns the data |

## Left out

- HTTP, HTML parsing, `time.sleep`, the requests session and logging are not modelled. A fetched page is an abstract outcome: a loaded page is given as what each `find_all` strategy returns, and an article as the results of its title and link lookups.
- Matching.Similarity: `difflib.SequenceMatcher.ratio()` is a parameter known only to lie in [0, 1] and to give 1 for a non-empty string against itself. Scores are `real`, not floating point.
- The percentage text `f"{best_similarity:.2%}"`, and loading and saving CSV files, are not modelled. The comparators work on record lists, and the result is the four lists.
- Versions.CompareVersions requires plain versions: printable ASCII without '+', '-' or '_'. Python's `int()` also accepts blanks, signs, underscores and non-ASCII digits, and those cases are not modelled.
- Text.Lower lowercases ASCII only. Python's `str.lower` and `re.IGNORECASE` also fold non-ASCII letters.
- Normalizer: the regex classes `\s`, `\d` and `\b` are read as ASCII. `\s` is the blank ' ' only, so tabs and newlines are not modelled; `\d` is '0'..'9'; `\w` is ASCII letters, digits and '_'.
- The threads of the coordinator's `ThreadPoolExecutor` and `shutdown` are not modelled. Submitted work is the `running` queue, which `PerformScrape` serves in any order.
- The scraper class passed to `register_task` is a name, and the outcome of one scrape run is a parameter. The coordinator calls `scrape_plugins(max_pages=...)`, but the `scrape_plugins` methods of src/scraper.py take no such argument. With those classes every run therefore ends FAILED with a `TypeError`; the model allows any outcome.
- `datetime.now()` is a parameter `now`.
- The default arguments `pages=5` of `register_task` and `page_limit=5` of `ScraperTask` are not modelled: Dafny has no default parameters, so every caller passes the page limit.
- `retrieve_data` returns the task's own dict object. The model returns its value, so a caller's later mutation of that dict is not modelled.
- The CLI, the Flask app, SQLite storage, e-mail notification, configuration and `run_all.py` are not part of this model.
- Of the site scrapers' records, only `nombre`, `version`, `url` and `titulo_original` are modelled, and these are all they have.

## Notes

- `register_task` replaces whatever task is registered under the id, including one that is still ACTIVE (Coordinator.ScraperCoordinator.RegisterTask).
- `execute_task` refuses only an ACTIVE task, so a FINISHED task can be executed again (Coordinator.ScraperCoordinator.ExecuteTask).
- The page loop of the site scrapers stops at the first 404, failed request or empty page. It has no stop for a page that brings no new records (PageWalk.WalkStopsAtFirstFailure).
- test_scrapers.py:129 expects "1.2.3.4" from "Plugin Name 1.2.3.4". `_extract_version` has a single optional group and gives "1.2.3", and Scraper.VersionFourParts models the code.
- tests/test_scrapers.py imports classes and helpers (`ThemeScraperForWeadown`, `BaseScraper`, `_build_page_url`) that src/scraper.py does not define. Its name-cleaning cases are stated instead for the scrapers/ cleaner, whose noise words match them (NameCases, WeadownPlugins).
