/**
 * src/comparator.py: `PluginComparator.compare`, which reports the plugins
 * whose version differs between the two dicts built by src/scraper.py, and
 * the plugins that only weadown.com lists.
 *
 * Python iterates over sets in an unspecified order; the model picks the
 * names in any order, and its contract speaks of the report as a set of
 * entries with distinct names.
 */
module Comparator {
  import opened Wrappers
  import opened Scraper

  /** One entry of `differences`. */
  datatype Difference = Difference(
    name: string,
    weadownVersion: Option<string>,
    pluginswpVersion: string,
    downloadUrl: Option<string>,
    rawTitle: string)

  /** What the report shows for a plugin pluginswp.online does not list. */
  const NotFound := "Not found"

  /** A version Python treats as true: present and non-empty. */
  predicate Truthy(v: Option<string>) {
    v.Some? && v.value != ""
  }

  /** Both versions are known and they differ. */
  predicate Differs(w: WeadownInfo, p: PluginswpInfo) {
    Truthy(w.version) && Truthy(p.version) && w.version != p.version
  }

  /** The names the report must hold: the common ones with differing versions, and those only weadown.com lists. */
  function Reported(weadown: map<string, WeadownInfo>, pluginswp: map<string, PluginswpInfo>): (r: set<string>)
    ensures r <= weadown.Keys
    ensures forall n :: n in weadown && n !in pluginswp ==> n in r
    ensures forall n :: n in weadown && n in pluginswp ==> (n in r <==> Differs(weadown[n], pluginswp[n]))
  {
    set n | n in weadown && (n in pluginswp ==> Differs(weadown[n], pluginswp[n]))
  }

  /** The common names with differing versions. */
  function Changed(weadown: map<string, WeadownInfo>, pluginswp: map<string, PluginswpInfo>): set<string> {
    set n | n in weadown && n in pluginswp && Differs(weadown[n], pluginswp[n])
  }

  /** The entry a reported name gets: both versions for a common name, "Not found" otherwise, and weadown.com's link and title. */
  function Entry(weadown: map<string, WeadownInfo>, pluginswp: map<string, PluginswpInfo>, n: string): (d: Difference)
    requires n in Reported(weadown, pluginswp)
    ensures d.name == n && d.weadownVersion == weadown[n].version
    ensures d.downloadUrl == weadown[n].downloadUrl && d.rawTitle == weadown[n].rawTitle
    ensures n in pluginswp ==> Some(d.pluginswpVersion) == pluginswp[n].version && Truthy(d.weadownVersion)
    ensures n !in pluginswp ==> d.pluginswpVersion == NotFound
  {
    var w := weadown[n];
    var v := if n in pluginswp then pluginswp[n].version.value else NotFound;
    Difference(n, w.version, v, w.downloadUrl, w.rawTitle)
  }

  /** The entries of `ds` have distinct names. */
  predicate Distinct(ds: seq<Difference>) {
    forall i, j :: 0 <= i < j < |ds| ==> ds[i].name != ds[j].name
  }

  /** `ds` lists exactly the reported names among `done`, each once, each with its entry. */
  predicate Lists(ds: seq<Difference>, weadown: map<string, WeadownInfo>, pluginswp: map<string, PluginswpInfo>, done: set<string>) {
    && Distinct(ds)
    && (forall i :: 0 <= i < |ds| ==>
          ds[i].name in done && ds[i].name in Reported(weadown, pluginswp) && ds[i] == Entry(weadown, pluginswp, ds[i].name))
    && (forall n :: n in done && n in Reported(weadown, pluginswp) ==> exists i :: 0 <= i < |ds| && ds[i].name == n)
  }

  /** `ds` is a complete report: every reported name once, with its entry, and nothing else. */
  predicate IsReport(ds: seq<Difference>, weadown: map<string, WeadownInfo>, pluginswp: map<string, PluginswpInfo>) {
    && Distinct(ds)
    && (forall i :: 0 <= i < |ds| ==> ds[i].name in Reported(weadown, pluginswp) && ds[i] == Entry(weadown, pluginswp, ds[i].name))
    && (forall n :: n in Reported(weadown, pluginswp) ==> exists i :: 0 <= i < |ds| && ds[i].name == n)
  }

  /** Appending the entry of a new reported name keeps the listing. */
  lemma ListsAdd(ds: seq<Difference>, weadown: map<string, WeadownInfo>, pluginswp: map<string, PluginswpInfo>, done: set<string>, n: string)
    requires Lists(ds, weadown, pluginswp, done) && n !in done && n in Reported(weadown, pluginswp)
    ensures Lists(ds + [Entry(weadown, pluginswp, n)], weadown, pluginswp, done + {n})
  {
    var ds' := ds + [Entry(weadown, pluginswp, n)];
    forall m | m in done + {n} && m in Reported(weadown, pluginswp)
      ensures exists i :: 0 <= i < |ds'| && ds'[i].name == m
    {
      if m == n {
        assert ds'[|ds|].name == m;
      } else {
        var i :| 0 <= i < |ds| && ds[i].name == m;
        assert ds'[i].name == m;
      }
    }
  }

  /** A name that is not reported changes nothing. */
  lemma ListsSkip(ds: seq<Difference>, weadown: map<string, WeadownInfo>, pluginswp: map<string, PluginswpInfo>, done: set<string>, n: string)
    requires Lists(ds, weadown, pluginswp, done) && n !in Reported(weadown, pluginswp)
    ensures Lists(ds, weadown, pluginswp, done + {n})
  {
  }

  /** `PluginComparator.compare`: the common names first, then the weadown.com-only ones. */
  method Compare(weadown: map<string, WeadownInfo>, pluginswp: map<string, PluginswpInfo>) returns (differences: seq<Difference>)
    ensures IsReport(differences, weadown, pluginswp)
  {
    differences := [];
    var common := weadown.Keys * pluginswp.Keys;
    var remaining := common;
    while remaining != {}
      invariant remaining <= common
      invariant Lists(differences, weadown, pluginswp, common - remaining)
      decreases remaining
    {
      var name :| name in remaining;
      var weadownData, pluginswpData := weadown[name], pluginswp[name];
      var weadownVersion, pluginswpVersion := weadownData.version, pluginswpData.version;
      if Truthy(weadownVersion) && Truthy(pluginswpVersion) && weadownVersion != pluginswpVersion {
        ListsAdd(differences, weadown, pluginswp, common - remaining, name);
        differences := differences + [Difference(name, weadownVersion, pluginswpVersion.value, weadownData.downloadUrl, weadownData.rawTitle)];
      } else {
        ListsSkip(differences, weadown, pluginswp, common - remaining, name);
      }
      assert common - (remaining - {name}) == (common - remaining) + {name};
      remaining := remaining - {name};
    }
    var onlyInWeadown := weadown.Keys - pluginswp.Keys;
    remaining := onlyInWeadown;
    while remaining != {}
      invariant remaining <= onlyInWeadown
      invariant Lists(differences, weadown, pluginswp, common + (onlyInWeadown - remaining))
      decreases remaining
    {
      var name :| name in remaining;
      var weadownData := weadown[name];
      ListsAdd(differences, weadown, pluginswp, common + (onlyInWeadown - remaining), name);
      differences := differences + [Difference(name, weadownData.version, NotFound, weadownData.downloadUrl, weadownData.rawTitle)];
      assert common + (onlyInWeadown - (remaining - {name})) == common + (onlyInWeadown - remaining) + {name};
      remaining := remaining - {name};
    }
    assert common + (onlyInWeadown - remaining) == weadown.Keys;
    ListsComplete(differences, weadown, pluginswp);
  }

  /** A listing of all of weadown.com's names is the complete report. */
  lemma ListsComplete(ds: seq<Difference>, weadown: map<string, WeadownInfo>, pluginswp: map<string, PluginswpInfo>)
    requires Lists(ds, weadown, pluginswp, weadown.Keys)
    ensures IsReport(ds, weadown, pluginswp)
  {
  }

  /** The names of a list of entries. */
  function Names(ds: seq<Difference>): set<string> {
    set i | 0 <= i < |ds| :: ds[i].name
  }

  /** Entries with distinct names are as many as their names. */
  lemma {:induction false} DistinctCount(ds: seq<Difference>)
    requires Distinct(ds)
    ensures |Names(ds)| == |ds|
    decreases |ds|
  {
    if ds != [] {
      var p := ds[..|ds| - 1];
      DistinctCount(p);
      assert Names(ds) == Names(p) + {ds[|ds| - 1].name} by {
        forall n | n in Names(ds) ensures n in Names(p) + {ds[|ds| - 1].name} {
          var i :| 0 <= i < |ds| && ds[i].name == n;
          if i < |ds| - 1 { assert p[i].name == n; }
        }
        forall n | n in Names(p) ensures n in Names(ds) {
          var i :| 0 <= i < |p| && p[i].name == n;
          assert ds[i].name == n;
        }
      }
      assert ds[|ds| - 1].name !in Names(p) by {
        forall i | 0 <= i < |p| ensures p[i].name != ds[|ds| - 1].name {
          assert p[i] == ds[i];
        }
      }
    }
  }

  /** A complete listing's names are the reported names. */
  lemma NamesOfReport(weadown: map<string, WeadownInfo>, pluginswp: map<string, PluginswpInfo>, ds: seq<Difference>)
    requires forall i :: 0 <= i < |ds| ==> ds[i].name in Reported(weadown, pluginswp)
    requires forall n :: n in Reported(weadown, pluginswp) ==> exists i :: 0 <= i < |ds| && ds[i].name == n
    ensures Names(ds) == Reported(weadown, pluginswp)
  {
    forall n | n in Reported(weadown, pluginswp) ensures n in Names(ds) {
      var i :| 0 <= i < |ds| && ds[i].name == n;
    }
  }

  /** The reported names split into the changed common ones and the weadown.com-only ones. */
  lemma ReportedSize(weadown: map<string, WeadownInfo>, pluginswp: map<string, PluginswpInfo>)
    ensures |Reported(weadown, pluginswp)| == |Changed(weadown, pluginswp)| + |weadown.Keys - pluginswp.Keys|
  {
    var r, c, o := Reported(weadown, pluginswp), Changed(weadown, pluginswp), weadown.Keys - pluginswp.Keys;
    assert r == c + o;
    assert c * o == {};
  }

  /**
   * A complete report has one entry per changed common name plus one per
   * weadown.com-only name; in particular an empty weadown.com dict gives an
   * empty report.
   */
  lemma ReportSize(weadown: map<string, WeadownInfo>, pluginswp: map<string, PluginswpInfo>, ds: seq<Difference>)
    requires IsReport(ds, weadown, pluginswp)
    ensures |ds| == |Changed(weadown, pluginswp)| + |weadown.Keys - pluginswp.Keys|
    ensures weadown == map[] ==> ds == []
  {
    DistinctCount(ds);
    NamesOfReport(weadown, pluginswp, ds);
    ReportedSize(weadown, pluginswp);
    if weadown == map[] {
      assert Reported(weadown, pluginswp) == {};
    }
  }
}
