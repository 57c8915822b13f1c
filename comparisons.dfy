/**
 * The two comparator scripts, `compare_plugins` and `compare_temas`, are the
 * same matcher over different files; each entry point below runs the shared
 * matcher on the rows of its two catalogue files and promises the bucket
 * properties the scripts report in their summaries.
 */
module PluginComparison {
  import opened Wrappers
  import opened Matching
  import opened Versions

  /** `compare_plugins` on the rows of plugins_wp.csv and plugins_weadown.csv. */
  method ComparePlugins(ratio: Ratio, pluginsWp: seq<Item>, pluginsWeadown: seq<Item>) returns (result: Option<Comparison>)
    requires PlainVersions(pluginsWp) && PlainVersions(pluginsWeadown)
    ensures result.None? <==> pluginsWp == [] || pluginsWeadown == []
    ensures result.Some? ==> result.value == Reconciliation(ratio, pluginsWp, pluginsWeadown)
    ensures result.Some? ==> |result.value.exact| + |result.value.similar| + |result.value.missing| == |pluginsWeadown|
    ensures result.Some? ==> forall r :: r in result.value.outdated ==>
      (r in result.value.exact || r in result.value.similar) && r.state == Outdated
  {
    result := Compare(ratio, pluginsWp, pluginsWeadown);
    if result.Some? {
      var os := Outcomes(ratio, pluginsWp, pluginsWeadown);
      PartitionCounts(os);
      forall r | r in result.value.outdated
        ensures (r in result.value.exact || r in result.value.similar) && r.state == Outdated
      {
        OutdatedAreMatches(os, r);
      }
    }
  }
}

module ThemeComparison {
  import opened Wrappers
  import opened Matching
  import opened Versions

  /** `compare_temas` on the rows of temas_wp.csv and temas_weadown.csv. */
  method CompareTemas(ratio: Ratio, temasWp: seq<Item>, temasWeadown: seq<Item>) returns (result: Option<Comparison>)
    requires PlainVersions(temasWp) && PlainVersions(temasWeadown)
    ensures result.None? <==> temasWp == [] || temasWeadown == []
    ensures result.Some? ==> result.value == Reconciliation(ratio, temasWp, temasWeadown)
    ensures result.Some? ==> |result.value.exact| + |result.value.similar| + |result.value.missing| == |temasWeadown|
    ensures result.Some? ==> forall r :: r in result.value.outdated ==>
      (r in result.value.exact || r in result.value.similar) && r.state == Outdated
  {
    result := Compare(ratio, temasWp, temasWeadown);
    if result.Some? {
      var os := Outcomes(ratio, temasWp, temasWeadown);
      PartitionCounts(os);
      forall r | r in result.value.outdated
        ensures (r in result.value.exact || r in result.value.similar) && r.state == Outdated
      {
        OutdatedAreMatches(os, r);
      }
    }
  }
}
