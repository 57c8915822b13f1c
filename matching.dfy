/**
 * The greedy catalogue matcher shared by `compare_plugins` and `compare_temas`.
 *
 * The Weadown list is walked in order. For each record the not yet consumed WP
 * records are scanned with a strict `>` running maximum that starts at 0.0; a
 * winner scoring at least 0.80 is consumed and the pair is reported as exact
 * (score 1.0) or similar, and as outdated too when the WP version is behind;
 * otherwise the Weadown record is reported as missing from WP.
 */
module Matching {
  import opened Wrappers
  import opened Text
  import opened Versions

  /**
   * `SequenceMatcher(None, a, b).ratio()`, left abstract: a score in [0, 1]
   * that is 1 for a non-empty string against itself.
   */
  type Ratio = f: (string, string) -> real
    | (forall a: string, b: string :: 0.0 <= f(a, b) <= 1.0)
      && (forall a: string :: a != "" ==> f(a, a) == 1.0)
    witness (a: string, b: string) => if a == b then 1.0 else 0.0

  /** The similarity floor of both comparators. */
  const Threshold: real := 0.80

  /** `similarity(a, b)`: 0.0 when either name is empty, else the ratio of the lowercased names. */
  function Similarity(ratio: Ratio, a: string, b: string): (r: real)
    ensures 0.0 <= r <= 1.0
    ensures a == "" || b == "" ==> r == 0.0
    ensures a != "" && Lower(a) == Lower(b) ==> r == 1.0
  {
    LowerIsLowercase(a);
    if a == "" || b == "" then 0.0 else ratio(Lower(a), Lower(b))
  }

  /** The score only depends on the lowercased names. */
  lemma SimilarityIgnoresCase(ratio: Ratio, a: string, b: string, a': string, b': string)
    requires Lower(a) == Lower(a') && Lower(b) == Lower(b')
    ensures Similarity(ratio, a, b) == Similarity(ratio, a', b')
  {
    LowerIsLowercase(a);
    LowerIsLowercase(a');
    LowerIsLowercase(b);
    LowerIsLowercase(b');
  }

  /** One row of a catalogue file: `nombre`, `version` ("" when absent) and `url`. */
  datatype Item = Item(name: string, version: string, url: string)

  /** A row of the exact, similar and outdated outputs. */
  datatype MatchRecord = MatchRecord(
    wpName: string, weadownName: string,
    wpVersion: string, weadownVersion: string,
    wpUrl: string, weadownUrl: string,
    similarity: real, state: Freshness)

  /** A row of the missing output; its `observacion` is always "No encontrado en WP". */
  datatype MissingRecord = MissingRecord(weadownName: string, weadownVersion: string, weadownUrl: string)

  /** The four output lists: `exactas`, `similares`, `desactualizados`, `faltantes`. */
  datatype Comparison = Comparison(
    exact: seq<MatchRecord>, similar: seq<MatchRecord>,
    outdated: seq<MatchRecord>, missing: seq<MissingRecord>)

  predicate PlainVersions(items: seq<Item>) {
    forall k :: 0 <= k < |items| ==> PlainVersion(items[k].version)
  }

  /**
   * The running maximum over the first `n` WP records, skipping the consumed
   * ones: `(best_similarity, best_index)` after `n` turns of the inner loop.
   * The index is -1 exactly when no candidate scored above 0.0; otherwise it is
   * the first unconsumed index reaching the maximum.
   */
  function Best(ratio: Ratio, name: string, wp: seq<Item>, consumed: set<int>, n: nat): (r: (real, int))
    requires n <= |wp|
    ensures r.1 == -1 ==> r.0 == 0.0
    ensures r.1 == -1 ==> forall j :: 0 <= j < n && j !in consumed ==> Similarity(ratio, name, wp[j].name) <= 0.0
    ensures r.1 != -1 ==> 0 <= r.1 < n && r.1 !in consumed
    ensures r.1 != -1 ==> r.0 == Similarity(ratio, name, wp[r.1].name) > 0.0
    ensures r.1 != -1 ==> forall j :: 0 <= j < n && j !in consumed ==> Similarity(ratio, name, wp[j].name) <= r.0
    ensures r.1 != -1 ==> forall j :: 0 <= j < r.1 && j !in consumed ==> Similarity(ratio, name, wp[j].name) < r.0
  {
    if n == 0 then (0.0, -1)
    else
      var prev := Best(ratio, name, wp, consumed, n - 1);
      if n - 1 in consumed then prev
      else
        var s := Similarity(ratio, name, wp[n - 1].name);
        if s > prev.0 then (s, n - 1) else prev
  }

  /** What happened to one Weadown record. */
  datatype Decision = Matched(index: nat, score: real) | Unmatched

  /** One turn of the outer loop, given the indices consumed so far. */
  function Decide(ratio: Ratio, wp: seq<Item>, consumed: set<int>, name: string): (d: Decision)
    ensures d.Matched? ==> d.index < |wp| && d.index !in consumed
    ensures d.Matched? ==> d.score == Similarity(ratio, name, wp[d.index].name) && d.score >= Threshold
    ensures d.Matched? ==> forall j :: 0 <= j < |wp| && j !in consumed ==> Similarity(ratio, name, wp[j].name) <= d.score
    ensures d.Matched? ==> forall j :: 0 <= j < d.index && j !in consumed ==> Similarity(ratio, name, wp[j].name) < d.score
    ensures d.Unmatched? <==> forall j :: 0 <= j < |wp| && j !in consumed ==> Similarity(ratio, name, wp[j].name) < Threshold
  {
    var best := Best(ratio, name, wp, consumed, |wp|);
    if best.0 >= Threshold then Matched(best.1, best.0) else Unmatched
  }

  /** `matched_wp_indices` after the given decisions. */
  function Consumed(ds: seq<Decision>): set<int> {
    set k | 0 <= k < |ds| && ds[k].Matched? :: ds[k].index as int
  }

  /**
   * The decisions of the whole pass: each Weadown record, in list order, is
   * decided against the WP records the earlier ones left unconsumed.
   */
  function Decisions(ratio: Ratio, wp: seq<Item>, wd: seq<Item>): (ds: seq<Decision>)
    ensures |ds| == |wd|
    ensures forall k :: 0 <= k < |ds| && ds[k].Matched? ==> ds[k].index < |wp| && Threshold <= ds[k].score <= 1.0
    decreases |wd|
  {
    if wd == [] then []
    else
      var prev := Decisions(ratio, wp, wd[..|wd| - 1]);
      prev + [Decide(ratio, wp, Consumed(prev), wd[|wd| - 1].name)]
  }

  /** The decisions for a prefix of the Weadown list are a prefix of the decisions. */
  lemma {:induction false} DecisionsPrefix(ratio: Ratio, wp: seq<Item>, wd: seq<Item>, k: nat)
    requires k <= |wd|
    ensures Decisions(ratio, wp, wd[..k]) == Decisions(ratio, wp, wd)[..k]
    decreases |wd|
  {
    if k < |wd| {
      var wd' := wd[..|wd| - 1];
      assert wd'[..k] == wd[..k];
      DecisionsPrefix(ratio, wp, wd', k);
      assert Decisions(ratio, wp, wd)[..|wd| - 1] == Decisions(ratio, wp, wd');
    } else {
      assert wd[..k] == wd;
    }
  }

  /** Record `k` is decided greedily against what records `0 .. k-1` left unconsumed. */
  lemma DecisionIsGreedy(ratio: Ratio, wp: seq<Item>, wd: seq<Item>, k: nat)
    requires k < |wd|
    ensures Decisions(ratio, wp, wd)[k] == Decide(ratio, wp, Consumed(Decisions(ratio, wp, wd)[..k]), wd[k].name)
  {
    DecisionsPrefix(ratio, wp, wd, k + 1);
    DecisionsPrefix(ratio, wp, wd, k);
    var wd' := wd[..k + 1];
    assert wd'[..|wd'| - 1] == wd[..k];
    assert Decisions(ratio, wp, wd)[..k + 1][k] == Decisions(ratio, wp, wd)[k];
  }

  /** No WP record is consumed by two Weadown records. */
  lemma EachCandidateConsumedOnce(ratio: Ratio, wp: seq<Item>, wd: seq<Item>, j: nat, k: nat)
    requires j < k < |wd|
    requires Decisions(ratio, wp, wd)[j].Matched? && Decisions(ratio, wp, wd)[k].Matched?
    ensures Decisions(ratio, wp, wd)[j].index != Decisions(ratio, wp, wd)[k].index
  {
    var ds := Decisions(ratio, wp, wd);
    DecisionIsGreedy(ratio, wp, wd, k);
    assert ds[..k][j] == ds[j];
    assert ds[j].index as int in Consumed(ds[..k]);
  }

  /** Where one Weadown record ends up. */
  datatype Outcome = Exact(record: MatchRecord) | Similar(record: MatchRecord) | Missing(miss: MissingRecord)

  function OutcomeOf(wp: seq<Item>, w: Item, d: Decision): (o: Outcome)
    requires d.Matched? ==> d.index < |wp|
    requires PlainVersions(wp) && PlainVersion(w.version)
  {
    match d
    case Unmatched => Missing(MissingRecord(w.name, w.version, w.url))
    case Matched(i, s) =>
      var p := wp[i];
      var r := MatchRecord(p.name, w.name, p.version, w.version, p.url, w.url, s, CompareVersions(p.version, w.version));
      if s == 1.0 then Exact(r) else Similar(r)
  }

  /** One outcome per Weadown record, in list order. */
  function Outcomes(ratio: Ratio, wp: seq<Item>, wd: seq<Item>): (os: seq<Outcome>)
    requires PlainVersions(wp) && PlainVersions(wd)
    ensures |os| == |wd|
  {
    var ds := Decisions(ratio, wp, wd);
    seq(|wd|, k requires 0 <= k < |wd| => OutcomeOf(wp, wd[k], ds[k]))
  }

  function Exacts(os: seq<Outcome>): seq<MatchRecord> {
    if os == [] then [] else Exacts(os[..|os| - 1]) + (if os[|os| - 1].Exact? then [os[|os| - 1].record] else [])
  }

  function Similars(os: seq<Outcome>): seq<MatchRecord> {
    if os == [] then [] else Similars(os[..|os| - 1]) + (if os[|os| - 1].Similar? then [os[|os| - 1].record] else [])
  }

  function Missings(os: seq<Outcome>): seq<MissingRecord> {
    if os == [] then [] else Missings(os[..|os| - 1]) + (if os[|os| - 1].Missing? then [os[|os| - 1].miss] else [])
  }

  /** `desactualizados`: the matched records, in order, whose state is "DESACTUALIZADO". */
  function OutdatedOf(os: seq<Outcome>): seq<MatchRecord> {
    if os == [] then []
    else
      var o := os[|os| - 1];
      OutdatedOf(os[..|os| - 1]) + (if !o.Missing? && o.record.state == Outdated then [o.record] else [])
  }

  function Classify(os: seq<Outcome>): Comparison {
    Comparison(Exacts(os), Similars(os), OutdatedOf(os), Missings(os))
  }

  /** The whole comparison of `compare_plugins` / `compare_temas`, as a value. */
  function Reconciliation(ratio: Ratio, wp: seq<Item>, wd: seq<Item>): Comparison
    requires PlainVersions(wp) && PlainVersions(wd)
  {
    Classify(Outcomes(ratio, wp, wd))
  }

  /** Every Weadown record lands in exactly one of the exact, similar and missing lists. */
  lemma {:induction false} PartitionCounts(os: seq<Outcome>)
    ensures |Exacts(os)| + |Similars(os)| + |Missings(os)| == |os|
  {
    if os != [] {
      PartitionCounts(os[..|os| - 1]);
    }
  }

  /** The outdated list holds exactly the exact or similar records whose state is "DESACTUALIZADO". */
  lemma {:induction false} OutdatedAreMatches(os: seq<Outcome>, r: MatchRecord)
    ensures r in OutdatedOf(os) <==> (r in Exacts(os) || r in Similars(os)) && r.state == Outdated
  {
    if os != [] {
      OutdatedAreMatches(os[..|os| - 1], r);
    }
  }

  /** Scores of the exact list are 1.0; those of the similar list lie in [0.80, 1.0). */
  lemma BucketThresholds(ratio: Ratio, wp: seq<Item>, wd: seq<Item>)
    requires PlainVersions(wp) && PlainVersions(wd)
    ensures forall r :: r in Reconciliation(ratio, wp, wd).exact ==> r.similarity == 1.0
    ensures forall r :: r in Reconciliation(ratio, wp, wd).similar ==> Threshold <= r.similarity < 1.0
  {
    var os := Outcomes(ratio, wp, wd);
    var ds := Decisions(ratio, wp, wd);
    forall k | 0 <= k < |os|
      ensures InRange(os[k])
    {
      if ds[k].Matched? {
        DecisionIsGreedy(ratio, wp, wd, k);
        assert ds[k].score == Similarity(ratio, wd[k].name, wp[ds[k].index].name);
      }
    }
    BucketsInRange(os);
  }

  predicate InRange(o: Outcome) {
    match o
    case Exact(r) => r.similarity == 1.0
    case Similar(r) => Threshold <= r.similarity < 1.0
    case Missing(_) => true
  }

  lemma {:induction false} BucketsInRange(os: seq<Outcome>)
    requires forall k :: 0 <= k < |os| ==> InRange(os[k])
    ensures forall r :: r in Exacts(os) ==> r.similarity == 1.0
    ensures forall r :: r in Similars(os) ==> Threshold <= r.similarity < 1.0
  {
    if os != [] {
      BucketsInRange(os[..|os| - 1]);
    }
  }

  /** A single WP record scoring 1.0 is the one a single Weadown record takes. */
  lemma SingleFullScore(ratio: Ratio, p: Item, w: Item)
    requires Similarity(ratio, w.name, p.name) == 1.0
    ensures Decisions(ratio, [p], [w]) == [Matched(0, 1.0)]
  {
    var ds := Decisions(ratio, [p], [w]);
    DecisionIsGreedy(ratio, [p], [w], 0);
    assert Consumed(ds[..0]) == {};
    assert Best(ratio, w.name, [p], {}, 1) == (1.0, 0);
  }

  /**
   * A Weadown record whose name equals the only WP name up to case is an exact
   * match (the "akismet" against "akismet pro" case once the cleaner dropped "pro").
   */
  lemma SameNameIsExact(ratio: Ratio, p: Item, w: Item)
    requires PlainVersion(p.version) && PlainVersion(w.version)
    requires p.name != "" && Lower(w.name) == Lower(p.name)
    ensures Reconciliation(ratio, [p], [w]).exact
         == [MatchRecord(p.name, w.name, p.version, w.version, p.url, w.url, 1.0, CompareVersions(p.version, w.version))]
    ensures Reconciliation(ratio, [p], [w]).similar == [] && Reconciliation(ratio, [p], [w]).missing == []
  {
    LowerIsLowercase(w.name);
    LowerIsLowercase(p.name);
    assert w.name != "";
    SingleFullScore(ratio, p, w);
    var os := Outcomes(ratio, [p], [w]);
    var r := MatchRecord(p.name, w.name, p.version, w.version, p.url, w.url, 1.0, CompareVersions(p.version, w.version));
    assert os[0] == Exact(r);
    assert os[..0] == [];
    assert Exacts(os) == Exacts(os[..0]) + [r];
    assert Similars(os) == Similars(os[..0]);
    assert Missings(os) == Missings(os[..0]);
  }

  /** The inner loop of the comparators: `best_similarity` and `best_index`. */
  method BestMatch(ratio: Ratio, name: string, wp: seq<Item>, consumed: set<int>) returns (best: real, index: int)
    ensures (best, index) == Best(ratio, name, wp, consumed, |wp|)
  {
    best, index := 0.0, -1;
    for idx := 0 to |wp|
      invariant (best, index) == Best(ratio, name, wp, consumed, idx)
    {
      if idx in consumed {
        continue;
      }
      var sim := Similarity(ratio, name, wp[idx].name);
      if sim > best {
        best, index := sim, idx;
      }
    }
  }

  lemma DecisionsStep(ratio: Ratio, wp: seq<Item>, wd: seq<Item>, k: nat)
    requires k < |wd|
    ensures Decisions(ratio, wp, wd[..k + 1])
         == Decisions(ratio, wp, wd[..k]) + [Decide(ratio, wp, Consumed(Decisions(ratio, wp, wd[..k])), wd[k].name)]
  {
    assert wd[..k + 1][..k] == wd[..k];
  }

  lemma ConsumedStep(ds: seq<Decision>, d: Decision)
    ensures Consumed(ds + [d]) == Consumed(ds) + (if d.Matched? then {d.index as int} else {})
  {
    var ds' := ds + [d];
    assert forall k :: 0 <= k < |ds| ==> ds'[k] == ds[k];
    assert ds'[|ds|] == d;
    forall x | x in Consumed(ds')
      ensures x in Consumed(ds) + (if d.Matched? then {d.index as int} else {})
    {
      var k :| 0 <= k < |ds'| && ds'[k].Matched? && x == ds'[k].index as int;
      if k < |ds| {
        assert x in Consumed(ds);
      }
    }
  }

  lemma OutcomeAt(ratio: Ratio, wp: seq<Item>, wd: seq<Item>, i: nat)
    requires i < |wd| && PlainVersions(wp) && PlainVersions(wd)
    ensures Outcomes(ratio, wp, wd)[i] == OutcomeOf(wp, wd[i], Decisions(ratio, wp, wd)[i])
  {
  }

  lemma PrefixPlain(wd: seq<Item>, k: nat)
    requires k <= |wd| && PlainVersions(wd)
    ensures PlainVersions(wd[..k])
  {
    assert forall i :: 0 <= i < k ==> wd[..k][i] == wd[i];
  }

  /** The outcome of the record a decision was added for. */
  function NextOutcome(ratio: Ratio, wp: seq<Item>, wd: seq<Item>, k: nat): Outcome
    requires k < |wd| && PlainVersions(wp) && PlainVersions(wd)
  {
    OutcomeOf(wp, wd[k], Decide(ratio, wp, Consumed(Decisions(ratio, wp, wd[..k])), wd[k].name))
  }

  lemma OutcomesStepAt(ratio: Ratio, wp: seq<Item>, wd: seq<Item>, k: nat, i: nat)
    requires i <= k < |wd| && PlainVersions(wp) && PlainVersions(wd)
    requires PlainVersions(wd[..k]) && PlainVersions(wd[..k + 1])
    ensures Outcomes(ratio, wp, wd[..k + 1])[i] == (Outcomes(ratio, wp, wd[..k]) + [NextOutcome(ratio, wp, wd, k)])[i]
  {
    var wk, wk1 := wd[..k], wd[..k + 1];
    DecisionsStep(ratio, wp, wd, k);
    var dk := Decisions(ratio, wp, wk);
    var dk1 := Decisions(ratio, wp, wk1);
    OutcomeAt(ratio, wp, wk1, i);
    if i < k {
      OutcomeAt(ratio, wp, wk, i);
      assert dk1[i] == dk[i] && wk1[i] == wk[i];
    } else {
      assert dk1[k] == Decide(ratio, wp, Consumed(dk), wd[k].name);
      assert wk1[k] == wd[k];
    }
  }

  lemma OutcomesStep(ratio: Ratio, wp: seq<Item>, wd: seq<Item>, k: nat)
    requires k < |wd| && PlainVersions(wp) && PlainVersions(wd)
    ensures PlainVersions(wd[..k]) && PlainVersions(wd[..k + 1])
    ensures Outcomes(ratio, wp, wd[..k + 1]) == Outcomes(ratio, wp, wd[..k]) + [NextOutcome(ratio, wp, wd, k)]
  {
    PrefixPlain(wd, k);
    PrefixPlain(wd, k + 1);
    var a := Outcomes(ratio, wp, wd[..k + 1]);
    var b := Outcomes(ratio, wp, wd[..k]) + [NextOutcome(ratio, wp, wd, k)];
    forall i | 0 <= i < k + 1
      ensures a[i] == b[i]
    {
      OutcomesStepAt(ratio, wp, wd, k, i);
    }
    assert |a| == |b|;
  }

  /** The body of the outer loop decides as `Decide` does. */
  lemma BodyDecides(ratio: Ratio, wp: seq<Item>, consumed: set<int>, w: Item, best: real, index: int)
    requires PlainVersions(wp) && PlainVersion(w.version)
    requires (best, index) == Best(ratio, w.name, wp, consumed, |wp|)
    ensures Decide(ratio, wp, consumed, w.name).Matched? <==> best >= Threshold
    ensures best >= Threshold ==> 0 <= index < |wp|
    ensures best >= Threshold ==>
      var p := wp[index];
      var r := MatchRecord(p.name, w.name, p.version, w.version, p.url, w.url, best, CompareVersions(p.version, w.version));
      && Decide(ratio, wp, consumed, w.name) == Matched(index, best)
      && OutcomeOf(wp, w, Decide(ratio, wp, consumed, w.name)) == (if best == 1.0 then Exact(r) else Similar(r))
    ensures best < Threshold ==>
      OutcomeOf(wp, w, Decide(ratio, wp, consumed, w.name)) == Missing(MissingRecord(w.name, w.version, w.url))
  {
  }

  lemma ListsStep(os: seq<Outcome>, o: Outcome)
    ensures Exacts(os + [o]) == Exacts(os) + (if o.Exact? then [o.record] else [])
    ensures Similars(os + [o]) == Similars(os) + (if o.Similar? then [o.record] else [])
    ensures Missings(os + [o]) == Missings(os) + (if o.Missing? then [o.miss] else [])
    ensures OutdatedOf(os + [o]) == OutdatedOf(os) + (if !o.Missing? && o.record.state == Outdated then [o.record] else [])
  {
    assert (os + [o])[..|os|] == os;
  }

  /**
   * The matching and classification of `compare_plugins` / `compare_temas`
   * without the CSV files: None when either list is empty (nothing is written).
   */
  method Compare(ratio: Ratio, wp: seq<Item>, weadown: seq<Item>) returns (result: Option<Comparison>)
    requires PlainVersions(wp) && PlainVersions(weadown)
    ensures wp == [] || weadown == [] ==> result == None
    ensures wp != [] && weadown != [] ==> result == Some(Reconciliation(ratio, wp, weadown))
  {
    if wp == [] || weadown == [] {
      return None;
    }
    var exact, similar, outdated, missing := [], [], [], [];
    var matched: set<int> := {};
    ghost var ds: seq<Decision> := [];
    ghost var os: seq<Outcome> := [];
    for k := 0 to |weadown|
      invariant ds == Decisions(ratio, wp, weadown[..k])
      invariant matched == Consumed(ds)
      invariant PlainVersions(weadown[..k])
      invariant os == Outcomes(ratio, wp, weadown[..k])
      invariant exact == Exacts(os) && similar == Similars(os)
      invariant outdated == OutdatedOf(os) && missing == Missings(os)
    {
      var w := weadown[k];
      ghost var d := Decide(ratio, wp, matched, w.name);
      ghost var o := OutcomeOf(wp, w, d);
      DecisionsStep(ratio, wp, weadown, k);
      OutcomesStep(ratio, wp, weadown, k);
      assert o == NextOutcome(ratio, wp, weadown, k);
      ConsumedStep(ds, d);
      ListsStep(os, o);
      var best, index := BestMatch(ratio, w.name, wp, matched);
      BodyDecides(ratio, wp, matched, w, best, index);
      if best >= Threshold {
        matched := matched + {index};
        var p := wp[index];
        var record := MatchRecord(p.name, w.name, p.version, w.version, p.url, w.url, best, CompareVersions(p.version, w.version));
        if best == 1.0 {
          exact := exact + [record];
        } else {
          similar := similar + [record];
        }
        if record.state == Outdated {
          outdated := outdated + [record];
        }
      } else {
        missing := missing + [MissingRecord(w.name, w.version, w.url)];
      }
      ds := ds + [d];
      os := os + [o];
    }
    assert weadown[..|weadown|] == weadown;
    return Some(Comparison(exact, similar, outdated, missing));
  }
}
