/**
 * Version-freshness comparison (`compare_versions` of the two catalogue
 * comparators). A version is split on '.', every component is parsed as an
 * integer, the shorter list is padded with zeros and the two lists are compared
 * lexicographically; when a component does not parse, the comparison falls
 * back to string equality. The empty string stands for a missing version.
 */
module Versions {
  import opened Wrappers
  import opened Text

  /** The four values of `estado`. */
  datatype Freshness =
    | Updated   // "ACTUALIZADO": the first version is ahead of the second
    | Outdated  // "DESACTUALIZADO": the first version is behind the second
    | Same      // "IGUAL"
    | Unknown   // "DESCONOCIDO"

  /**
   * Versions on which `int()` of a component succeeds exactly when the component
   * is a non-empty run of ASCII digits: no blanks, signs or underscores (which
   * Python's `int` accepts) and nothing outside printable ASCII.
   */
  predicate PlainVersion(v: string) {
    forall i :: 0 <= i < |v| ==> '!' <= v[i] <= '~' && v[i] != '+' && v[i] != '-' && v[i] != '_'
  }

  /** `s.split('.')`. */
  function Split(s: string): (parts: seq<string>)
    ensures |parts| >= 1
    decreases |s|
  {
    if |s| == 0 then [""]
    else
      var rest := Split(s[1..]);
      if s[0] == '.' then [""] + rest
      else [[s[0]] + rest[0]] + rest[1..]
  }

  /** Joining the parts with '.' gives the string back, and no part holds a '.'. */
  lemma {:induction false} SplitJoin(s: string)
    ensures Join(Split(s)) == s
    ensures forall k, i :: 0 <= k < |Split(s)| && 0 <= i < |Split(s)[k]| ==> Split(s)[k][i] != '.'
    decreases |s|
  {
    if |s| > 0 {
      SplitJoin(s[1..]);
      var rest := Split(s[1..]);
      if s[0] == '.' {
        assert Split(s) == [""] + rest;
        assert Join([""] + rest) == "" + "." + Join(rest);
      } else {
        assert Split(s) == [[s[0]] + rest[0]] + rest[1..];
        if |rest| == 1 {
          assert rest == [rest[0]];
        } else {
          assert rest == [rest[0]] + rest[1..];
          assert Join(rest) == rest[0] + "." + Join(rest[1..]);
        }
      }
    }
  }

  function Join(parts: seq<string>): string
    requires |parts| >= 1
  {
    if |parts| == 1 then parts[0] else parts[0] + "." + Join(parts[1..])
  }

  /** `int(x)` of one component: None where Python raises ValueError. */
  function ParseComponent(x: string): (r: Option<nat>)
    ensures r.Some? <==> x != "" && forall i :: 0 <= i < |x| ==> IsDigit(x[i])
  {
    if x != "" && forall i :: 0 <= i < |x| ==> IsDigit(x[i]) then Some(DigitsValue(x)) else None
  }

  /** `[int(x) for x in parts]`: None as soon as one component does not parse. */
  function ParseAll(parts: seq<string>): (r: Option<seq<nat>>)
    ensures r.Some? ==> |r.value| == |parts|
    ensures r.Some? <==> forall k :: 0 <= k < |parts| ==> ParseComponent(parts[k]).Some?
    ensures r.Some? ==> forall k :: 0 <= k < |parts| ==> r.value[k] == ParseComponent(parts[k]).value
  {
    if parts == [] then Some([])
    else
      var head, tail := ParseComponent(parts[0]), ParseAll(parts[1..]);
      if head.Some? && tail.Some? then Some([head.value] + tail.value) else None
  }

  /** `parts.extend([0] * (n - len(parts)))`. */
  function Pad(xs: seq<nat>, n: nat): (r: seq<nat>)
    ensures |r| == if |xs| < n then n else |xs|
    ensures r[..|xs|] == xs
    ensures forall k :: |xs| <= k < |r| ==> r[k] == 0
  {
    if |xs| < n then xs + seq(n - |xs|, _ => 0) else xs
  }

  /** `a` is ahead of `b`: at the first place where they differ, `a` holds the larger component. */
  predicate Ahead(a: seq<nat>, b: seq<nat>) {
    exists k :: 0 <= k < |a| && k < |b| && a[..k] == b[..k] && a[k] > b[k]
  }

  /** Where `a` is ahead of `b`: at the head, or after an equal head. */
  lemma AheadCons(a: seq<nat>, b: seq<nat>)
    requires |a| == |b| && a != []
    ensures Ahead(a, b) <==> a[0] > b[0] || (a[0] == b[0] && Ahead(a[1..], b[1..]))
  {
    if Ahead(a, b) {
      var k :| 0 <= k < |a| && k < |b| && a[..k] == b[..k] && a[k] > b[k];
      if k > 0 {
        assert a[0] == a[..k][0] == b[..k][0] == b[0];
        assert a[1..][..k - 1] == a[1..k] == b[1..k] == b[1..][..k - 1];
        assert a[1..][k - 1] > b[1..][k - 1];
      }
    }
    if a[0] > b[0] {
      assert a[..0] == b[..0];
    }
    if a[0] == b[0] && Ahead(a[1..], b[1..]) {
      var k :| 0 <= k < |a[1..]| && k < |b[1..]| && a[1..][..k] == b[1..][..k] && a[1..][k] > b[1..][k];
      assert a[..k + 1] == [a[0]] + a[1..][..k];
      assert b[..k + 1] == [b[0]] + b[1..][..k];
      assert a[k + 1] > b[k + 1];
    }
  }

  /** Python's comparison of two lists of equal length: 1, -1 or 0, decided by the first place where they differ. */
  function Lex(a: seq<nat>, b: seq<nat>): (c: int)
    requires |a| == |b|
    ensures -1 <= c <= 1
    ensures c == 0 <==> a == b
    ensures c == 1 <==> Ahead(a, b)
    ensures c == -1 <==> Ahead(b, a)
  {
    if a == [] then 0
    else
      AheadCons(a, b);
      AheadCons(b, a);
      if a[0] > b[0] then 1
      else if a[0] < b[0] then -1
      else
        var c := Lex(a[1..], b[1..]);
        assert a == [a[0]] + a[1..] && b == [b[0]] + b[1..];
        c
  }

  lemma {:induction false} LexAntisymmetric(a: seq<nat>, b: seq<nat>)
    requires |a| == |b|
    ensures Lex(a, b) == -Lex(b, a)
    decreases |a|
  {
    if a != [] && a[0] == b[0] {
      LexAntisymmetric(a[1..], b[1..]);
    }
  }

  /** Python's comparison of two lists that differ only in trailing zeros. */
  function NumericOrder(p1: seq<nat>, p2: seq<nat>): (f: Freshness)
    ensures f != Unknown
  {
    var n := if |p1| < |p2| then |p2| else |p1|;
    var c := Lex(Pad(p1, n), Pad(p2, n));
    if c > 0 then Updated else if c < 0 then Outdated else Same
  }

  /** `compare_versions(v1, v2)`. */
  function CompareVersions(v1: string, v2: string): (f: Freshness)
    requires PlainVersion(v1) && PlainVersion(v2)
    ensures v1 == "" || v2 == "" ==> f == Unknown
  {
    if v1 == "" || v2 == "" then Unknown
    else
      match (ParseAll(Split(v1)), ParseAll(Split(v2)))
      case (Some(p1), Some(p2)) => NumericOrder(p1, p2)
      case _ => if v1 == v2 then Same else Unknown
  }

  /** The numeric path is taken exactly when every component of both versions is a run of digits. */
  predicate Numeric(v: string) {
    ParseAll(Split(v)).Some?
  }

  /** On a component that is not an integer nothing is raised: the result is equality of the raw strings. */
  lemma FallbackIsStringEquality(v1: string, v2: string)
    requires PlainVersion(v1) && PlainVersion(v2)
    requires v1 != "" && v2 != ""
    requires !Numeric(v1) || !Numeric(v2)
    ensures CompareVersions(v1, v2) == if v1 == v2 then Same else Unknown
  {
  }

  /** "ACTUALIZADO" one way is "DESACTUALIZADO" the other way, on both paths. */
  lemma CompareVersionsAntisymmetric(v1: string, v2: string)
    requires PlainVersion(v1) && PlainVersion(v2)
    ensures CompareVersions(v1, v2) == Updated <==> CompareVersions(v2, v1) == Outdated
    ensures CompareVersions(v1, v2) == Same <==> CompareVersions(v2, v1) == Same
  {
    if v1 != "" && v2 != "" && Numeric(v1) && Numeric(v2) {
      var p1, p2 := ParseAll(Split(v1)).value, ParseAll(Split(v2)).value;
      var n := if |p1| < |p2| then |p2| else |p1|;
      LexAntisymmetric(Pad(p1, n), Pad(p2, n));
    }
  }

  /** Every non-empty version is "IGUAL" to itself, on both paths. */
  lemma CompareVersionsReflexive(v: string)
    requires PlainVersion(v) && v != ""
    ensures CompareVersions(v, v) == Same
  {
    if Numeric(v) {
      var p := ParseAll(Split(v)).value;
      assert Lex(Pad(p, |p|), Pad(p, |p|)) == 0;
    }
  }
}

module VersionExamples {
  import opened Wrappers
  import opened Text
  import opened Versions

  lemma SplitCons(c: char, t: string)
    ensures Split([c] + t) == if c == '.' then [""] + Split(t) else [[c] + Split(t)[0]] + Split(t)[1..]
  {
    assert ([c] + t)[1..] == t;
  }

  lemma ParseCons(c: char, rest: seq<string>, tail: seq<nat>)
    requires IsDigit(c) && ParseAll(rest) == Some(tail)
    ensures ParseAll([[c]] + rest) == Some([c as int - '0' as int] + tail)
  {
    assert [c][..0] == [];
    assert DigitsValue([c]) == c as int - '0' as int;
    assert ([[c]] + rest)[1..] == rest;
  }

  lemma SplitExampleLong()
    ensures Split("1.2.0") == ["1", "2", "0"]
  {
    assert ['0'] + "" == "0"; SplitCons('0', "");
    assert ['.'] + "0" == ".0"; SplitCons('.', "0");
    assert ['2'] + ".0" == "2.0"; assert ['2'] + "" == "2"; SplitCons('2', ".0");
    assert ['.'] + "2.0" == ".2.0"; SplitCons('.', "2.0");
    assert ['1'] + ".2.0" == "1.2.0"; assert ['1'] + "" == "1"; SplitCons('1', ".2.0");
  }

  lemma SplitExampleShort()
    ensures Split("1.2") == ["1", "2"]
  {
    assert ['2'] + "" == "2"; SplitCons('2', "");
    assert ['.'] + "2" == ".2"; SplitCons('.', "2");
    assert ['1'] + ".2" == "1.2"; assert ['1'] + "" == "1"; SplitCons('1', ".2");
  }

  lemma ParseExamples()
    ensures ParseAll(["1", "2", "0"]) == Some([1, 2, 0])
    ensures ParseAll(["1", "2"]) == Some([1, 2])
  {
    assert ParseAll([]) == Some([]);
    var z: seq<nat> := [0];
    assert ["0"] == [['0']] + [] && z + [] == z; ParseCons('0', [], []);
    assert ["2", "0"] == [['2']] + ["0"]; ParseCons('2', ["0"], [0]);
    var tz: seq<nat> := [2, 0]; assert [2] + [0] == tz;
    assert ["1", "2", "0"] == [['1']] + ["2", "0"]; ParseCons('1', ["2", "0"], [2, 0]);
    var otz: seq<nat> := [1, 2, 0]; assert [1] + [2, 0] == otz;
    var two: seq<nat> := [2];
    assert ["2"] == [['2']] + [] && two + [] == two; ParseCons('2', [], []);
    assert ["1", "2"] == [['1']] + ["2"]; ParseCons('1', ["2"], [2]);
    var ot: seq<nat> := [1, 2]; assert [1] + [2] == ot;
  }

  /** Zero padding: "1.2" and "1.2.0" are "IGUAL". */
  lemma PaddingMakesEqual()
    ensures CompareVersions("1.2", "1.2.0") == Same
  {
    SplitExampleLong();
    SplitExampleShort();
    ParseExamples();
    assert Pad([1, 2], 3) == [1, 2, 0];
    assert Pad([1, 2, 0], 3) == [1, 2, 0];
  }

  lemma SplitExamples2()
    ensures Split("1.10") == ["1", "10"]
    ensures Split("1.9") == ["1", "9"]
  {
    assert ['0'] + "" == "0"; SplitCons('0', "");
    assert ['1'] + "0" == "10"; SplitCons('1', "0");
    assert ['.'] + "10" == ".10"; SplitCons('.', "10");
    assert ['1'] + ".10" == "1.10"; assert ['1'] + "" == "1"; SplitCons('1', ".10");
    assert ['9'] + "" == "9"; SplitCons('9', "");
    assert ['.'] + "9" == ".9"; SplitCons('.', "9");
    assert ['1'] + ".9" == "1.9"; SplitCons('1', ".9");
  }

  lemma ParseExamples2()
    ensures ParseAll(["1", "10"]) == Some([1, 10])
    ensures ParseAll(["1", "9"]) == Some([1, 9])
  {
    assert "10"[..1] == "1" && "1"[..0] == [];
    assert ParseComponent("10") == Some(10);
    assert ParseAll([]) == Some([]);
    assert ["10"][1..] == [];
    var ten: seq<nat> := [10]; assert ten + [] == ten;
    assert ParseAll(["10"]) == Some([10]);
    assert ["1", "10"] == [['1']] + ["10"]; ParseCons('1', ["10"], [10]);
    var ott: seq<nat> := [1, 10]; assert [1] + [10] == ott;
    var nine: seq<nat> := [9];
    assert ["9"] == [['9']] + [] && nine + [] == nine; ParseCons('9', [], []);
    assert ["1", "9"] == [['1']] + ["9"]; ParseCons('1', ["9"], [9]);
    var on: seq<nat> := [1, 9]; assert [1] + [9] == on;
  }

  /** Components compare as numbers: "1.10" is "ACTUALIZADO" with respect to "1.9". */
  lemma ComponentsAreNumbers()
    ensures CompareVersions("1.10", "1.9") == Updated
  {
    SplitExamples2();
    ParseExamples2();
    TenAfterNine();
  }

  lemma TenAfterNine()
    ensures Lex([1, 10], [1, 9]) == 1
  {
    assert [1, 10][1..] == [10] && [1, 9][1..] == [9];
  }
}
