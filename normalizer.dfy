/**
 * The title normalizers of the scrapers: explicit scanners for the regular
 * expressions of `extract_version`, `clean_plugin_name` / `clean_theme_name`
 * (scrapers/) and `_extract_version` / `_clean_plugin_name` (src/scraper.py).
 *
 * `extra` is the number of optional `(?:\.\d+)?` groups after `\d+\.\d+`:
 * two in the scrapers/ files, one in src/scraper.py.
 */
module Normalizer {
  import opened Wrappers
  import opened Text

  function DigitRunEnd(s: string, i: nat): (e: nat)
    requires i <= |s|
    ensures i <= e <= |s|
    ensures forall k :: i <= k < e ==> IsDigit(s[k])
    ensures e == |s| || !IsDigit(s[e])
    decreases |s| - i
  {
    if i < |s| && IsDigit(s[i]) then DigitRunEnd(s, i + 1) else i
  }

  function SpaceRunEnd(s: string, i: nat): (e: nat)
    requires i <= |s|
    ensures i <= e <= |s|
    ensures forall k :: i <= k < e ==> IsSpace(s[k])
    ensures e == |s| || !IsSpace(s[e])
    decreases |s| - i
  {
    if i < |s| && IsSpace(s[i]) then SpaceRunEnd(s, i + 1) else i
  }

  /** `\d+\.\d+` matches at `i` (the digit runs are maximal: nothing else can follow a shorter run). */
  predicate NumberStartsAt(s: string, i: nat)
    requires i <= |s|
  {
    i < |s| && IsDigit(s[i]) &&
    var e := DigitRunEnd(s, i);
    e + 1 < |s| && s[e] == '.' && IsDigit(s[e + 1])
  }

  /** `(?:\.\d+)?` repeated `extra` times, greedily, from `e`. */
  function MoreParts(s: string, e: nat, extra: nat): (r: nat)
    requires e <= |s|
    ensures e <= r <= |s|
    decreases extra
  {
    if extra > 0 && e + 1 < |s| && s[e] == '.' && IsDigit(s[e + 1])
    then MoreParts(s, DigitRunEnd(s, e + 1), extra - 1)
    else e
  }

  /** End of the match of `\d+\.\d+(?:\.\d+)?…` at `i`. */
  function NumberEnd(s: string, i: nat, extra: nat): (e: nat)
    requires i <= |s| && NumberStartsAt(s, i)
    ensures i < e <= |s|
  {
    MoreParts(s, DigitRunEnd(s, DigitRunEnd(s, i) + 1), extra)
  }

  /** Reference definition: the leftmost position at or after `i` where `\d+\.\d+` matches. */
  function FirstNumber(s: string, i: nat): (r: Option<nat>)
    requires i <= |s|
    ensures r.Some? ==> i <= r.value < |s| && NumberStartsAt(s, r.value)
    ensures forall j :: i <= j < (if r.Some? then r.value else |s|) ==> !NumberStartsAt(s, j)
    decreases |s| - i
  {
    if i == |s| then None else if NumberStartsAt(s, i) then Some(i) else FirstNumber(s, i + 1)
  }

  predicate IsV(c: char) { c == 'v' || c == 'V' }

  /** The span of group 1 of `v?(\d+\.\d+(?:\.\d+)?…)` (case-insensitive) tried at `i`. */
  function GroupAt(s: string, i: nat, extra: nat): (r: Option<(nat, nat)>)
    requires i <= |s|
  {
    if i < |s| && IsV(s[i]) && NumberStartsAt(s, i + 1) then Some((i + 1, NumberEnd(s, i + 1, extra)))
    else if NumberStartsAt(s, i) then Some((i, NumberEnd(s, i, extra)))
    else None
  }

  /** `re.search` of that pattern from `i`: group 1 of the leftmost match. */
  function SearchGroup(s: string, i: nat, extra: nat): (r: Option<(nat, nat)>)
    requires i <= |s|
    decreases |s| - i
  {
    if i == |s| then None
    else if GroupAt(s, i, extra).Some? then GroupAt(s, i, extra)
    else SearchGroup(s, i + 1, extra)
  }

  /** The optional `v` never moves the group: the search finds the leftmost `\d+\.\d+`. */
  lemma {:induction false} SearchFindsFirstNumber(s: string, i: nat, extra: nat)
    requires i <= |s|
    ensures SearchGroup(s, i, extra) ==
      match FirstNumber(s, i)
      case None => None
      case Some(a) => Some((a, NumberEnd(s, a, extra)))
    decreases |s| - i
  {
    if i < |s| {
      if GroupAt(s, i, extra).None? {
        SearchFindsFirstNumber(s, i + 1, extra);
      }
    }
  }

  /** `version\s+(\d+\.\d+(?:\.\d+)?)` (case-insensitive) tried at `i`: the span of its group. */
  function VersionWordAt(s: string, i: nat): (r: Option<(nat, nat)>)
    requires i <= |s|
    ensures r.Some? ==> r.value.0 <= |s| && NumberStartsAt(s, r.value.0)
  {
    if i + 7 < |s| && StartsWithWord(s, i, "version") && IsSpace(s[i + 7]) then
      var k := SpaceRunEnd(s, i + 7);
      if NumberStartsAt(s, k) then Some((k, NumberEnd(s, k, 1))) else None
    else None
  }

  function SearchVersionWord(s: string, i: nat): (r: Option<(nat, nat)>)
    requires i <= |s|
    ensures r.Some? ==> r.value.0 <= |s| && NumberStartsAt(s, r.value.0) && i <= r.value.0
    decreases |s| - i
  {
    if i == |s| then None
    else if VersionWordAt(s, i).Some? then VersionWordAt(s, i)
    else SearchVersionWord(s, i + 1)
  }

  /** The `version\s+…` pattern only runs when the first one failed, and then it fails too. */
  lemma SecondPatternNeverDecides(s: string)
    requires FirstNumber(s, 0).None?
    ensures SearchVersionWord(s, 0).None?
  {
  }

  /** Group 1 of the first of the two version patterns that matches, if any. */
  function VersionSpan(text: string, extra: nat): (r: Option<(nat, nat)>)
    ensures r.None? <==> FirstNumber(text, 0).None?
    ensures r.Some? ==> r.value.0 == FirstNumber(text, 0).value
    ensures r.Some? ==> r.value.1 == NumberEnd(text, r.value.0, extra)
  {
    SearchFindsFirstNumber(text, 0, extra);
    if SearchGroup(text, 0, extra).Some? then SearchGroup(text, 0, extra)
    else
      SecondPatternNeverDecides(text);
      SearchVersionWord(text, 0)
  }

  /**
   * `extract_version` of the scrapers/ files: "" for an empty text or when
   * no version occurs, else the leftmost `\d+\.\d+` with up to two more
   * components, without a leading `v`.
   */
  function ExtractVersion(text: string): (r: string)
    ensures r == "" <==> forall j :: 0 <= j < |text| ==> !NumberStartsAt(text, j)
    ensures r != "" ==>
      var a := FirstNumber(text, 0).value;
      r == text[a..NumberEnd(text, a, 2)]
  {
    if text == "" then ""
    else
      match VersionSpan(text, 2)
      case Some((a, b)) => text[a..b]
      case None => ""
  }

  /** `_extract_version` of src/scraper.py: None when nothing matches, else at most three components. */
  function ExtractVersionShort(text: string): (r: Option<string>)
    ensures r.None? <==> forall j :: 0 <= j < |text| ==> !NumberStartsAt(text, j)
    ensures r.Some? ==>
      var a := FirstNumber(text, 0).value;
      r.value == text[a..NumberEnd(text, a, 1)]
  {
    match VersionSpan(text, 1)
    case Some((a, b)) => Some(text[a..b])
    case None => None
  }

  /** `re.sub(r'v?\d+\.\d+(?:\.\d+)?…', '', s)` from position `i` (here the `v` is lower case only). */
  function RemoveNumbers(s: string, i: nat, extra: nat): (r: string)
    requires i <= |s|
    ensures |r| <= |s| - i
    decreases |s| - i
  {
    if i == |s| then ""
    else if s[i] == 'v' && NumberStartsAt(s, i + 1) then RemoveNumbers(s, NumberEnd(s, i + 1, extra), extra)
    else if NumberStartsAt(s, i) then RemoveNumbers(s, NumberEnd(s, i, extra), extra)
    else [s[i]] + RemoveNumbers(s, i + 1, extra)
  }

  /** A character that starts no version is kept. */
  lemma KeepOne(s: string, i: nat, extra: nat)
    requires i < |s| && !IsDigit(s[i])
    requires s[i] == 'v' ==> i + 1 == |s| || !IsDigit(s[i + 1])
    ensures RemoveNumbers(s, i, extra) == [s[i]] + RemoveNumbers(s, i + 1, extra)
  {
  }

  lemma ConsSlice(s: string, i: nat, n: nat, t: string)
    requires i < n <= |s|
    ensures s[i..n] + t == [s[i]] + (s[i + 1..n] + t)
  {
    assert s[i..n] == [s[i]] + s[i + 1..n];
  }

  /** Text without digits passes through version removal unchanged (a final `v` only if no digit follows it). */
  lemma {:induction false} KeepNonDigits(s: string, i: nat, n: nat, extra: nat)
    requires i <= n <= |s|
    requires forall j :: i <= j < n ==> !IsDigit(s[j])
    requires i < n < |s| ==> s[n - 1] != 'v'
    ensures RemoveNumbers(s, i, extra) == s[i..n] + RemoveNumbers(s, n, extra)
    decreases n - i
  {
    if i < n {
      KeepNonDigits(s, i + 1, n, extra);
      if i + 1 < n {
        assert !IsDigit(s[i + 1]);
      }
      KeepOne(s, i, extra);
      ConsSlice(s, i, n, RemoveNumbers(s, n, extra));
    } else {
      assert s[i..n] == [];
    }
  }

  /** A run of `n` digits at `i` that nothing extends. */
  lemma {:induction false} DigitRunAt(s: string, i: nat, n: nat)
    requires i + n <= |s|
    requires forall j :: i <= j < i + n ==> IsDigit(s[j])
    requires i + n == |s| || !IsDigit(s[i + n])
    ensures DigitRunEnd(s, i) == i + n
    decreases n
  {
    if n > 0 {
      DigitRunAt(s, i + 1, n - 1);
    }
  }

  /** The text at `i` spells the lowercase word `w`, ignoring case. */
  predicate StartsWithWord(s: string, i: nat, w: string)
    decreases |w|
  {
    i + |w| <= |s| && (w == [] || (ToLower(s[i]) == w[0] && StartsWithWord(s, i + 1, w[1..])))
  }

  lemma {:induction false} StartsWithWordChars(s: string, i: nat, w: string)
    ensures StartsWithWord(s, i, w) <==> i + |w| <= |s| && forall d :: 0 <= d < |w| ==> ToLower(s[i + d]) == w[d]
    decreases |w|
  {
    if w != [] && i + |w| <= |s| {
      StartsWithWordChars(s, i + 1, w[1..]);
      if ToLower(s[i]) == w[0] && StartsWithWord(s, i + 1, w[1..]) {
        forall d | 0 <= d < |w| ensures ToLower(s[i + d]) == w[d] {
          if d > 0 {
            assert ToLower(s[(i + 1) + (d - 1)]) == w[1..][d - 1];
          }
        }
      }
      if forall d :: 0 <= d < |w| ==> ToLower(s[i + d]) == w[d] {
        assert ToLower(s[i + 0]) == w[0];
        forall d | 0 <= d < |w[1..]| ensures ToLower(s[(i + 1) + d]) == w[1..][d] {
          assert ToLower(s[i + (d + 1)]) == w[d + 1];
        }
      }
    }
  }

  /** `\b` at position `i`. */
  predicate Boundary(s: string, i: nat)
    requires i <= |s|
  {
    (i > 0 && IsWordChar(s[i - 1])) != (i < |s| && IsWordChar(s[i]))
  }

  /** A noise list: non-empty words of lowercase ASCII letters. */
  predicate NoiseWords(words: seq<string>) {
    forall k :: 0 <= k < |words| ==> words[k] != "" && forall d :: 0 <= d < |words[k]| ==> 'a' <= words[k][d] <= 'z'
  }

  /** `\bw\b` (case-insensitive) matches at `i`. */
  predicate WholeWordMatch(s: string, i: nat, w: string)
  {
    StartsWithWord(s, i, w) && Boundary(s, i) && Boundary(s, i + |w|)
  }

  /** `\b(w1|w2|…)\b` (case-insensitive) at `i`: the length of the first alternative that matches. */
  function WholeWordAt(s: string, i: nat, words: seq<string>): (r: Option<nat>)
    requires i <= |s| && NoiseWords(words)
    ensures r.Some? ==> 0 < r.value <= |s| - i
    decreases |words|
  {
    if words == [] then None
    else if WholeWordMatch(s, i, words[0]) then Some(|words[0]|)
    else WholeWordAt(s, i, words[1..])
  }

  /** `WholeWordAt` is the alternation: the first alternative whose whole word stands at `i`. */
  lemma {:induction false} WholeWordAtIsFirstAlternative(s: string, i: nat, words: seq<string>)
    requires i <= |s| && NoiseWords(words)
    ensures WholeWordAt(s, i, words).None? <==> forall k :: 0 <= k < |words| ==> !WholeWordMatch(s, i, words[k])
    ensures WholeWordAt(s, i, words).Some? ==>
              exists k :: 0 <= k < |words| && WholeWordMatch(s, i, words[k]) && WholeWordAt(s, i, words).value == |words[k]|
    ensures forall k :: 0 <= k < |words| && WholeWordMatch(s, i, words[k]) &&
                        (forall k' :: 0 <= k' < k ==> !WholeWordMatch(s, i, words[k'])) ==>
                          WholeWordAt(s, i, words) == Some(|words[k]|)
    decreases |words|
  {
    if words != [] && !WholeWordMatch(s, i, words[0]) {
      WholeWordAtIsFirstAlternative(s, i, words[1..]);
      assert forall k :: 1 <= k < |words| ==> words[k] == words[1..][k - 1];
      if WholeWordAt(s, i, words).Some? {
        var k :| 0 <= k < |words[1..]| && WholeWordMatch(s, i, words[1..][k]) && WholeWordAt(s, i, words).value == |words[1..][k]|;
        assert words[1..][k] == words[k + 1];
      }
      forall k | 1 <= k < |words| && WholeWordMatch(s, i, words[k]) &&
                 (forall k' :: 0 <= k' < k ==> !WholeWordMatch(s, i, words[k']))
        ensures WholeWordAt(s, i, words) == Some(|words[k]|)
      {
        assert forall k' :: 0 <= k' < k - 1 ==> !WholeWordMatch(s, i, words[1..][k']) by {
          forall k' | 0 <= k' < k - 1 ensures !WholeWordMatch(s, i, words[1..][k']) {
            assert words[1..][k'] == words[k' + 1];
          }
        }
      }
    }
  }

  /** `re.sub(r'\b(…)\b', '', s, flags=re.IGNORECASE)` from position `i`. */
  function RemoveWholeWords(s: string, i: nat, words: seq<string>): (r: string)
    requires i <= |s| && NoiseWords(words)
    ensures |r| <= |s| - i
    decreases |s| - i
  {
    if i == |s| then ""
    else match WholeWordAt(s, i, words)
      case Some(n) => RemoveWholeWords(s, i + n, words)
      case None => [s[i]] + RemoveWholeWords(s, i + 1, words)
  }

  /** Only whole words are removed: where no noise word stands between two boundaries, nothing changes. */
  lemma {:induction false} NoWholeWordNoChange(s: string, i: nat, words: seq<string>)
    requires i <= |s| && NoiseWords(words)
    requires forall j :: i <= j < |s| ==> WholeWordAt(s, j, words).None?
    ensures RemoveWholeWords(s, i, words) == s[i..]
    decreases |s| - i
  {
    if i < |s| {
      NoWholeWordNoChange(s, i + 1, words);
      assert s[i..] == [s[i]] + s[i + 1..];
    }
  }

  /** Two positions where the same alternatives match give the same alternation result. */
  lemma {:induction false} SameMatchesSameResult(s: string, i: nat, t: string, j: nat, words: seq<string>)
    requires i <= |s| && j <= |t| && NoiseWords(words)
    requires forall k :: 0 <= k < |words| ==> (WholeWordMatch(s, i, words[k]) <==> WholeWordMatch(t, j, words[k]))
    ensures WholeWordAt(s, i, words) == WholeWordAt(t, j, words)
    decreases |words|
  {
    if words != [] {
      assert forall k :: 1 <= k < |words| ==> words[1..][k - 1] == words[k];
      SameMatchesSameResult(s, i, t, j, words[1..]);
    }
  }

  /** A noise word only matches over letters. */
  lemma MatchOverLetters(s: string, i: nat, w: string, d: nat)
    requires forall c :: 0 <= c < |w| ==> 'a' <= w[c] <= 'z'
    requires StartsWithWord(s, i, w) && d < |w|
    ensures IsWordChar(s[i + d])
  {
    StartsWithWordChars(s, i, w);
    assert ToLower(s[i + d]) == w[d];
  }

  /** A word starting with a letter cannot start at a character that is not a word character. */
  lemma NoLetterNoMatch(s: string, i: nat, w: string)
    requires w != "" && 'a' <= w[0] <= 'z'
    requires i < |s| && !IsWordChar(s[i])
    ensures !StartsWithWord(s, i, w)
  {
  }

  /** A whole-word match at the start of a run of word characters covers all of it. */
  lemma WholeWordMatchIsLower(s: string, w: string)
    requires forall c :: 0 <= c < |s| ==> IsWordChar(s[c])
    requires w != "" && WholeWordMatch(s, 0, w)
    ensures w == Lower(s)
  {
    StartsWithWordChars(s, 0, w);
    assert |w| == |s|;
    assert forall d :: 0 <= d < |w| ==> w[d] == Lower(s)[d];
  }

  /**
   * A maximal run of word characters is removed exactly when, lowercased, it
   * is one of the noise words: a match inside a longer word never has a
   * boundary on both sides.
   */
  lemma WordRemovedIffNoise(s: string, words: seq<string>)
    requires NoiseWords(words) && s != ""
    requires forall c :: 0 <= c < |s| ==> IsWordChar(s[c])
    ensures RemoveWholeWords(s, 0, words) == if Lower(s) in words then "" else s
  {
    forall j | 1 <= j < |s|
      ensures WholeWordAt(s, j, words).None?
    {
      WholeWordAtIsFirstAlternative(s, j, words);
    }
    NoWholeWordNoChange(s, 1, words);
    forall k | 0 <= k < |words| && WholeWordMatch(s, 0, words[k])
      ensures words[k] == Lower(s)
    {
      WholeWordMatchIsLower(s, words[k]);
    }
    WholeWordAtIsFirstAlternative(s, 0, words);
    if Lower(s) in words {
      var k :| 0 <= k < |words| && words[k] == Lower(s);
      StartsWithWordChars(s, 0, words[k]);
      assert WholeWordMatch(s, 0, words[k]);
      assert RemoveWholeWords(s, 0, words) == RemoveWholeWords(s, |s|, words);
    } else {
      assert s == [s[0]] + s[1..];
    }
  }

  /** Characters that are not word characters are never removed. */
  lemma NonWordKept(s: string, words: seq<string>)
    requires NoiseWords(words)
    requires forall c :: 0 <= c < |s| ==> !IsWordChar(s[c])
    ensures RemoveWholeWords(s, 0, words) == s
  {
    forall j | 0 <= j < |s|
      ensures WholeWordAt(s, j, words).None?
    {
      WholeWordAtIsFirstAlternative(s, j, words);
      forall k | 0 <= k < |words| ensures !WholeWordMatch(s, j, words[k]) {
        NoLetterNoMatch(s, j, words[k]);
      }
    }
    NoWholeWordNoChange(s, 0, words);
  }

  /** Word and non-word characters meet at the end of `a`. */
  predicate Transition(a: string, b: string) {
    a != "" && b != "" && IsWordChar(a[|a| - 1]) != IsWordChar(b[0])
  }

  lemma MatchIgnoresSuffix(a: string, b: string, i: nat, w: string)
    requires Transition(a, b) && i < |a|
    requires w != "" && forall c :: 0 <= c < |w| ==> 'a' <= w[c] <= 'z'
    ensures WholeWordMatch(a + b, i, w) <==> WholeWordMatch(a, i, w)
  {
    var s := a + b;
    StartsWithWordChars(s, i, w);
    StartsWithWordChars(a, i, w);
    if StartsWithWord(s, i, w) && i + |w| > |a| {
      MatchOverLetters(s, i, w, |a| - 1 - i);
      MatchOverLetters(s, i, w, |a| - i);
      assert false;
    }
    if StartsWithWord(a, i, w) {
      MatchOverLetters(a, i, w, |w| - 1);
    }
    if StartsWithWord(s, i, w) {
      MatchOverLetters(s, i, w, |w| - 1);
    }
  }

  lemma MatchIgnoresPrefix(a: string, b: string, j: nat, w: string)
    requires Transition(a, b) && j <= |b|
    requires w != "" && forall c :: 0 <= c < |w| ==> 'a' <= w[c] <= 'z'
    ensures WholeWordMatch(a + b, |a| + j, w) <==> WholeWordMatch(b, j, w)
  {
    var s := a + b;
    assert forall d :: j <= d < |b| ==> s[|a| + d] == b[d];
    StartsWithWordChars(b, j, w);
    StartsWithWordChars(s, |a| + j, w);
    if StartsWithWord(b, j, w) || StartsWithWord(s, |a| + j, w) {
      assert StartsWithWord(b, j, w) && StartsWithWord(s, |a| + j, w);
      MatchOverLetters(b, j, w, 0);
      if j > 0 {
        assert s[|a| + j - 1] == b[j - 1];
      }
    }
  }

  lemma ConsAssoc(c: char, x: string, y: string)
    ensures [c] + (x + y) == ([c] + x) + y
  {
  }

  /** One step of noise removal at a noise word. */
  lemma RemoveAtWord(s: string, i: nat, words: seq<string>)
    requires i < |s| && NoiseWords(words) && WholeWordAt(s, i, words).Some?
    ensures RemoveWholeWords(s, i, words) == RemoveWholeWords(s, i + WholeWordAt(s, i, words).value, words)
  {
  }

  /** One step of noise removal at a kept character. */
  lemma RemoveAtChar(s: string, i: nat, words: seq<string>)
    requires i < |s| && NoiseWords(words) && WholeWordAt(s, i, words).None?
    ensures RemoveWholeWords(s, i, words) == [s[i]] + RemoveWholeWords(s, i + 1, words)
  {
  }

  lemma ShiftSameMatch(a: string, b: string, j: nat, words: seq<string>)
    requires Transition(a, b) && j < |b| && NoiseWords(words)
    ensures WholeWordAt(a + b, |a| + j, words) == WholeWordAt(b, j, words)
  {
    forall k | 0 <= k < |words|
      ensures WholeWordMatch(a + b, |a| + j, words[k]) <==> WholeWordMatch(b, j, words[k])
    {
      MatchIgnoresPrefix(a, b, j, words[k]);
    }
    SameMatchesSameResult(a + b, |a| + j, b, j, words);
  }

  lemma SplitSameMatch(a: string, b: string, i: nat, words: seq<string>)
    requires Transition(a, b) && i < |a| && NoiseWords(words)
    ensures WholeWordAt(a + b, i, words) == WholeWordAt(a, i, words)
  {
    forall k | 0 <= k < |words|
      ensures WholeWordMatch(a + b, i, words[k]) <==> WholeWordMatch(a, i, words[k])
    {
      MatchIgnoresSuffix(a, b, i, words[k]);
    }
    SameMatchesSameResult(a + b, i, a, i, words);
  }

  /** Where noise removal goes on after position `i`. */
  function NextRemoval(s: string, i: nat, words: seq<string>): (n: nat)
    requires i < |s| && NoiseWords(words)
    ensures i < n <= |s|
  {
    match WholeWordAt(s, i, words)
    case Some(m) => i + m
    case None => i + 1
  }

  lemma ShiftStep(a: string, b: string, j: nat, words: seq<string>)
    requires Transition(a, b) && j < |b| && NoiseWords(words)
    requires RemoveWholeWords(a + b, |a| + NextRemoval(b, j, words), words) == RemoveWholeWords(b, NextRemoval(b, j, words), words)
    ensures RemoveWholeWords(a + b, |a| + j, words) == RemoveWholeWords(b, j, words)
  {
    ShiftSameMatch(a, b, j, words);
    if WholeWordAt(b, j, words).Some? {
      RemoveAtWord(a + b, |a| + j, words);
      RemoveAtWord(b, j, words);
    } else {
      assert NextRemoval(b, j, words) == j + 1;
      var rest := RemoveWholeWords(b, j + 1, words);
      assert RemoveWholeWords(a + b, |a| + j + 1, words) == rest;
      RemoveAtChar(a + b, |a| + j, words);
      RemoveAtChar(b, j, words);
      assert (a + b)[|a| + j] == b[j];
      assert RemoveWholeWords(a + b, |a| + j, words) == [b[j]] + rest;
    }
  }

  lemma {:induction false} RemoveWholeWordsShift(a: string, b: string, j: nat, words: seq<string>)
    requires Transition(a, b) && j <= |b| && NoiseWords(words)
    ensures RemoveWholeWords(a + b, |a| + j, words) == RemoveWholeWords(b, j, words)
    decreases |b| - j
  {
    if j < |b| {
      RemoveWholeWordsShift(a, b, NextRemoval(b, j, words), words);
      ShiftStep(a, b, j, words);
    } else {
      assert |a + b| == |a| + j;
    }
  }

  lemma SplitStep(a: string, b: string, i: nat, words: seq<string>)
    requires Transition(a, b) && i < |a| && NoiseWords(words)
    requires RemoveWholeWords(a + b, NextRemoval(a, i, words), words)
      == RemoveWholeWords(a, NextRemoval(a, i, words), words) + RemoveWholeWords(b, 0, words)
    ensures RemoveWholeWords(a + b, i, words) == RemoveWholeWords(a, i, words) + RemoveWholeWords(b, 0, words)
  {
    SplitSameMatch(a, b, i, words);
    if WholeWordAt(a, i, words).Some? {
      RemoveAtWord(a + b, i, words);
      RemoveAtWord(a, i, words);
    } else {
      var x, rb := RemoveWholeWords(a, i + 1, words), RemoveWholeWords(b, 0, words);
      assert NextRemoval(a, i, words) == i + 1;
      assert RemoveWholeWords(a + b, i + 1, words) == x + rb;
      RemoveAtChar(a + b, i, words);
      RemoveAtChar(a, i, words);
      assert (a + b)[i] == a[i];
      assert RemoveWholeWords(a + b, i, words) == [a[i]] + (x + rb);
      ConsAssoc(a[i], x, rb);
    }
  }

  lemma {:induction false} RemoveWholeWordsSplit(a: string, b: string, i: nat, words: seq<string>)
    requires Transition(a, b) && i <= |a| && NoiseWords(words)
    ensures RemoveWholeWords(a + b, i, words) == RemoveWholeWords(a, i, words) + RemoveWholeWords(b, 0, words)
    decreases |a| - i
  {
    if i == |a| {
      RemoveWholeWordsShift(a, b, 0, words);
    } else {
      RemoveWholeWordsSplit(a, b, NextRemoval(a, i, words), words);
      SplitStep(a, b, i, words);
    }
  }

  /** Noise removal works word by word: it distributes over a split between a word and a non-word character. */
  lemma RemoveWholeWordsConcat(a: string, b: string, words: seq<string>)
    requires Transition(a, b) && NoiseWords(words)
    ensures RemoveWholeWords(a + b, 0, words) == RemoveWholeWords(a, 0, words) + RemoveWholeWords(b, 0, words)
  {
    RemoveWholeWordsSplit(a, b, 0, words);
  }

  /** A maximal run of word characters. */
  predicate WordToken(t: string) {
    t != "" && forall c :: 0 <= c < |t| ==> IsWordChar(t[c])
  }

  /** A maximal run of other characters. */
  predicate GapToken(t: string) {
    t != "" && forall c :: 0 <= c < |t| ==> !IsWordChar(t[c])
  }

  /** `ts` splits a text into its runs: each a word or a gap, words and gaps alternating. */
  predicate Tokens(ts: seq<string>) {
    (forall k :: 0 <= k < |ts| ==> WordToken(ts[k]) || GapToken(ts[k])) &&
    (forall k :: 0 <= k < |ts| - 1 ==> WordToken(ts[k]) != WordToken(ts[k + 1]))
  }

  function Join(ts: seq<string>): string {
    if ts == [] then "" else ts[0] + Join(ts[1..])
  }

  /** The runs that survive noise removal: gaps, and words that are not noise. */
  function Kept(ts: seq<string>, words: seq<string>): seq<string> {
    if ts == [] then []
    else (if WordToken(ts[0]) && Lower(ts[0]) in words then [] else [ts[0]]) + Kept(ts[1..], words)
  }

  lemma JoinStartsWithFirst(ts: seq<string>)
    requires ts != [] && ts[0] != ""
    ensures Join(ts) != "" && Join(ts)[0] == ts[0][0]
  {
  }

  /**
   * Noise removal, read run by run: the text of a tokenised title loses exactly
   * its noise words and keeps every other run as it is.
   */
  lemma {:induction false} RemoveWholeWordsByTokens(ts: seq<string>, words: seq<string>)
    requires Tokens(ts) && NoiseWords(words)
    ensures RemoveWholeWords(Join(ts), 0, words) == Join(Kept(ts, words))
  {
    if ts != [] {
      var t := ts[0];
      var rest := ts[1..];
      assert Tokens(rest) by {
        assert forall k :: 0 <= k < |rest| ==> rest[k] == ts[k + 1];
      }
      RemoveWholeWordsByTokens(rest, words);
      if WordToken(t) {
        WordRemovedIffNoise(t, words);
      } else {
        NonWordKept(t, words);
      }
      if rest == [] {
        assert Join(ts) == t;
        assert Join(Kept(ts, words)) == Join(Kept([t], words));
      } else {
        JoinStartsWithFirst(rest);
        assert WordToken(ts[0]) != WordToken(ts[1]);
        assert Transition(t, Join(rest));
        RemoveWholeWordsConcat(t, Join(rest), words);
      }
      JoinAppend(if WordToken(t) && Lower(t) in words then [] else [t], Kept(rest, words));
    }
  }

  lemma {:induction false} KeptAppend(xs: seq<string>, ys: seq<string>, words: seq<string>)
    ensures Kept(xs + ys, words) == Kept(xs, words) + Kept(ys, words)
  {
    if xs != [] {
      assert (xs + ys)[1..] == xs[1..] + ys;
      KeptAppend(xs[1..], ys, words);
    } else {
      assert xs + ys == ys;
    }
  }

  lemma {:induction false} JoinAppend(xs: seq<string>, ys: seq<string>)
    ensures Join(xs + ys) == Join(xs) + Join(ys)
  {
    if xs != [] {
      assert (xs + ys)[1..] == xs[1..] + ys;
      JoinAppend(xs[1..], ys);
    } else {
      assert xs + ys == ys;
    }
  }

  predicate IsSeparator(c: char) { c == '-' || c == '–' || c == '|' }

  /** `\s+[\-–|]\s+` matches at `i` (the blank run before the separator is maximal). */
  predicate SeparatorAt(s: string, i: nat)
    requires i <= |s|
  {
    i < |s| && IsSpace(s[i]) &&
    var k := SpaceRunEnd(s, i);
    k + 1 < |s| && IsSeparator(s[k]) && IsSpace(s[k + 1])
  }

  function FirstSeparator(s: string, i: nat): (r: Option<nat>)
    requires i <= |s|
    ensures r.Some? ==> i <= r.value < |s| && SeparatorAt(s, r.value)
    ensures forall j :: i <= j < (if r.Some? then r.value else |s|) ==> !SeparatorAt(s, j)
    decreases |s| - i
  {
    if i == |s| then None else if SeparatorAt(s, i) then Some(i) else FirstSeparator(s, i + 1)
  }

  /** `re.sub(r'\s+[\-–|]\s+.*$', '', s)`: everything from the first blank-flanked separator on is dropped. */
  function Truncate(s: string): (r: string)
    ensures FirstSeparator(s, 0).None? ==> r == s
    ensures FirstSeparator(s, 0).Some? ==> r == s[..FirstSeparator(s, 0).value]
  {
    match FirstSeparator(s, 0)
    case Some(i) => s[..i]
    case None => s
  }

  lemma SpaceRunEndPrefix(s: string, n: nat, j: nat)
    requires j <= n <= |s|
    requires SpaceRunEnd(s, j) < n
    ensures SpaceRunEnd(s[..n], j) == SpaceRunEnd(s, j)
    decreases n - j
  {
    if j < n && IsSpace(s[j]) {
      SpaceRunEndPrefix(s, n, j + 1);
    }
  }

  /** What `Truncate` keeps holds no blank-flanked separator any more. */
  lemma TruncateLeavesNoSeparator(s: string)
    ensures forall j :: 0 <= j < |Truncate(s)| ==> !SeparatorAt(Truncate(s), j)
  {
    var r := Truncate(s);
    forall j | 0 <= j < |r|
      ensures !SeparatorAt(r, j)
    {
      if SeparatorAt(r, j) {
        var n := |r|;
        assert FirstSeparator(s, 0).Some?;
        assert r == s[..n];
        var k := SpaceRunEnd(r, j);
        SpaceRunEndLe(r, s, j);
        SpaceRunEndPrefix(s, n, j);
        assert SeparatorAt(s, j);
        assert false;
      }
    }
  }

  lemma SpaceRunEndLe(r: string, s: string, j: nat)
    requires |r| <= |s| && r == s[..|r|] && j <= |r|
    requires SpaceRunEnd(r, j) < |r|
    ensures SpaceRunEnd(s, j) == SpaceRunEnd(r, j)
    decreases |r| - j
  {
    if IsSpace(r[j]) {
      SpaceRunEndLe(r, s, j + 1);
    }
  }

  /** A text with no separator character is not truncated. */
  lemma {:induction false} NoSeparatorNoTruncate(s: string, i: nat)
    requires i <= |s|
    requires forall j :: i <= j < |s| ==> !IsSeparator(s[j])
    ensures FirstSeparator(s, i).None?
    decreases |s| - i
  {
    if i < |s| {
      NoSeparatorNoTruncate(s, i + 1);
    }
  }

  /** `Truncate` cuts at the first blank-flanked separator. */
  lemma {:induction false} TruncateAt(s: string, k: nat, i: nat)
    requires k <= i < |s| && SeparatorAt(s, i)
    requires forall j :: k <= j < i ==> !SeparatorAt(s, j)
    ensures FirstSeparator(s, k) == Some(i)
    decreases i - k
  {
    if k < i {
      TruncateAt(s, k + 1, i);
    }
  }

  /** `s.lstrip(chars)`. */
  function TrimStart(s: string, chars: set<char>): (r: string)
    ensures r == "" || r[0] !in chars
    ensures |r| <= |s| && r == s[|s| - |r|..]
  {
    if s != [] && s[0] in chars then TrimStart(s[1..], chars) else s
  }

  /** `s.rstrip(chars)`. */
  function TrimEnd(s: string, chars: set<char>): (r: string)
    ensures r == "" || r[|r| - 1] !in chars
    ensures |r| <= |s| && r == s[..|r|]
  {
    if s != [] && s[|s| - 1] in chars then TrimEnd(s[..|s| - 1], chars) else s
  }

  /** `s.strip(chars)`. */
  function Strip(s: string, chars: set<char>): (r: string)
    ensures r == "" || (r[0] !in chars && r[|r| - 1] !in chars)
  {
    var t := TrimStart(s, chars);
    var r := TrimEnd(t, chars);
    assert r != "" ==> r[0] == t[0];
    r
  }

  function NonSpaceRunEnd(s: string, i: nat): (e: nat)
    requires i <= |s|
    ensures i <= e <= |s|
    ensures forall k :: i <= k < e ==> !IsSpace(s[k])
    ensures e == |s| || IsSpace(s[e])
    decreases |s| - i
  {
    if i < |s| && !IsSpace(s[i]) then NonSpaceRunEnd(s, i + 1) else i
  }

  /** `s[i:].split()`: the maximal runs of non-blank characters. */
  function Words(s: string, i: nat): (ws: seq<string>)
    requires i <= |s|
    ensures forall k :: 0 <= k < |ws| ==> ws[k] != "" && forall c :: 0 <= c < |ws[k]| ==> !IsSpace(ws[k][c])
    ensures IsLowercase(s) ==> forall k :: 0 <= k < |ws| ==> IsLowercase(ws[k])
    decreases |s| - i
  {
    if i == |s| then []
    else if IsSpace(s[i]) then Words(s, i + 1)
    else
      var e := NonSpaceRunEnd(s, i);
      [s[i..e]] + Words(s, e)
  }

  /** `' '.join(ws)`. */
  function JoinWords(ws: seq<string>): (r: string)
    requires forall k :: 0 <= k < |ws| ==> ws[k] != "" && forall c :: 0 <= c < |ws[k]| ==> !IsSpace(ws[k][c])
    ensures Tidy(r)
    ensures (forall k :: 0 <= k < |ws| ==> IsLowercase(ws[k])) ==> IsLowercase(r)
  {
    if ws == [] then ""
    else if |ws| == 1 then ws[0]
    else
      var rest := JoinWords(ws[1..]);
      var r := ws[0] + " " + rest;
      assert forall i :: 0 <= i < |ws[0]| ==> r[i] == ws[0][i];
      assert forall i :: |ws[0]| < i < |r| ==> r[i] == rest[i - |ws[0]| - 1];
      r
  }

  /** Trimmed and single-spaced: no blank at either end and no two blanks in a row. */
  predicate Tidy(s: string) {
    && (s != "" ==> !IsSpace(s[0]) && !IsSpace(s[|s| - 1]))
    && forall i :: 0 <= i < |s| - 1 ==> !(IsSpace(s[i]) && IsSpace(s[i + 1]))
  }

  /** `' '.join(s.split())`. */
  function Collapse(s: string): (r: string)
    ensures Tidy(r)
    ensures IsLowercase(s) ==> IsLowercase(r)
  {
    JoinWords(Words(s, 0))
  }

  lemma {:induction false} TrimStartRun(s: string, chars: set<char>, k: nat)
    requires k <= |s| && (forall j :: 0 <= j < k ==> s[j] in chars) && (k == |s| || s[k] !in chars)
    ensures TrimStart(s, chars) == s[k..]
    decreases k
  {
    if k > 0 {
      TrimStartRun(s[1..], chars, k - 1);
      assert s[1..][k - 1..] == s[k..];
    }
  }

  lemma {:induction false} TrimEndRun(s: string, chars: set<char>, k: nat)
    requires k <= |s| && (forall j :: k <= j < |s| ==> s[j] in chars) && (k == 0 || s[k - 1] !in chars)
    ensures TrimEnd(s, chars) == s[..k]
    decreases |s| - k
  {
    if k < |s| {
      TrimEndRun(s[..|s| - 1], chars, k);
      assert s[..|s| - 1][..k] == s[..k];
    }
  }

  lemma SliceOfSuffix(s: string, a: nat, b: nat)
    requires a <= b <= |s|
    ensures s[a..][..b - a] == s[a..b]
  {
  }

  /** `strip` drops the leading run before `a` and the trailing run from `b` of stripped characters. */
  lemma StripRuns(s: string, chars: set<char>, a: nat, b: nat)
    requires a < b <= |s| && s[a] !in chars && s[b - 1] !in chars
    requires forall j :: 0 <= j < a ==> s[j] in chars
    requires forall j :: b <= j < |s| ==> s[j] in chars
    ensures Strip(s, chars) == s[a..b]
  {
    var t := s[a..];
    TrimStartRun(s, chars, a);
    assert forall j :: b - a <= j < |t| ==> t[j] == s[a + j];
    TrimEndRun(t, chars, b - a);
    SliceOfSuffix(s, a, b);
  }

  /** Stripping a text that neither starts nor ends with a stripped character changes nothing. */
  lemma StripIdempotent(s: string, chars: set<char>)
    requires s == "" || (s[0] !in chars && s[|s| - 1] !in chars)
    ensures Strip(s, chars) == s
  {
  }

  lemma WordsAtWord(s: string, i: nat)
    requires i < |s| && !IsSpace(s[i])
    ensures Words(s, i) == [s[i..NonSpaceRunEnd(s, i)]] + Words(s, NonSpaceRunEnd(s, i))
  {
  }

  lemma JoinCons(ws: seq<string>)
    requires |ws| > 1
    requires forall k :: 0 <= k < |ws| ==> ws[k] != "" && forall c :: 0 <= c < |ws[k]| ==> !IsSpace(ws[k][c])
    ensures JoinWords(ws) == ws[0] + " " + JoinWords(ws[1..])
  {
  }

  lemma SplitAtSpace(s: string, i: nat, e: nat)
    requires i <= e < |s| && s[e] == ' '
    ensures s[i..] == s[i..e] + " " + s[e + 1..]
  {
  }

  /** The word at `i` followed, after one blank, by words that join back to the rest. */
  lemma CollapseStep(s: string, i: nat, e: nat)
    requires i < |s| && !IsSpace(s[i]) && e == NonSpaceRunEnd(s, i)
    requires e < |s| ==> e + 1 < |s| && !IsSpace(s[e + 1]) && Words(s, e + 1) != [] && JoinWords(Words(s, e + 1)) == s[e + 1..]
    ensures Words(s, i) != [] && JoinWords(Words(s, i)) == s[i..]
  {
    WordsAtWord(s, i);
    var ws := Words(s, i);
    if e == |s| {
      assert Words(s, e) == [];
      assert s[i..e] == s[i..];
      assert ws == [s[i..]];
    } else {
      assert Words(s, e) == Words(s, e + 1);
      assert ws[1..] == Words(s, e + 1);
      JoinCons(ws);
      SplitAtSpace(s, i, e);
    }
  }

  /** In a tidy text a blank is followed by a character that is not one. */
  lemma TidyAfterBlank(s: string, e: nat)
    requires Tidy(s) && e < |s| && IsSpace(s[e])
    ensures e + 1 < |s| && !IsSpace(s[e + 1])
  {
  }

  lemma {:induction false} CollapseFrom(s: string, i: nat)
    requires Tidy(s) && i < |s| && !IsSpace(s[i])
    ensures Words(s, i) != [] && JoinWords(Words(s, i)) == s[i..]
    decreases |s| - i
  {
    var e := NonSpaceRunEnd(s, i);
    if e < |s| {
      TidyAfterBlank(s, e);
      CollapseFrom(s, e + 1);
    }
    CollapseStep(s, i, e);
  }

  /** Collapsing a trimmed, single-spaced text changes nothing, so `Collapse` is idempotent. */
  lemma CollapseIdempotent(s: string)
    requires Tidy(s)
    ensures Collapse(s) == s
  {
    if s != "" {
      CollapseFrom(s, 0);
    }
  }

  /**
   * `clean_plugin_name` / `clean_theme_name` of the scrapers/ files, for the
   * given noise words: "" for an empty title, otherwise versions removed,
   * whole noise words removed, the tail after a blank-flanked separator
   * dropped, ' -–|:' stripped, lowercased and whitespace collapsed.
   */
  function CleanName(title: string, noise: seq<string>): (name: string)
    requires NoiseWords(noise)
    ensures title == "" ==> name == ""
    ensures IsLowercase(name) && Tidy(name)
  {
    if title == "" then ""
    else
      var s1 := RemoveNumbers(title, 0, 2);
      var s2 := RemoveWholeWords(s1, 0, noise);
      var s3 := Truncate(s2);
      var s4 := Strip(s3, {' ', '-', '–', '|', ':'});
      LowerIsLowercase(s4);
      Collapse(Lower(s4))
  }

  /** The stages of `CleanName`, one after another. */
  lemma CleanNameStages(title: string, noise: seq<string>, s1: string, s2: string, s3: string, s4: string)
    requires NoiseWords(noise) && title != ""
    requires RemoveNumbers(title, 0, 2) == s1 && RemoveWholeWords(s1, 0, noise) == s2
    requires Truncate(s2) == s3 && Strip(s3, {' ', '-', '–', '|', ':'}) == s4
    ensures CleanName(title, noise) == Collapse(Lower(s4))
  {
  }

  /** `\s+(w1|w2|…)\s*` (case-insensitive) at `i`: the end of the match, if any. */
  function SpacedWordAt(s: string, i: nat, words: seq<string>): (r: Option<nat>)
    requires i <= |s| && NoiseWords(words)
    ensures r.Some? ==> i < r.value <= |s|
  {
    if i < |s| && IsSpace(s[i]) then
      var k := SpaceRunEnd(s, i);
      match FirstWordFrom(s, k, words)
      case Some(n) => Some(SpaceRunEnd(s, k + n))
      case None => None
    else None
  }

  /** The length of the first of `words` that the text at `k` starts with, ignoring case. */
  function FirstWordFrom(s: string, k: nat, words: seq<string>): (r: Option<nat>)
    requires k <= |s| && NoiseWords(words)
    ensures r.Some? ==> 0 < r.value <= |s| - k
    decreases |words|
  {
    if words == [] then None
    else if StartsWithWord(s, k, words[0]) then Some(|words[0]|)
    else FirstWordFrom(s, k, words[1..])
  }

  /** `re.sub(r'\s+(…)\s*', '', s, flags=re.IGNORECASE)` from position `i`. */
  function RemoveSpacedWords(s: string, i: nat, words: seq<string>): (r: string)
    requires i <= |s| && NoiseWords(words)
    ensures |r| <= |s| - i
    decreases |s| - i
  {
    if i == |s| then ""
    else match SpacedWordAt(s, i, words)
      case Some(e) => RemoveSpacedWords(s, e, words)
      case None => [s[i]] + RemoveSpacedWords(s, i + 1, words)
  }

  /** A character that is not a blank is kept. */
  lemma KeepNonBlank(s: string, i: nat, words: seq<string>)
    requires i < |s| && NoiseWords(words) && !IsSpace(s[i])
    ensures RemoveSpacedWords(s, i, words) == [s[i]] + RemoveSpacedWords(s, i + 1, words)
  {
  }

  /** Nothing is removed from a stretch without blanks: a noise word must follow whitespace. */
  lemma {:induction false} NoBlankKeep(s: string, i: nat, n: nat, words: seq<string>)
    requires i <= n <= |s| && NoiseWords(words)
    requires forall j :: i <= j < n ==> !IsSpace(s[j])
    ensures RemoveSpacedWords(s, i, words) == s[i..n] + RemoveSpacedWords(s, n, words)
    decreases n - i
  {
    if i < n {
      NoBlankKeep(s, i + 1, n, words);
      KeepNonBlank(s, i, words);
      ConsSlice(s, i, n, RemoveSpacedWords(s, n, words));
    } else {
      assert s[i..n] == [];
    }
  }

  /** Every character of `s` is a blank. */
  predicate Blanks(s: string) {
    forall j :: 0 <= j < |s| ==> IsSpace(s[j])
  }

  /** A run of `n` blanks at `i` that nothing extends. */
  lemma SpaceRunAt(s: string, i: nat, n: nat)
    requires i + n <= |s|
    requires forall j :: i <= j < i + n ==> IsSpace(s[j])
    requires i + n == |s| || !IsSpace(s[i + n])
    ensures SpaceRunEnd(s, i) == i + n
  {
  }

  /** Blank runs are found the same way after any prefix. */
  lemma SpaceRunEndShift(p: string, t: string, j: nat)
    requires j <= |t|
    ensures SpaceRunEnd(p + t, |p| + j) == |p| + SpaceRunEnd(t, j)
  {
    var e := SpaceRunEnd(t, j);
    assert forall k :: |p| + j <= k < |p| + e ==> (p + t)[k] == t[k - |p|];
    SpaceRunAt(p + t, |p| + j, e - j);
  }

  lemma StartsWithWordShift(p: string, t: string, j: nat, w: string)
    requires j <= |t|
    ensures StartsWithWord(p + t, |p| + j, w) <==> StartsWithWord(t, j, w)
  {
    StartsWithWordChars(p + t, |p| + j, w);
    StartsWithWordChars(t, j, w);
    if |p| + j + |w| <= |p + t| {
      assert forall k :: |p| + j <= k < |p| + j + |w| ==> (p + t)[k] == t[k - |p|];
    }
  }

  lemma {:induction false} FirstWordFromShift(p: string, t: string, k: nat, words: seq<string>)
    requires k <= |t| && NoiseWords(words)
    ensures FirstWordFrom(p + t, |p| + k, words) == FirstWordFrom(t, k, words)
    decreases |words|
  {
    if words != [] {
      StartsWithWordShift(p, t, k, words[0]);
      FirstWordFromShift(p, t, k, words[1..]);
    }
  }

  /** `FirstWordFrom` takes the first alternative the text starts with. */
  lemma {:induction false} FirstWordFromIsFirst(s: string, k: nat, words: seq<string>, n: nat)
    requires k <= |s| && NoiseWords(words) && n < |words|
    requires StartsWithWord(s, k, words[n])
    requires forall m :: 0 <= m < n ==> !StartsWithWord(s, k, words[m])
    ensures FirstWordFrom(s, k, words) == Some(|words[n]|)
    decreases n
  {
    if n > 0 {
      assert !StartsWithWord(s, k, words[0]);
      assert forall m :: 0 <= m < n - 1 ==> words[1..][m] == words[m + 1];
      FirstWordFromIsFirst(s, k, words[1..], n - 1);
    }
  }

  /** `FirstWordFrom` finds nothing where no alternative starts. */
  lemma {:induction false} FirstWordFromNone(s: string, k: nat, words: seq<string>)
    requires k <= |s| && NoiseWords(words)
    requires forall m :: 0 <= m < |words| ==> !StartsWithWord(s, k, words[m])
    ensures FirstWordFrom(s, k, words).None?
    decreases |words|
  {
    if words != [] {
      assert forall m :: 0 <= m < |words| - 1 ==> words[1..][m] == words[m + 1];
      FirstWordFromNone(s, k, words[1..]);
    }
  }

  lemma SpacedWordAtShift(p: string, t: string, j: nat, words: seq<string>)
    requires j < |t| && NoiseWords(words)
    ensures SpacedWordAt(p + t, |p| + j, words) ==
      match SpacedWordAt(t, j, words)
      case Some(e) => Some(|p| + e)
      case None => None
  {
    assert (p + t)[|p| + j] == t[j];
    if IsSpace(t[j]) {
      SpaceRunEndShift(p, t, j);
      var k := SpaceRunEnd(t, j);
      FirstWordFromShift(p, t, k, words);
      match FirstWordFrom(t, k, words)
      case Some(n) =>
        SpaceRunEndShift(p, t, k + n);
      case None =>
    }
  }

  lemma ShiftKeepStep(p: string, t: string, j: nat, words: seq<string>)
    requires j < |t| && NoiseWords(words) && SpacedWordAt(t, j, words).None?
    requires RemoveSpacedWords(p + t, |p| + (j + 1), words) == RemoveSpacedWords(t, j + 1, words)
    ensures RemoveSpacedWords(p + t, |p| + j, words) == RemoveSpacedWords(t, j, words)
  {
    SpacedWordAtShift(p, t, j, words);
    assert (p + t)[|p| + j] == t[j];
    assert |p| + (j + 1) == |p| + j + 1;
  }

  lemma ShiftSkipStep(p: string, t: string, j: nat, words: seq<string>, e: nat)
    requires j < |t| && NoiseWords(words) && SpacedWordAt(t, j, words) == Some(e)
    requires RemoveSpacedWords(p + t, |p| + e, words) == RemoveSpacedWords(t, e, words)
    ensures RemoveSpacedWords(p + t, |p| + j, words) == RemoveSpacedWords(t, j, words)
  {
    SpacedWordAtShift(p, t, j, words);
  }

  /** What the substitution does from a position on depends on the text from there on only. */
  lemma {:induction false} RemoveSpacedWordsShift(p: string, t: string, j: nat, words: seq<string>)
    requires j <= |t| && NoiseWords(words)
    ensures RemoveSpacedWords(p + t, |p| + j, words) == RemoveSpacedWords(t, j, words)
    decreases |t| - j
  {
    if j < |t| {
      match SpacedWordAt(t, j, words)
      case Some(e) =>
        RemoveSpacedWordsShift(p, t, e, words);
        ShiftSkipStep(p, t, j, words, e);
      case None =>
        RemoveSpacedWordsShift(p, t, j + 1, words);
        ShiftKeepStep(p, t, j, words);
    } else {
      assert |p| + j == |p + t|;
    }
  }

  /** Blanks from `i` to `k`, an alternative of length `len` at `k`, and blanks up to `e`: the match ends at `e`. */
  lemma SpacedWordAtIs(s: string, i: nat, k: nat, len: nat, e: nat, words: seq<string>)
    requires i < k < |s| && k + len <= e <= |s| && NoiseWords(words)
    requires forall j :: i <= j < k ==> IsSpace(s[j])
    requires !IsSpace(s[k])
    requires FirstWordFrom(s, k, words) == Some(len)
    requires forall j :: k + len <= j < e ==> IsSpace(s[j])
    requires e == |s| || !IsSpace(s[e])
    ensures SpacedWordAt(s, i, words) == Some(e)
  {
    SpaceRunAt(s, i, k - i);
    SpaceRunAt(s, k + len, e - (k + len));
  }

  /** A text spelling `words[n]` in some case, with no earlier alternative there: `words[n]` is found, and the text does not start with a blank. */
  lemma SpelledWordFound(w: string, sp: string, y: string, words: seq<string>, n: nat)
    requires NoiseWords(words) && n < |words|
    requires Lower(w) == words[n]
    requires forall m :: 0 <= m < n ==> !StartsWithWord(w + sp + y, 0, words[m])
    ensures FirstWordFrom(w + sp + y, 0, words) == Some(|w|)
    ensures w + sp + y != "" && !IsSpace((w + sp + y)[0])
  {
    var t := w + sp + y;
    StartsWithWordChars(t, 0, words[n]);
    assert forall d :: 0 <= d < |w| ==> t[d] == w[d];
    assert ToLower(t[0]) == words[n][0];
    FirstWordFromIsFirst(t, 0, words, n);
  }

  /** The match at `a` of `q + t`: the blanks ending `q`, the word found at the head of `t`, and the blanks after it. */
  lemma SpacedNoiseMatch(q: string, t: string, a: nat, len: nat, e: nat, words: seq<string>)
    requires NoiseWords(words)
    requires a < |q| && len <= e <= |t|
    requires forall j :: a <= j < |q| ==> IsSpace(q[j])
    requires FirstWordFrom(t, 0, words) == Some(len)
    requires t != "" && !IsSpace(t[0])
    requires forall j :: len <= j < e ==> IsSpace(t[j])
    requires e == |t| || !IsSpace(t[e])
    ensures SpacedWordAt(q + t, a, words) == Some(|q| + e)
  {
    var s := q + t;
    FirstWordFromShift(q, t, 0, words);
    assert forall j :: 0 <= j < |q| ==> s[j] == q[j];
    assert forall j :: |q| <= j < |s| ==> s[j] == t[j - |q|];
    SpacedWordAtIs(s, a, |q|, len, |q| + e, words);
  }

  /** A match at `a` is skipped as a whole. */
  lemma SkipMatch(s: string, a: nat, e: nat, words: seq<string>)
    requires a < |s| && NoiseWords(words)
    requires SpacedWordAt(s, a, words) == Some(e)
    ensures RemoveSpacedWords(s, a, words) == RemoveSpacedWords(s, e, words)
  {
  }

  /** The blank-free head `q[..a]` of `q + t` is copied. */
  lemma KeepBlankFree(q: string, t: string, a: nat, words: seq<string>)
    requires a <= |q| && NoiseWords(words)
    requires forall j :: 0 <= j < a ==> !IsSpace(q[j])
    ensures RemoveSpacedWords(q + t, 0, words) == q[..a] + RemoveSpacedWords(q + t, a, words)
  {
    var s := q + t;
    assert forall j :: 0 <= j < a ==> s[j] == q[j];
    NoBlankKeep(s, 0, a, words);
    assert s[0..a] == q[..a];
  }

  /**
   * Blank-free text up to `a` and blanks after it in `q`, then a `t` whose
   * first alternative has length `len` and is followed by blanks up to `e`,
   * which a non-blank follows: the blanks of `q`, the word and the blanks
   * after it go.
   */
  lemma SpacedNoiseAt(q: string, t: string, a: nat, len: nat, e: nat, words: seq<string>)
    requires NoiseWords(words)
    requires a < |q| && len <= e <= |t|
    requires forall j :: 0 <= j < a ==> !IsSpace(q[j])
    requires forall j :: a <= j < |q| ==> IsSpace(q[j])
    requires FirstWordFrom(t, 0, words) == Some(len)
    requires t != "" && !IsSpace(t[0])
    requires forall j :: len <= j < e ==> IsSpace(t[j])
    requires e == |t| || !IsSpace(t[e])
    ensures RemoveSpacedWords(q + t, 0, words) == q[..a] + RemoveSpacedWords(t, e, words)
  {
    SpacedNoiseMatch(q, t, a, len, e, words);
    SkipMatch(q + t, a, |q| + e, words);
    KeepBlankFree(q, t, a, words);
    RemoveSpacedWordsShift(q, t, e, words);
  }

  /** Blank-free `x` and blanks `sp1`: where they sit in `x + sp1`. */
  lemma HeadPieces(x: string, sp1: string)
    requires Blanks(sp1)
    requires forall j :: 0 <= j < |x| ==> !IsSpace(x[j])
    ensures (x + sp1)[..|x|] == x
    ensures forall j :: 0 <= j < |x| ==> !IsSpace((x + sp1)[j])
    ensures forall j :: |x| <= j < |x + sp1| ==> IsSpace((x + sp1)[j])
  {
    assert forall j :: |x| <= j < |x + sp1| ==> (x + sp1)[j] == sp1[j - |x|];
  }

  /** The word `w`, blanks `sp2`, then `y` that does not start with a blank: where they sit in `w + sp2 + y`. */
  lemma TailPieces(w: string, sp2: string, y: string)
    requires Blanks(sp2)
    requires y == "" || !IsSpace(y[0])
    ensures forall j :: |w| <= j < |w + sp2| ==> IsSpace((w + sp2 + y)[j])
    ensures |w + sp2| == |w + sp2 + y| || !IsSpace((w + sp2 + y)[|w + sp2|])
  {
    var t := w + sp2 + y;
    assert forall j :: |w| <= j < |w + sp2| ==> t[j] == sp2[j - |w|];
    assert |w + sp2| < |t| ==> t[|w + sp2|] == y[0];
  }

  /** After a prefix, the substitution goes on as on the rest alone. */
  lemma AfterPrefix(p: string, t: string, words: seq<string>)
    requires NoiseWords(words)
    ensures RemoveSpacedWords(p + t, |p|, words) == RemoveSpacedWords(t, 0, words)
  {
    RemoveSpacedWordsShift(p, t, 0, words);
  }

  /** `(x + sp1) + (w + sp2 + y)` is `x + sp1 + w + sp2 + y`. */
  lemma Regroup(x: string, sp1: string, w: string, sp2: string, y: string)
    ensures (x + sp1) + (w + sp2 + y) == x + sp1 + w + sp2 + y
  {
  }

  /**
   * A noise word after blanks goes together with those blanks and the blanks
   * after it: `x + blanks + w + blanks + y` becomes `x` followed by the
   * substitution on `y`, for a blank-free `x`, a `w` that spells the noise
   * word `words[n]` in any case and is the first alternative found there, and
   * a `y` that does not start with a blank.
   */
  lemma SpacedNoiseRemoved(x: string, sp1: string, w: string, sp2: string, y: string, words: seq<string>, n: nat)
    requires NoiseWords(words) && n < |words|
    requires forall j :: 0 <= j < |x| ==> !IsSpace(x[j])
    requires sp1 != "" && Blanks(sp1) && Blanks(sp2)
    requires Lower(w) == words[n]
    requires forall m :: 0 <= m < n ==> !StartsWithWord(w + sp2 + y, 0, words[m])
    requires y == "" || !IsSpace(y[0])
    ensures RemoveSpacedWords(x + sp1 + w + sp2 + y, 0, words) == x + RemoveSpacedWords(y, 0, words)
  {
    var q, t := x + sp1, w + sp2 + y;
    SpelledWordFound(w, sp2, y, words, n);
    HeadPieces(x, sp1);
    TailPieces(w, sp2, y);
    SpacedNoiseAt(q, t, |x|, |w|, |w + sp2|, words);
    AfterPrefix(w + sp2, y, words);
    Regroup(x, sp1, w, sp2, y);
  }

  /** Blanks from `i` to `n` that no noise word follows: no match at `i`. */
  lemma BlankKeptStep(s: string, i: nat, n: nat, words: seq<string>)
    requires i < n <= |s| && NoiseWords(words)
    requires forall j :: i <= j < n ==> IsSpace(s[j])
    requires n == |s| || !IsSpace(s[n])
    requires FirstWordFrom(s, n, words).None?
    ensures SpacedWordAt(s, i, words).None?
  {
    SpaceRunAt(s, i, n - i);
  }

  /** Blanks that no noise word follows are all kept, however many there are. */
  lemma {:induction false} BlankRunKeptFrom(s: string, i: nat, n: nat, words: seq<string>)
    requires i <= n <= |s| && NoiseWords(words)
    requires forall j :: i <= j < n ==> IsSpace(s[j])
    requires n == |s| || !IsSpace(s[n])
    requires FirstWordFrom(s, n, words).None?
    ensures RemoveSpacedWords(s, i, words) == s[i..n] + RemoveSpacedWords(s, n, words)
    decreases n - i
  {
    if i < n {
      BlankRunKeptFrom(s, i + 1, n, words);
      BlankKeptStep(s, i, n, words);
      ConsSlice(s, i, n, RemoveSpacedWords(s, n, words));
    } else {
      assert s[i..n] == [];
    }
  }

  /**
   * A blank run that no noise word follows is copied unchanged: inner
   * whitespace is not collapsed.
   */
  lemma BlankRunKept(sp: string, y: string, words: seq<string>)
    requires NoiseWords(words) && Blanks(sp)
    requires y == "" || !IsSpace(y[0])
    requires forall m :: 0 <= m < |words| ==> !StartsWithWord(y, 0, words[m])
    ensures RemoveSpacedWords(sp + y, 0, words) == sp + RemoveSpacedWords(y, 0, words)
  {
    var s := sp + y;
    FirstWordFromNone(y, 0, words);
    FirstWordFromShift(sp, y, 0, words);
    assert |sp| < |s| ==> s[|sp|] == y[0];
    BlankRunKeptFrom(s, 0, |sp|, words);
    assert s[0..|sp|] == sp;
    RemoveSpacedWordsShift(sp, y, 0, words);
  }


  /**
   * `_clean_plugin_name` of src/scraper.py: versions (three components at
   * most) removed, blank-preceded noise words removed together with the
   * blanks around them, ' -–|' stripped and lowercased; inner blanks stay.
   */
  function CleanNameShort(title: string, noise: seq<string>): (name: string)
    requires NoiseWords(noise)
    ensures IsLowercase(name)
    ensures name == "" || (name[0] !in {' ', '-', '–', '|'} && name[|name| - 1] !in {' ', '-', '–', '|'})
  {
    var s1 := RemoveNumbers(title, 0, 1);
    var s2 := RemoveSpacedWords(s1, 0, noise);
    var s3 := Strip(s2, {' ', '-', '–', '|'});
    LowerIsLowercase(s3);
    Lower(s3)
  }

  /** The stages of `CleanNameShort`, one after another. */
  lemma CleanNameShortStages(title: string, noise: seq<string>, s1: string, s2: string, s3: string)
    requires NoiseWords(noise)
    requires RemoveNumbers(title, 0, 1) == s1 && RemoveSpacedWords(s1, 0, noise) == s2
    requires Strip(s2, {' ', '-', '–', '|'}) == s3
    ensures CleanNameShort(title, noise) == Lower(s3)
  {
  }
  /** `s` holds no digit. */
  predicate DigitFree(s: string) {
    forall j :: 0 <= j < |s| ==> !IsDigit(s[j])
  }

  /** Version removal leaves text without digits as it is. */
  lemma DigitFreeKept(s: string)
    requires DigitFree(s)
    ensures RemoveNumbers(s, 0, 1) == s
  {
    KeepNonDigits(s, 0, |s|, 1);
    assert s[0..|s|] == s;
  }

  lemma DigitFreeConcat(a: string, b: string)
    requires DigitFree(a) && DigitFree(b)
    ensures DigitFree(a + b)
  {
    assert forall j :: |a| <= j < |a + b| ==> (a + b)[j] == b[j - |a|];
  }

  /** A blank run and a spelling of a noise word hold no digit. */
  lemma BlanksAndSpellingDigitFree(sp: string, w: string, word: string)
    requires Blanks(sp) && Lower(w) == word
    requires forall d :: 0 <= d < |word| ==> 'a' <= word[d] <= 'z'
    ensures DigitFree(sp) && DigitFree(w)
  {
    assert forall d :: 0 <= d < |w| ==> ToLower(w[d]) == word[d];
  }

  lemma PiecesDigitFree(x: string, sp1: string, w: string, sp2: string, y: string, word: string)
    requires DigitFree(x) && DigitFree(y) && Blanks(sp1) && Blanks(sp2) && Lower(w) == word
    requires forall d :: 0 <= d < |word| ==> 'a' <= word[d] <= 'z'
    ensures DigitFree(x + sp1 + w + sp2 + y)
  {
    BlanksAndSpellingDigitFree(sp1, w, word);
    BlanksAndSpellingDigitFree(sp2, w, word);
    DigitFreeConcat(x, sp1);
    DigitFreeConcat(x + sp1, w);
    DigitFreeConcat(x + sp1 + w, sp2);
    DigitFreeConcat(x + sp1 + w + sp2, y);
  }

  /** The substitution on `x + y` for a blank-free `x` keeps `x`. */
  lemma BlankFreeHead(x: string, y: string, words: seq<string>)
    requires NoiseWords(words)
    requires forall j :: 0 <= j < |x| ==> !IsSpace(x[j])
    ensures RemoveSpacedWords(x + y, 0, words) == x + RemoveSpacedWords(y, 0, words)
  {
    KeepBlankFree(x, y, |x|, words);
    assert x[..|x|] == x;
    AfterPrefix(x, y, words);
  }

  /**
   * Cleaning a title without digits gives the same name as cleaning it with a
   * blank-preceded noise word and the blanks around it cut out
   * (`SpacedNoiseRemoved`, lifted to the whole cleaner).
   */
  lemma NoiseWordDropped(x: string, sp1: string, w: string, sp2: string, y: string, noise: seq<string>, n: nat)
    requires NoiseWords(noise) && n < |noise|
    requires DigitFree(x) && DigitFree(y)
    requires forall j :: 0 <= j < |x| ==> !IsSpace(x[j])
    requires sp1 != "" && Blanks(sp1) && Blanks(sp2)
    requires Lower(w) == noise[n]
    requires forall m :: 0 <= m < n ==> !StartsWithWord(w + sp2 + y, 0, noise[m])
    requires y == "" || !IsSpace(y[0])
    ensures CleanNameShort(x + sp1 + w + sp2 + y, noise) == CleanNameShort(x + y, noise)
  {
    var s := x + sp1 + w + sp2 + y;
    PiecesDigitFree(x, sp1, w, sp2, y, noise[n]);
    DigitFreeKept(s);
    DigitFreeConcat(x, y);
    DigitFreeKept(x + y);
    SpacedNoiseRemoved(x, sp1, w, sp2, y, noise, n);
    BlankFreeHead(x, y, noise);
    var s2 := x + RemoveSpacedWords(y, 0, noise);
    var s3 := Strip(s2, {' ', '-', '–', '|'});
    CleanNameShortStages(s, noise, s, s2, s3);
    CleanNameShortStages(x + y, noise, x + y, s2, s3);
  }

}
