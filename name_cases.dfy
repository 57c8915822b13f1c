/**
 * The worked cases of `clean_plugin_name` / `clean_theme_name`, stated for
 * any noise list that contains (or lacks) the words each case depends on;
 * the site modules instantiate them with their own lists.
 */
module NameCases {
  import opened Text
  import opened Normalizer

  /** A word followed by a gap: the word survives unless it is noise. */
  lemma KeptPair(w: string, gap: string, words: seq<string>)
    requires WordToken(w) && GapToken(gap)
    ensures Kept([w, gap], words) == (if Lower(w) in words then [] else [w]) + [gap]
  {
    assert !WordToken(gap) by {
      assert !IsWordChar(gap[0]);
    }
    assert [w, gap][1..] == [gap];
    assert Kept([gap], words) == [gap] by {
      assert [gap][1..] == [];
    }
  }

  /** A last word: gone if it is noise. */
  lemma KeptLast(w: string, words: seq<string>)
    requires WordToken(w)
    ensures Kept([w], words) == if Lower(w) in words then [] else [w]
  {
    assert [w][1..] == [];
  }

  lemma GapRun(g: string)
    requires g != "" && forall c :: 0 <= c < |g| ==> g[c] == ' ' || g[c] == '-' || g[c] == '|'
    ensures GapToken(g) && !WordToken(g)
  {
    assert !IsWordChar(g[0]);
  }

  /** Three runs word, gap, word, gap, word[, gap] alternate. */
  lemma FiveTokens(ts: seq<string>)
    requires |ts| == 5 && WordToken(ts[0]) && WordToken(ts[2]) && WordToken(ts[4])
    requires GapToken(ts[1]) && GapToken(ts[3]) && !WordToken(ts[1]) && !WordToken(ts[3])
    ensures Tokens(ts)
  {
  }

  lemma SixTokens(ts: seq<string>)
    requires |ts| == 6 && WordToken(ts[0]) && WordToken(ts[2]) && WordToken(ts[4])
    requires GapToken(ts[1]) && GapToken(ts[3]) && GapToken(ts[5])
    requires !WordToken(ts[1]) && !WordToken(ts[3]) && !WordToken(ts[5])
    ensures Tokens(ts)
  {
  }

  // "Plugin Name Pro 1.2.3": the version goes, then "Plugin" and "Pro" as whole words.

  const T1 := "Plugin Name Pro 1.2.3"
  const R1: seq<string> := ["Plugin", " ", "Name", " ", "Pro", " "]

  lemma T1Version()
    ensures NumberStartsAt(T1, 16) && NumberEnd(T1, 16, 2) == 21
  {
    DigitRunAt(T1, 16, 1);
    DigitRunAt(T1, 18, 1);
    DigitRunAt(T1, 20, 1);
  }

  lemma T1Letters()
    ensures forall j :: 0 <= j < 16 ==> !IsDigit(T1[j])
    ensures T1[0..16] == "Plugin Name Pro "
  {
  }

  lemma T1AtVersion()
    ensures RemoveNumbers(T1, 16, 2) == ""
  {
    T1Version();
    assert RemoveNumbers(T1, 16, 2) == RemoveNumbers(T1, 21, 2);
  }

  lemma T1Numbers()
    ensures RemoveNumbers(T1, 0, 2) == "Plugin Name Pro "
  {
    T1Letters();
    KeepNonDigits(T1, 0, 16, 2);
    T1AtVersion();
  }

  lemma R1Runs()
    ensures WordToken("Plugin") && WordToken("Name") && WordToken("Pro")
    ensures Lower("Plugin") == "plugin" && Lower("Name") == "name" && Lower("Pro") == "pro"
  {
  }

  lemma R1Join()
    ensures Join(R1) == "Plugin Name Pro "
  {
  }

  lemma R1Tokens()
    ensures Tokens(R1)
  {
    R1Runs();
    GapRun(" ");
    SixTokens(R1);
  }

  lemma R1KeptRuns(words: seq<string>)
    requires "plugin" in words && "pro" in words && "name" !in words
    ensures Kept(R1, words) == [" ", "Name", " ", " "]
  {
    assert R1 == ["Plugin", " "] + ["Name", " "] + ["Pro", " "];
    KeptAppend(["Plugin", " "] + ["Name", " "], ["Pro", " "], words);
    KeptAppend(["Plugin", " "], ["Name", " "], words);
    R1Runs();
    GapRun(" ");
    KeptPair("Plugin", " ", words);
    KeptPair("Name", " ", words);
    KeptPair("Pro", " ", words);
  }

  lemma R1Kept(words: seq<string>)
    requires "plugin" in words && "pro" in words && "name" !in words
    ensures Join(Kept(R1, words)) == " Name  "
  {
    R1KeptRuns(words);
    assert Join([" ", "Name", " ", " "]) == " Name  ";
  }

  lemma T1Words(words: seq<string>)
    requires NoiseWords(words) && "plugin" in words && "pro" in words && "name" !in words
    ensures RemoveWholeWords("Plugin Name Pro ", 0, words) == Rest1
  {
    R1Tokens();
    R1Join();
    R1Kept(words);
    RemoveWholeWordsByTokens(R1, words);
  }

  /** What is left of T1 after noise removal. */
  const Rest1 := " Name  "

  lemma T1Truncate()
    ensures Truncate(Rest1) == Rest1
  {
    NoSeparatorNoTruncate(Rest1, 0);
  }

  lemma Rest1Ends()
    ensures |Rest1| == 7 && Rest1[1] !in {' ', '-', '–', '|', ':'} && Rest1[4] !in {' ', '-', '–', '|', ':'}
    ensures forall j :: 0 <= j < 1 ==> Rest1[j] in {' ', '-', '–', '|', ':'}
  {
  }

  lemma Rest1Tail()
    ensures forall j :: 5 <= j < |Rest1| ==> Rest1[j] in {' ', '-', '–', '|', ':'}
  {
  }

  lemma Rest1Inner()
    ensures Rest1[1..5] == "Name"
  {
  }

  lemma T1Strip()
    ensures Strip(Rest1, {' ', '-', '–', '|', ':'}) == "Name"
  {
    Rest1Ends();
    Rest1Tail();
    Rest1Inner();
    StripRuns(Rest1, {' ', '-', '–', '|', ':'}, 1, 5);
  }

  lemma T1LowerText()
    ensures Lower("Name") == "name"
  {
  }

  lemma T1LowerTidy()
    ensures Tidy("name")
  {
  }

  lemma T1Lower()
    ensures Collapse(Lower("Name")) == "name"
  {
    T1LowerText();
    T1LowerTidy();
    CollapseIdempotent("name");
  }

  /** With "plugin" and "pro" as noise and "name" not, the title cleans to "name". */
  lemma CleanNameCase1(words: seq<string>)
    requires NoiseWords(words) && "plugin" in words && "pro" in words && "name" !in words
    ensures CleanName(T1, words) == "name"
  {
    T1Numbers();
    T1Words(words);
    T1Truncate();
    T1Strip();
    T1Lower();
    CleanNameStages(T1, words, "Plugin Name Pro ", Rest1, Rest1, "Name");
  }

  // "Something Premium | Download": "Premium" and "Download" go, then everything from " | " on.

  const T2 := "Something Premium | Download"
  const R2: seq<string> := ["Something", " ", "Premium", " | ", "Download"]

  lemma T2Numbers()
    ensures RemoveNumbers(T2, 0, 2) == T2
  {
    KeepNonDigits(T2, 0, |T2|, 2);
    assert T2[0..|T2|] == T2;
  }

  lemma R2Runs()
    ensures WordToken("Something") && WordToken("Premium") && WordToken("Download")
    ensures Lower("Something") == "something" && Lower("Premium") == "premium" && Lower("Download") == "download"
  {
  }

  lemma R2Join()
    ensures Join(R2) == T2
  {
  }

  lemma R2Tokens()
    ensures Tokens(R2)
  {
    R2Runs();
    GapRun(" ");
    GapRun(" | ");
    FiveTokens(R2);
  }

  lemma R2KeptRuns(words: seq<string>)
    requires "premium" in words && "download" in words && "something" !in words
    ensures Kept(R2, words) == ["Something", " ", " | "]
  {
    assert R2 == ["Something", " "] + ["Premium", " | "] + ["Download"];
    KeptAppend(["Something", " "] + ["Premium", " | "], ["Download"], words);
    KeptAppend(["Something", " "], ["Premium", " | "], words);
    R2Runs();
    GapRun(" ");
    GapRun(" | ");
    KeptPair("Something", " ", words);
    KeptPair("Premium", " | ", words);
    KeptLast("Download", words);
  }

  lemma T2Words(words: seq<string>)
    requires NoiseWords(words) && "premium" in words && "download" in words && "something" !in words
    ensures RemoveWholeWords(T2, 0, words) == "Something  | "
  {
    R2Tokens();
    R2Join();
    R2KeptRuns(words);
    assert Join(["Something", " ", " | "]) == "Something  | ";
    RemoveWholeWordsByTokens(R2, words);
  }

  lemma T2TailTruncate()
    ensures Truncate("Something  | ") == "Something"
  {
    var s := "Something  | ";
    assert SpaceRunEnd(s, 9) == 11;
    TruncateAt(s, 0, 9);
    assert s[..9] == "Something";
  }

  lemma T2TailStrip()
    ensures Strip("Something", {' ', '-', '–', '|', ':'}) == "Something"
  {
    StripIdempotent("Something", {' ', '-', '–', '|', ':'});
  }

  lemma T2TailLowerText()
    ensures Lower("Something") == "something"
  {
  }

  lemma T2TailLowerTidy()
    ensures Tidy("something")
  {
  }

  lemma T2TailLower()
    ensures Collapse(Lower("Something")) == "something"
  {
    T2TailLowerText();
    T2TailLowerTidy();
    CollapseIdempotent("something");
  }

  lemma Case2Words(words: seq<string>)
    requires NoiseWords(words) && "premium" in words && "download" in words && "something" !in words
    ensures RemoveWholeWords(RemoveNumbers(T2, 0, 2), 0, words) == "Something  | "
  {
    T2Numbers();
    T2Words(words);
  }

  lemma Case2Truncated(words: seq<string>)
    requires NoiseWords(words) && "premium" in words && "download" in words && "something" !in words
    ensures Truncate(RemoveWholeWords(RemoveNumbers(T2, 0, 2), 0, words)) == "Something"
  {
    Case2Words(words);
    T2TailTruncate();
  }

  lemma Case2Stripped(words: seq<string>)
    requires NoiseWords(words) && "premium" in words && "download" in words && "something" !in words
    ensures Strip(Truncate(RemoveWholeWords(RemoveNumbers(T2, 0, 2), 0, words)), {' ', '-', '–', '|', ':'}) == "Something"
  {
    Case2Truncated(words);
    T2TailStrip();
  }

  /** With "premium" and "download" as noise and "something" not, the title cleans to "something". */
  lemma CleanNameCase2(words: seq<string>)
    requires NoiseWords(words) && "premium" in words && "download" in words && "something" !in words
    ensures CleanName(T2, words) == "something"
  {
    Case2Stripped(words);
    T2TailLower();
  }

  // "Test Plugin - WordPress": "WordPress" goes, "Plugin" when it is noise, then everything from " - " on.

  const T3 := "Test Plugin - WordPress"
  const R3: seq<string> := ["Test", " ", "Plugin", " - ", "WordPress"]

  lemma T3Numbers()
    ensures RemoveNumbers(T3, 0, 2) == T3
  {
    KeepNonDigits(T3, 0, |T3|, 2);
    assert T3[0..|T3|] == T3;
  }

  lemma R3Runs()
    ensures WordToken("Test") && WordToken("Plugin") && WordToken("WordPress")
    ensures Lower("Test") == "test" && Lower("Plugin") == "plugin" && Lower("WordPress") == "wordpress"
  {
  }

  lemma R3Join()
    ensures Join(R3) == T3
  {
  }

  lemma R3Tokens()
    ensures Tokens(R3)
  {
    R3Runs();
    GapRun(" ");
    GapRun(" - ");
    FiveTokens(R3);
  }

  lemma R3KeptRuns(words: seq<string>)
    requires "wordpress" in words && "test" !in words
    ensures Kept(R3, words) == ["Test", " "] + (if "plugin" in words then [] else ["Plugin"]) + [" - "]
  {
    assert R3 == ["Test", " "] + ["Plugin", " - "] + ["WordPress"];
    KeptAppend(["Test", " "] + ["Plugin", " - "], ["WordPress"], words);
    KeptAppend(["Test", " "], ["Plugin", " - "], words);
    R3Runs();
    GapRun(" ");
    GapRun(" - ");
    KeptPair("Test", " ", words);
    KeptPair("Plugin", " - ", words);
    KeptLast("WordPress", words);
  }

  lemma R3JoinedNoise()
    ensures Join(["Test", " "] + [] + [" - "]) == "Test  - "
  {
    assert ["Test", " "] + [] + [" - "] == ["Test", " ", " - "];
    assert Join(["Test", " ", " - "]) == "Test" + (" " + (" - " + ""));
  }

  lemma R3JoinedKept()
    ensures Join(["Test", " "] + ["Plugin"] + [" - "]) == "Test Plugin - "
  {
    assert ["Test", " "] + ["Plugin"] + [" - "] == ["Test", " ", "Plugin", " - "];
    assert Join(["Test", " ", "Plugin", " - "]) == "Test" + (" " + ("Plugin" + (" - " + "")));
  }

  lemma T3Words(words: seq<string>)
    requires NoiseWords(words) && "wordpress" in words && "test" !in words
    ensures RemoveWholeWords(T3, 0, words) == if "plugin" in words then "Test  - " else "Test Plugin - "
  {
    R3Tokens();
    R3Join();
    R3KeptRuns(words);
    R3JoinedNoise();
    R3JoinedKept();
    if "plugin" in words {
      assert Kept(R3, words) == ["Test", " "] + [] + [" - "];
    } else {
      assert Kept(R3, words) == ["Test", " "] + ["Plugin"] + [" - "];
    }
    RemoveWholeWordsByTokens(R3, words);
  }

  lemma T3TailTruncate()
    ensures Truncate("Test  - ") == "Test"
  {
    var s := "Test  - ";
    assert SpaceRunEnd(s, 4) == 6;
    TruncateAt(s, 0, 4);
    assert s[..4] == "Test";
  }

  lemma T3TailStrip()
    ensures Strip("Test", {' ', '-', '–', '|', ':'}) == "Test"
  {
    StripIdempotent("Test", {' ', '-', '–', '|', ':'});
  }

  lemma T3TailLowerText()
    ensures Lower("Test") == "test"
  {
  }

  lemma T3TailLowerTidy()
    ensures Tidy("test")
  {
  }

  lemma T3TailLower()
    ensures Collapse(Lower("Test")) == "test"
  {
    T3TailLowerText();
    T3TailLowerTidy();
    CollapseIdempotent("test");
  }

  lemma T3TailKeptTruncate()
    ensures Truncate("Test Plugin - ") == "Test Plugin"
  {
    var s := "Test Plugin - ";
    assert SpaceRunEnd(s, 4) == 5;
    assert SpaceRunEnd(s, 11) == 12;
    assert forall j :: 0 <= j < 11 && j != 4 ==> !IsSpace(s[j]);
    TruncateAt(s, 0, 11);
    assert s[..11] == "Test Plugin";
  }

  lemma T3TailKeptStrip()
    ensures Strip("Test Plugin", {' ', '-', '–', '|', ':'}) == "Test Plugin"
  {
    StripIdempotent("Test Plugin", {' ', '-', '–', '|', ':'});
  }

  lemma T3TailKeptLowerText()
    ensures Lower("Test Plugin") == "test plugin"
  {
  }

  lemma T3TailKeptLowerTidy()
    ensures Tidy("test plugin")
  {
  }

  lemma T3TailKeptLower()
    ensures Collapse(Lower("Test Plugin")) == "test plugin"
  {
    T3TailKeptLowerText();
    T3TailKeptLowerTidy();
    CollapseIdempotent("test plugin");
  }

  lemma Case3Words(words: seq<string>)
    requires NoiseWords(words) && "wordpress" in words && "plugin" in words && "test" !in words
    ensures RemoveWholeWords(RemoveNumbers(T3, 0, 2), 0, words) == "Test  - "
  {
    T3Numbers();
    T3Words(words);
  }

  lemma Case3Truncated(words: seq<string>)
    requires NoiseWords(words) && "wordpress" in words && "plugin" in words && "test" !in words
    ensures Truncate(RemoveWholeWords(RemoveNumbers(T3, 0, 2), 0, words)) == "Test"
  {
    Case3Words(words);
    T3TailTruncate();
  }

  lemma Case3Stripped(words: seq<string>)
    requires NoiseWords(words) && "wordpress" in words && "plugin" in words && "test" !in words
    ensures Strip(Truncate(RemoveWholeWords(RemoveNumbers(T3, 0, 2), 0, words)), {' ', '-', '–', '|', ':'}) == "Test"
  {
    Case3Truncated(words);
    T3TailStrip();
  }

  /** With "wordpress" and "plugin" as noise and "test" not, the title cleans to "test". */
  lemma CleanNameCase3(words: seq<string>)
    requires NoiseWords(words) && "wordpress" in words && "plugin" in words && "test" !in words
    ensures CleanName(T3, words) == "test"
  {
    Case3Stripped(words);
    T3TailLower();
  }

  lemma Case4Words(words: seq<string>)
    requires NoiseWords(words) && "wordpress" in words && "plugin" !in words && "test" !in words
    ensures RemoveWholeWords(RemoveNumbers(T3, 0, 2), 0, words) == "Test Plugin - "
  {
    T3Numbers();
    T3Words(words);
  }

  lemma Case4Truncated(words: seq<string>)
    requires NoiseWords(words) && "wordpress" in words && "plugin" !in words && "test" !in words
    ensures Truncate(RemoveWholeWords(RemoveNumbers(T3, 0, 2), 0, words)) == "Test Plugin"
  {
    Case4Words(words);
    T3TailKeptTruncate();
  }

  lemma Case4Stripped(words: seq<string>)
    requires NoiseWords(words) && "wordpress" in words && "plugin" !in words && "test" !in words
    ensures Strip(Truncate(RemoveWholeWords(RemoveNumbers(T3, 0, 2), 0, words)), {' ', '-', '–', '|', ':'}) == "Test Plugin"
  {
    Case4Truncated(words);
    T3TailKeptStrip();
  }

  /** With "wordpress" as noise and neither "plugin" nor "test", the title cleans to "test plugin". */
  lemma CleanNameCase4(words: seq<string>)
    requires NoiseWords(words) && "wordpress" in words && "plugin" !in words && "test" !in words
    ensures CleanName(T3, words) == "test plugin"
  {
    Case4Stripped(words);
    T3TailKeptLower();
  }
}
