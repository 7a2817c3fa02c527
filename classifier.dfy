/** The line classifier: decides whether one line of a transcript is noise. */
module Classifier {
  import opened Text
  import opened Lexicon

  /** Some entry of `keys` occurs in `line` (the early-return loop over a
      keyword list). */
  predicate ContainsAny(line: string, keys: seq<string>)
  {
    keys != [] && (Contains(line, keys[0]) || ContainsAny(line, keys[1..]))
  }

  /** The loop finds a key exactly when some entry of the list occurs. */
  lemma {:induction false} ContainsAnyIff(line: string, keys: seq<string>)
    ensures ContainsAny(line, keys) <==> exists k :: 0 <= k < |keys| && Contains(line, keys[k])
  {
    if keys != [] {
      ContainsAnyIff(line, keys[1..]);
      assert forall k :: 1 <= k < |keys| ==> keys[1..][k - 1] == keys[k];
    }
  }

  predicate HasNoiseKeyword(line: string)
  {
    ContainsAny(line, NoiseKeywords)
  }

  predicate IsDigitOrColon(c: char)
  {
    IsDigit(c) || c == ':'
  }

  predicate IsFiller(c: char)
  {
    c == '嗯' || c == '啊' || c == '这' || c == '那'
  }

  /** Length of the run of `[0-9:]` that opens `s`. */
  function DigitColonSpan(s: string): (n: nat)
    ensures n <= |s|
    ensures forall i :: 0 <= i < n ==> IsDigitOrColon(s[i])
    ensures n == |s| || !IsDigitOrColon(s[n])
  {
    if s != [] && IsDigitOrColon(s[0]) then 1 + DigitColonSpan(s[1..]) else 0
  }

  /** `s` is one or more of `0-9` and `:`, then any number of 嗯, 啊, 这, 那.
      The two classes share no character, so the greedy first run decides. */
  predicate TimestampAndFillers(s: string)
  {
    var n := DigitColonSpan(s);
    n > 0 && forall i :: n <= i < |s| ==> IsFiller(s[i])
  }

  /** `re.match(r'^[0-9:]+[嗯啊这那]*$', line)`: the `$` also matches just
      before a newline that ends the string. */
  predicate MatchesTimestampFillerPattern(line: string)
  {
    TimestampAndFillers(line)
    || (|line| > 0 && line[|line| - 1] == '\n' && TimestampAndFillers(line[..|line| - 1]))
  }

  /** `is_noise_line`: the keyword test, the length test, the repetition
      test and the three anchored patterns, in the order the source tries
      them. */
  predicate IsNoiseLine(line: string)
  {
    HasNoiseKeyword(line)
    || |line| < 10
    || CountChar(line, '嗯') > 3 || CountChar(line, '啊') > 3
    || MatchesTimestampFillerPattern(line)
    || StartsWith(line, "加油加油")
    || StartsWith(line, "嗯嗯嗯")
  }

  /** Every line of fewer than ten characters is noise. */
  lemma ShortLineIsNoise(line: string)
    requires |line| < 10
    ensures IsNoiseLine(line)
  {
  }

  /** Every line holding a noise phrase is noise, whatever its length. */
  lemma KeywordLineIsNoise(line: string, k: int)
    requires 0 <= k < |NoiseKeywords| && Contains(line, NoiseKeywords[k])
    ensures HasNoiseKeyword(line) && IsNoiseLine(line)
  {
    ContainsAnyIff(line, NoiseKeywords);
  }

  /** The phrases the repetition test and the two prefix patterns are built
      from are themselves in the phrase list. */
  lemma FillerKeywords()
    ensures NoiseKeywords[1] == "加油" && NoiseKeywords[4] == "嗯" && NoiseKeywords[5] == "啊"
  {
  }

  /** A character that occurs is a one-character substring. */
  lemma CharContained(line: string, i: int)
    requires 0 <= i < |line|
    ensures Contains(line, [line[i]])
  {
    assert OccursAt(line, [line[i]], i);
    ContainsAt(line, [line[i]], i);
  }

  /** A prefix is a substring. */
  lemma PrefixContained(line: string, p: string, q: string)
    requires StartsWith(line, p + q)
    ensures Contains(line, p)
  {
    assert line[..|p|] == (p + q)[..|p|] == p;
    assert OccursAt(line, p, 0);
    ContainsAt(line, p, 0);
  }

  /** The repetition test and the 加油加油 and 嗯嗯嗯 patterns never change
      the verdict, because 嗯, 啊 and 加油 are noise phrases already: a line
      is noise exactly when it holds a noise phrase, is shorter than ten
      characters, or is digits and colons followed only by filler
      characters. */
  lemma NoiseLineSimplified(line: string)
    ensures IsNoiseLine(line)
        <==> HasNoiseKeyword(line) || |line| < 10 || MatchesTimestampFillerPattern(line)
  {
    FillerKeywords();
    if CountChar(line, '嗯') > 3 {
      CountCharContains(line, '嗯');
      KeywordLineIsNoise(line, 4);
    }
    if CountChar(line, '啊') > 3 {
      CountCharContains(line, '啊');
      KeywordLineIsNoise(line, 5);
    }
    if StartsWith(line, "加油加油") {
      PrefixContained(line, "加油", "加油");
      KeywordLineIsNoise(line, 1);
    }
    if StartsWith(line, "嗯嗯嗯") {
      PrefixContained(line, "嗯", "嗯嗯");
      KeywordLineIsNoise(line, 4);
    }
  }

  /** A line of at least ten characters that holds no noise phrase and is
      not a timestamp with fillers is content as far as the classifier is
      concerned. */
  lemma LongCleanLineIsNotNoise(line: string)
    requires |line| >= 10 && !HasNoiseKeyword(line) && !MatchesTimestampFillerPattern(line)
    ensures !IsNoiseLine(line)
  {
    NoiseLineSimplified(line);
  }

  /** The only noise lines beyond the keyword and length tests are made of
      ASCII digits and colons followed by 这 and 那 (嗯 and 啊 being
      keywords already), possibly closed by one newline. */
  lemma ExtraNoiseCase(line: string)
    requires IsNoiseLine(line) && !HasNoiseKeyword(line) && |line| >= 10
    ensures MatchesTimestampFillerPattern(line)
    ensures forall i :: 0 <= i < |line| ==>
              (IsDigitOrColon(line[i]) || line[i] == '这' || line[i] == '那'
               || (i == |line| - 1 && line[i] == '\n'))
  {
    NoiseLineSimplified(line);
    FillerKeywords();
    forall i | 0 <= i < |line| ensures line[i] != '嗯' && line[i] != '啊' {
      CharContained(line, i);
      if line[i] == '嗯' {
        KeywordLineIsNoise(line, 4);
      } else if line[i] == '啊' {
        KeywordLineIsNoise(line, 5);
      }
    }
  }

  /** `随便的眼睛` never decides the keyword loop: every line holding it
      holds `随便` too, which the loop tries first. */
  lemma ShadowedKeyword(line: string)
    ensures NoiseKeywords[16] == "随便" && NoiseKeywords[46] == "随便的眼睛"
    ensures Contains(line, NoiseKeywords[46]) ==> Contains(line, NoiseKeywords[16])
  {
    var long := "随便的眼睛";
    assert long == "随便" + "的眼睛";
    PrefixContained(long, "随便", "的眼睛");
    if Contains(line, long) {
      ContainsTransitive(line, long, "随便");
    }
  }
}
