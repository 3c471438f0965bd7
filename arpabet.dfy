/**
 * `arpabet_to_kana`: the fixed chain of stages from ARPAbet tokens to one katakana string
 * (src/arpakana/arpabet.py:294-308).
 */
module Arpabet {
  import opened Common
  import opened Tables
  import opened Normalize
  import opened VowelStages
  import opened SokuonStage
  import opened RStages
  import opened ConsonantStages
  import opened Cleanup

  /** The token list that `arpabet_to_kana` joins: every stage, in the order the code runs them. */
  function KanaTokens(phonemes: seq<string>, unknown: string): seq<string>
  {
    var normalized := NormalizeTokens(phonemes);
    var expandedR := ExpandedR(normalized);
    var normalizedVowels := VowelsNormalized(expandedR);
    var withSokuon := WithSokuon(normalizedVowels);
    var afterR := RResolved(withSokuon);
    var afterCv := CvFused(afterR);
    var afterStandalone := StandaloneMapped(afterCv);
    var withUnknowns := UnknownConverted(afterStandalone, unknown);
    LongMarksCollapsed(withUnknowns)
  }

  /** The string `arpabet_to_kana` returns for already split tokens. */
  function ArpabetKana(phonemes: seq<string>, unknown: string := "?"): string
  {
    Concat(KanaTokens(phonemes, unknown))
  }

  /** `arpabet_to_kana`, its input already split into tokens. */
  method ArpabetToKana(phonemes: seq<string>, unknown: string := "?") returns (kana: string)
    ensures kana == ArpabetKana(phonemes, unknown)
  {
    var normalized := NormalizeTokens(phonemes);
    var expandedR := ExpandVowelWithR(normalized);
    var normalizedVowels := NormalizeVowel(expandedR);
    var withSokuon := InsertSokuon(normalizedVowels);
    var afterR := ApplyRRules(withSokuon);
    var afterCv := ApplyCvRules(afterR);
    var afterStandalone := ApplyStandaloneConsonantRules(afterCv);
    var withUnknowns := UnknownConverted(afterStandalone, unknown);
    var cleaned := DeleteContinuousLongMarks(withUnknowns);
    kana := Concat(cleaned);
  }

  /** Every token joined is katakana or the placeholder, and no two "ー" are adjacent. */
  lemma KanaTokensShape(phonemes: seq<string>, unknown: string)
    ensures var t := KanaTokens(phonemes, unknown);
            (forall x :: x in t ==> IsKana(x) || x == unknown) && NoDoubleLongMark(t)
  {
    var before := StandaloneMapped(CvFused(RResolved(WithSokuon(VowelsNormalized(ExpandedR(NormalizeTokens(phonemes)))))));
    CleanedTokens(before, unknown);
  }

  /** No tokens, or only blank ones, give the empty string. */
  lemma BlankInput(phonemes: seq<string>, unknown: string)
    requires forall k :: 0 <= k < |phonemes| ==> Strip(phonemes[k]) == []
    ensures ArpabetKana(phonemes, unknown) == ""
  {
    NormalizeBlank(phonemes);
  }
}
