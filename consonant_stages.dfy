/**
 * The two consonant stages: longest-match fusion of a consonant cluster with the vowel core
 * after it, then longest-match mapping of the consonants left standing
 * (src/arpakana/arpabet.py:235-274).
 */
module ConsonantStages {
  import opened Common
  import opened Tables
  import opened LongestMatch

  /** Both length lists are tried longest first, and every length is positive. */
  lemma LengthsDescending()
    ensures Descending(CvLengths) && Descending(StandaloneLengths)
    ensures Positive(CvLengths) && Positive(StandaloneLengths)
  {
  }

  /** The consonant-vowel lengths cover every key of the map. */
  lemma CvRuleCovered()
    ensures Covers(CvRule, CvLengths)
  {
    forall key | CvRule(key).Some?
      ensures |key| in CvLengths
    {
      CvLengthsCover(key);
    }
  }

  /** Every consonant-vowel key becomes one kana, so no key is replaced by more tokens than it has. */
  lemma CvRuleShrinking()
    ensures Shrinking(CvRule)
  {
    forall key | CvRule(key).Some?
      ensures |CvRule(key).value| <= |key|
    {
      assert key != [];
    }
  }

  /** Every standalone key becomes one kana, so no key is replaced by more tokens than it has. */
  lemma StandaloneRuleShrinking()
    ensures Shrinking(StandaloneRule)
    ensures forall key :: StandaloneRule(key).Some? ==> |StandaloneRule(key).value| == 1
  {
    forall key | StandaloneRule(key).Some?
      ensures |StandaloneRule(key).value| == 1 <= |key|
    {
      StandaloneValueKana(key);
      assert key != [];
    }
  }

  /** The standalone lengths cover every key of the table. */
  lemma StandaloneRuleCovered()
    ensures Covers(StandaloneRule, StandaloneLengths)
  {
    forall key | StandaloneRule(key).Some?
      ensures |key| in StandaloneLengths
    {
      StandaloneLengthsCover(key);
    }
  }

  /** The tokens after `_apply_cv_rules`. */
  function CvFused(tokens: seq<string>): seq<string>
  {
    Rewrite(CvRule, CvLengths, tokens)
  }

  /** The `while i < n` loop of `_apply_cv_rules`, as the shared longest-match scan. */
  method ApplyCvRules(tokens: seq<string>) returns (out: seq<string>)
    ensures out == CvFused(tokens)
  {
    out := RewriteLongestMatch(CvRule, CvLengths, tokens);
  }

  /** Consonant-vowel fusion never lengthens the tokens. */
  lemma CvFusedLength(tokens: seq<string>)
    ensures |CvFused(tokens)| <= |tokens|
  {
    CvRuleShrinking();
    RewriteLength(CvRule, CvLengths, tokens);
  }

  /** Where a key matches and no longer key does, that key's kana is emitted and the scan goes on after it. */
  lemma CvFusedLongestHit(tokens: seq<string>, len: nat)
    requires len <= |tokens| && CvSeqToKana(tokens[..len]).Some?
    requires forall longer :: len < longer <= |tokens| ==> CvSeqToKana(tokens[..longer]).None?
    ensures 0 < len
    ensures CvFused(tokens) == [CvSeqToKana(tokens[..len]).value] + CvFused(tokens[len..])
  {
    CvRuleCovered();
    LengthsDescending();
    RewriteLongestHit(CvRule, CvLengths, tokens, len);
  }

  /** Where no key matches, the head token is copied unchanged. */
  lemma CvFusedCopies(tokens: seq<string>)
    requires tokens != []
    requires forall len :: 0 <= len <= |tokens| ==> CvSeqToKana(tokens[..len]).None?
    ensures CvFused(tokens) == [tokens[0]] + CvFused(tokens[1..])
  {
    RewriteCopiesUnmatched(CvRule, CvLengths, tokens);
  }

  /** Every key ends with a vowel core, so tokens without vowel cores pass through unchanged. */
  lemma CvFusedNoVowel(tokens: seq<string>)
    requires forall k :: 0 <= k < |tokens| ==> tokens[k] !in Vowels
    ensures CvFused(tokens) == tokens
  {
    forall i, j | 0 <= i <= j <= |tokens|
      ensures CvRule(tokens[i..j]).None?
    {
      if i < j && CvSeqToKana(tokens[i..j]).Some? {
        assert Last(tokens[i..j]) == tokens[j - 1];
        CvKeyShape(tokens[i..j]);
      }
    }
    LengthsDescending();
    RewriteNoKey(CvRule, CvLengths, tokens);
  }

  /** A key ends with a vowel core: tokens ending otherwise are no key. */
  lemma CvKeyEndsInVowel(key: seq<string>)
    requires key != [] && Last(key) !in Vowels
    ensures CvSeqToKana(key).None?
  {
    if CvSeqToKana(key).Some? {
      CvKeyShape(key);
    }
  }

  /**
   * A key of length `len` matches, and the one or two tokens after it extend it to no key:
   * its kana is emitted and the scan goes on after it. Keys are never longer than three tokens.
   */
  lemma CvFusedHit(tokens: seq<string>, len: nat)
    requires len <= |tokens| && CvSeqToKana(tokens[..len]).Some?
    requires len < 3 && len + 1 <= |tokens| ==> CvSeqToKana(tokens[..len + 1]).None?
    requires len < 2 && len + 2 <= |tokens| ==> CvSeqToKana(tokens[..len + 2]).None?
    ensures CvFused(tokens) == [CvSeqToKana(tokens[..len]).value] + CvFused(tokens[len..])
  {
    forall longer | len < longer <= |tokens|
      ensures CvSeqToKana(tokens[..longer]).None?
    {
      if longer == len + 1 && longer <= 3 {
        assert tokens[..longer] == tokens[..len + 1];
      } else if longer == len + 2 && longer <= 3 {
        assert tokens[..longer] == tokens[..len + 2];
      } else if CvSeqToKana(tokens[..longer]).Some? {
        CvKeyShape(tokens[..longer]);
      }
    }
    CvFusedLongestHit(tokens, len);
  }

  /** The first one, two and three tokens are no key: the head token is copied. */
  lemma CvFusedCopy(tokens: seq<string>)
    requires tokens != [] && CvSeqToKana(tokens[..1]).None?
    requires 2 <= |tokens| ==> CvSeqToKana(tokens[..2]).None?
    requires 3 <= |tokens| ==> CvSeqToKana(tokens[..3]).None?
    ensures CvFused(tokens) == [tokens[0]] + CvFused(tokens[1..])
  {
    forall len | 0 <= len <= |tokens|
      ensures CvSeqToKana(tokens[..len]).None?
    {
      if len == 1 {
        assert tokens[..len] == tokens[..1];
      } else if len == 2 {
        assert tokens[..len] == tokens[..2];
      } else if len == 3 {
        assert tokens[..len] == tokens[..3];
      } else if CvSeqToKana(tokens[..len]).Some? {
        CvKeyShape(tokens[..len]);
      }
    }
    CvFusedCopies(tokens);
  }

  /** "K Y u" becomes "キュ", never "ク" followed by the fusion of "Y u". */
  lemma CvFusedLongest(rest: seq<string>)
    ensures CvFused(["K", "Y", "u"] + rest) == ["キュ"] + CvFused(rest)
  {
    var tokens := ["K", "Y", "u"] + rest;
    assert tokens[..3] == ["K", "Y", "u"];
    KYuKana();
    assert FirstHit(CvRule, CvLengths, tokens, 0) == Some(Hit(0, ["キュ"]));
    assert tokens[3..] == rest;
  }

  /** The tokens after `_apply_standalone_consonant_rules`. */
  function StandaloneMapped(tokens: seq<string>): seq<string>
  {
    Rewrite(StandaloneRule, StandaloneLengths, tokens)
  }

  /** The `while i < n` loop of `_apply_standalone_consonant_rules`, as the shared longest-match scan. */
  method ApplyStandaloneConsonantRules(tokens: seq<string>) returns (out: seq<string>)
    ensures out == StandaloneMapped(tokens)
  {
    out := RewriteLongestMatch(StandaloneRule, StandaloneLengths, tokens);
  }

  /** Standalone mapping never lengthens the tokens. */
  lemma StandaloneMappedLength(tokens: seq<string>)
    ensures |StandaloneMapped(tokens)| <= |tokens|
  {
    StandaloneRuleShrinking();
    RewriteLength(StandaloneRule, StandaloneLengths, tokens);
  }

  /** Where a consonant key matches and no longer one does, its kana is emitted and the scan goes on after it. */
  lemma StandaloneMappedLongestHit(tokens: seq<string>, len: nat)
    requires len <= |tokens| && tokens[..len] in StandaloneConsonants
    requires forall longer :: len < longer <= |tokens| ==> tokens[..longer] !in StandaloneConsonants
    ensures 0 < len
    ensures StandaloneMapped(tokens) == StandaloneConsonants[tokens[..len]] + StandaloneMapped(tokens[len..])
  {
    StandaloneRuleCovered();
    LengthsDescending();
    RewriteLongestHit(StandaloneRule, StandaloneLengths, tokens, len);
  }

  /** Where no consonant key matches, the head token is copied unchanged. */
  lemma StandaloneMappedCopies(tokens: seq<string>)
    requires tokens != []
    requires forall len :: 0 <= len <= |tokens| ==> tokens[..len] !in StandaloneConsonants
    ensures StandaloneMapped(tokens) == [tokens[0]] + StandaloneMapped(tokens[1..])
  {
    RewriteCopiesUnmatched(StandaloneRule, StandaloneLengths, tokens);
  }

  /** A one-token key that the next token does not extend to a two-token key: its kana is emitted. */
  lemma StandaloneMappedHitOne(tokens: seq<string>)
    requires tokens != [] && tokens[..1] in StandaloneConsonants
    requires 2 <= |tokens| ==> tokens[..2] !in StandaloneConsonants
    ensures StandaloneMapped(tokens) == StandaloneConsonants[tokens[..1]] + StandaloneMapped(tokens[1..])
  {
    forall longer | 1 < longer <= |tokens|
      ensures tokens[..longer] !in StandaloneConsonants
    {
      if longer == 2 {
        assert tokens[..longer] == tokens[..2];
      } else if tokens[..longer] in StandaloneConsonants {
        StandaloneLengthsCover(tokens[..longer]);
      }
    }
    StandaloneMappedLongestHit(tokens, 1);
  }

  /** A katakana token starts no consonant key, so it is copied unchanged. */
  lemma StandaloneMappedKanaHead(tokens: seq<string>)
    requires tokens != [] && tokens[0] != [] && IsKanaChar(tokens[0][0])
    ensures StandaloneMapped(tokens) == [tokens[0]] + StandaloneMapped(tokens[1..])
  {
    forall len | 0 <= len <= |tokens|
      ensures tokens[..len] !in StandaloneConsonants
    {
      if tokens[..len] in StandaloneConsonants {
        StandaloneKeyAscii(tokens[..len]);
      }
    }
    StandaloneMappedCopies(tokens);
  }

  /** "T S" is mapped as one cluster to "ツ", not to "トゥ" followed by "ス". */
  lemma StandaloneMappedLongest(rest: seq<string>)
    ensures StandaloneMapped(["T", "S"] + rest) == ["ツ"] + StandaloneMapped(rest)
  {
    var tokens := ["T", "S"] + rest;
    assert tokens[..2] == ["T", "S"];
    assert StandaloneConsonants[["T", "S"]] == ["ツ"];
    assert FirstHit(StandaloneRule, StandaloneLengths, tokens, 0) == Some(Hit(0, ["ツ"]));
    assert tokens[2..] == rest;
  }

  /** Katakana tokens are no consonant keys, so a list of them passes through unchanged. */
  lemma StandaloneMappedKana(tokens: seq<string>)
    requires forall k :: 0 <= k < |tokens| ==> tokens[k] != [] && IsKanaChar(tokens[k][0])
    ensures StandaloneMapped(tokens) == tokens
  {
    forall i, j | 0 <= i <= j <= |tokens|
      ensures StandaloneRule(tokens[i..j]).None?
    {
      if StandaloneRule(tokens[i..j]).Some? {
        StandaloneKeyAscii(tokens[i..j]);
      }
    }
    LengthsDescending();
    RewriteNoKey(StandaloneRule, StandaloneLengths, tokens);
  }
}
