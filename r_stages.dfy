/**
 * R handling: the longest-match fusion of R clusters with the vowel core after them, then the
 * context rule for every R left over (src/arpakana/arpabet.py:192-233).
 */
module RStages {
  import opened Common
  import opened Tables
  import opened LongestMatch

  /** No "R" is directly followed by a vowel core. */
  predicate NoRBeforeVowel(s: seq<string>)
  {
    forall k :: 0 <= k < |s| - 1 && s[k] == "R" ==> s[k + 1] !in Vowels
  }

  /** Every R map replacement is one token, no longer than its key of two or three tokens. */
  lemma RRuleShape()
    ensures Shrinking(RRule)
    ensures forall key :: RRule(key).Some? ==> |RRule(key).value| == 1
  {
    forall key | RRule(key).Some?
      ensures |RRule(key).value| <= |key|
    {
      RLengthsCover(key);
    }
  }

  /** The R lengths are tried longest first, and every one is positive. */
  lemma RLengthsDescending()
    ensures Descending(RLengths) && Positive(RLengths)
  {
  }

  /** The R lengths cover every key of the R map. */
  lemma RRuleCovered()
    ensures Covers(RRule, RLengths)
  {
    forall key | RRule(key).Some?
      ensures |key| in RLengths
    {
      RLengthsCover(key);
    }
  }

  /** Every "R" followed by a vowel core is a key of the R map. */
  lemma RVowelIsKey(tokens: seq<string>)
    requires |tokens| >= 2 && tokens[0] == "R" && tokens[1] in Vowels
    ensures RRule(tokens[..2]).Some?
  {
    RRowVowels();
    var key := tokens[..2];
    assert Init(key) == ["R"] && Last(key) == tokens[1];
  }

  /** The tokens after `_apply_cv_r_rules`. */
  function CvRFused(tokens: seq<string>): seq<string>
  {
    Rewrite(RRule, RLengths, tokens)
  }

  /** The `while i < n` loop of `_apply_cv_r_rules`, as the shared longest-match scan. */
  method ApplyCvRRules(tokens: seq<string>) returns (out: seq<string>)
    ensures out == CvRFused(tokens)
  {
    out := RewriteLongestMatch(RRule, RLengths, tokens);
  }

  /** R fusion never lengthens the tokens. */
  lemma CvRFusedLength(tokens: seq<string>)
    ensures |CvRFused(tokens)| <= |tokens|
  {
    RRuleShape();
    RewriteLength(RRule, RLengths, tokens);
  }

  /** The head of a fused list is its copied head, which then does not complete an R key, or a kana. */
  lemma CvRFusedHead(tokens: seq<string>)
    requires tokens != []
    ensures CvRFused(tokens) != []
    ensures var r := CvRFused(tokens);
            (r[0] == tokens[0] && (tokens[0] == "R" && |tokens| >= 2 ==> tokens[1] !in Vowels)) ||
            (r[0] != [] && IsKanaChar(r[0][0]))
  {
    match FirstHit(RRule, RLengths, tokens, 0)
    case Some(h) =>
      var key := tokens[..RLengths[h.index]];
      assert CvRFused(tokens) == [RSeqToKana(key).value] + CvRFused(tokens[RLengths[h.index]..]);
      RValuesKana(key);
    case None =>
      assert CvRFused(tokens) == [tokens[0]] + CvRFused(tokens[1..]);
      if tokens[0] == "R" && |tokens| >= 2 && tokens[1] in Vowels {
        RVowelIsKey(tokens);
      }
  }

  /** Putting a token in front keeps the property when it is no "R" that meets a vowel core. */
  lemma NoRBeforeVowelCons(x: string, s: seq<string>)
    requires NoRBeforeVowel(s)
    requires x == "R" && s != [] ==> s[0] !in Vowels
    ensures NoRBeforeVowel([x] + s)
  {
    var r := [x] + s;
    forall k | 0 <= k < |r| - 1 && r[k] == "R"
      ensures r[k + 1] !in Vowels
    {
      if k > 0 {
        assert r[k] == s[k - 1] && r[k + 1] == s[k];
      }
    }
  }

  /** Fusion is exhaustive: no "R" directly before a vowel core survives it. */
  lemma {:induction false} CvRFusedExhaustive(tokens: seq<string>)
    ensures NoRBeforeVowel(CvRFused(tokens))
    decreases |tokens|
  {
    if tokens != [] {
      match FirstHit(RRule, RLengths, tokens, 0)
      case Some(h) =>
        var rest := tokens[RLengths[h.index]..];
        CvRFusedExhaustive(rest);
        RValuesKana(tokens[..RLengths[h.index]]);
        RRuleShape();
        KanaNotAscii(h.replacement[0]);
        assert h.replacement == [h.replacement[0]];
        NoRBeforeVowelCons(h.replacement[0], CvRFused(rest));
      case None =>
        var rest := tokens[1..];
        CvRFusedExhaustive(rest);
        var fused := CvRFused(rest);
        if tokens[0] == "R" && rest != [] {
          CvRFusedHead(rest);
          if fused[0] == rest[0] {
            if rest[0] in Vowels {
              RVowelIsKey(tokens);
            }
          } else {
            KanaNotAscii(fused[0]);
          }
        }
        NoRBeforeVowelCons(tokens[0], fused);
    }
  }

  /** Where an R key matches and no longer one does, its kana is emitted and the scan goes on after it. */
  lemma CvRFusedLongestHit(tokens: seq<string>, len: nat)
    requires len <= |tokens| && RSeqToKana(tokens[..len]).Some?
    requires forall longer :: len < longer <= |tokens| ==> RSeqToKana(tokens[..longer]).None?
    ensures 0 < len
    ensures CvRFused(tokens) == [RSeqToKana(tokens[..len]).value] + CvRFused(tokens[len..])
  {
    RRuleCovered();
    RLengthsDescending();
    RewriteLongestHit(RRule, RLengths, tokens, len);
  }

  /** Where no R key matches, the head token is copied unchanged. */
  lemma CvRFusedCopies(tokens: seq<string>)
    requires tokens != []
    requires forall len :: 0 <= len <= |tokens| ==> RSeqToKana(tokens[..len]).None?
    ensures CvRFused(tokens) == [tokens[0]] + CvRFused(tokens[1..])
  {
    RewriteCopiesUnmatched(RRule, RLengths, tokens);
  }

  /** "R Y u" is fused as the longest key, to "リュ", not as "R" then "Y u". */
  lemma CvRFusedLongest(rest: seq<string>)
    ensures CvRFused(["R", "Y", "u"] + rest) == ["リュ"] + CvRFused(rest)
  {
    var tokens := ["R", "Y", "u"] + rest;
    assert tokens[..3] == ["R", "Y", "u"];
    RYuKana();
    assert FirstHit(RRule, RLengths, tokens, 0) == Some(Hit(0, ["リュ"]));
    assert tokens[3..] == rest;
  }

  /** What `_apply_standalone_r_rules` emits for the token at `i`, judged by the input token before it. */
  function ResolveROne(tokens: seq<string>, i: nat): (r: seq<string>)
    requires i < |tokens|
    ensures tokens[i] != "R" ==> r == [tokens[i]]
    ensures tokens[i] == "R" ==> r in {[], ["ア"], [LongMark]}
    ensures r == [] <==> tokens[i] == "R" && i > 0 && tokens[i - 1] == LongMark
  {
    if tokens[i] != "R" then [tokens[i]]
    else if i == 0 then ["ア"]
    else if tokens[i - 1] in {"a", "o"} then [LongMark]
    else if tokens[i - 1] == LongMark then []
    else ["ア"]
  }

  /** The output for the first `n` tokens. */
  function ResolveRPrefix(tokens: seq<string>, n: nat): (r: seq<string>)
    requires n <= |tokens|
    ensures |r| <= n
    ensures "R" !in r
  {
    if n == 0 then [] else ResolveRPrefix(tokens, n - 1) + ResolveROne(tokens, n - 1)
  }

  /** The tokens after `_apply_standalone_r_rules`. */
  function StandaloneRResolved(tokens: seq<string>): seq<string>
  {
    ResolveRPrefix(tokens, |tokens|)
  }

  /** One token's output, with "ア" and "ー" dropped, is the token itself with R, "ア" and "ー" dropped. */
  lemma ResolveROneKeepsOthers(tokens: seq<string>, i: nat)
    requires i < |tokens|
    ensures Without(ResolveROne(tokens, i), {"ア", LongMark}) == Without([tokens[i]], {"R", "ア", LongMark})
  {
    var x := tokens[i];
    assert Without([x], {"R", "ア", LongMark}) == if x in {"R", "ア", LongMark} then [] else [x];
    if x != "R" {
      assert Without([x], {"ア", LongMark}) == if x in {"ア", LongMark} then [] else [x];
    } else {
      assert Without(["ア"], {"ア", LongMark}) == [];
      assert Without([LongMark], {"ア", LongMark}) == [];
    }
  }

  /** Only R tokens change: dropping R, "ア" and "ー" from input and output leaves the same list. */
  lemma {:induction false} ResolveRPrefixKeepsOthers(tokens: seq<string>, n: nat)
    requires n <= |tokens|
    ensures Without(ResolveRPrefix(tokens, n), {"ア", LongMark}) == Without(tokens[..n], {"R", "ア", LongMark})
  {
    if n > 0 {
      var head, last := tokens[..n - 1], tokens[n - 1];
      assert tokens[..n] == head + [last];
      var before, one := ResolveRPrefix(tokens, n - 1), ResolveROne(tokens, n - 1);
      ResolveRPrefixKeepsOthers(tokens, n - 1);
      ResolveROneKeepsOthers(tokens, n - 1);
      WithoutAppend(before, one, {"ア", LongMark});
      WithoutAppend(head, [last], {"R", "ア", LongMark});
      calc {
        Without(ResolveRPrefix(tokens, n), {"ア", LongMark});
        Without(before + one, {"ア", LongMark});
        Without(before, {"ア", LongMark}) + Without(one, {"ア", LongMark});
        Without(head, {"R", "ア", LongMark}) + Without([last], {"R", "ア", LongMark});
        Without(head + [last], {"R", "ア", LongMark});
      }
    }
  }

  /**
   * Every R is resolved, and once R, "ア" and "ー" are set aside on both sides the output is the
   * input in order; `StandaloneRPieces` states the stage position by position.
   */
  lemma StandaloneRKeepsOthers(tokens: seq<string>)
    ensures "R" !in StandaloneRResolved(tokens)
    ensures Without(StandaloneRResolved(tokens), {"ア", LongMark}) == Without(tokens, {"R", "ア", LongMark})
  {
    ResolveRPrefixKeepsOthers(tokens, |tokens|);
    assert tokens[..|tokens|] == tokens;
  }

  /** The piece each of the first `n` tokens contributes, in input order. */
  function ROutputs(tokens: seq<string>, n: nat): (ps: seq<seq<string>>)
    requires n <= |tokens|
    ensures |ps| == n
    ensures forall k :: 0 <= k < n ==> ps[k] == ResolveROne(tokens, k)
  {
    if n == 0 then [] else ROutputs(tokens, n - 1) + [ResolveROne(tokens, n - 1)]
  }

  /** The output for a prefix is the pieces of its tokens joined in order. */
  lemma {:induction false} ResolveRPrefixPieces(tokens: seq<string>, n: nat)
    requires n <= |tokens|
    ensures ResolveRPrefix(tokens, n) == Concat(ROutputs(tokens, n))
  {
    if n > 0 {
      ResolveRPrefixPieces(tokens, n - 1);
      var one := ResolveROne(tokens, n - 1);
      ConcatAppend(ROutputs(tokens, n - 1), [one]);
      assert [one][1..] == [];
      assert Concat([one]) == one;
    }
  }

  /**
   * Position by position: the output is one piece per input token, joined in order; a token
   * other than R is its own piece, and an R becomes "ア", "ー" or nothing.
   */
  lemma StandaloneRPieces(tokens: seq<string>)
    ensures var ps := ROutputs(tokens, |tokens|);
            StandaloneRResolved(tokens) == Concat(ps) &&
            forall k :: 0 <= k < |tokens| ==>
              (tokens[k] != "R" ==> ps[k] == [tokens[k]]) &&
              (tokens[k] == "R" ==> ps[k] in {[], ["ア"], [LongMark]})
  {
    ResolveRPrefixPieces(tokens, |tokens|);
  }

  /** A list without R passes through unchanged. */
  lemma {:induction false} ResolveRPrefixNoR(tokens: seq<string>, n: nat)
    requires n <= |tokens| && "R" !in tokens
    ensures ResolveRPrefix(tokens, n) == tokens[..n]
  {
    if n > 0 {
      ResolveRPrefixNoR(tokens, n - 1);
      assert tokens[n - 1] in tokens;
      assert tokens[..n] == tokens[..n - 1] + [tokens[n - 1]];
    }
  }

  /** Resolving R twice is resolving it once. */
  lemma StandaloneRIdempotent(tokens: seq<string>)
    ensures StandaloneRResolved(StandaloneRResolved(tokens)) == StandaloneRResolved(tokens)
  {
    var r := StandaloneRResolved(tokens);
    ResolveRPrefixNoR(r, |r|);
    assert r[..|r|] == r;
  }

  /**
   * The rule looks at the input token before each R, not at what it emitted: in "a R R" the
   * second R follows an input "R", so it becomes "ア" although a "ー" was emitted just before.
   */
  lemma StandaloneRReadsInput()
    ensures StandaloneRResolved(["a", "R", "R"]) == ["a", LongMark, "ア"]
  {
    var tokens := ["a", "R", "R"];
    assert ResolveRPrefix(tokens, 1) == ["a"];
    assert ResolveRPrefix(tokens, 2) == ["a", LongMark];
  }

  /** "B ER1 D" reaches this stage as "B a R D", and "K AO1 R S" as "K o R S": R after "a" or "o" becomes the long mark. */
  lemma StandaloneRAfterVowel()
    ensures StandaloneRResolved(["B", "a", "R", "D"]) == ["B", "a", LongMark, "D"]
    ensures StandaloneRResolved(["K", "o", "R", "S"]) == ["K", "o", LongMark, "S"]
  {
    var bird := ["B", "a", "R", "D"];
    assert ResolveRPrefix(bird, 2) == ["B", "a"];
    assert ResolveRPrefix(bird, 3) == ["B", "a", LongMark];
    var course := ["K", "o", "R", "S"];
    assert ResolveRPrefix(course, 2) == ["K", "o"];
    assert ResolveRPrefix(course, 3) == ["K", "o", LongMark];
  }

  /** An R right after a long mark is dropped: "UW R" reaches this stage as "u ー R" and keeps one mark. */
  lemma StandaloneRAfterLongMark()
    ensures StandaloneRResolved(["u", LongMark, "R"]) == ["u", LongMark]
  {
    var tokens := ["u", LongMark, "R"];
    assert ResolveRPrefix(tokens, 2) == ["u", LongMark];
  }

  /** The `for` loop of `_apply_standalone_r_rules`, the first token handled before it. */
  method ApplyStandaloneRRules(tokens: seq<string>) returns (out: seq<string>)
    ensures out == StandaloneRResolved(tokens)
  {
    if tokens == [] {
      return [];
    }
    out := [if tokens[0] == "R" then "ア" else tokens[0]];
    assert out == ResolveRPrefix(tokens, 1) by {
      assert ResolveRPrefix(tokens, 1) == [] + ResolveROne(tokens, 0);
    }
    for i := 1 to |tokens|
      invariant out == ResolveRPrefix(tokens, i)
    {
      assert ResolveRPrefix(tokens, i + 1) == out + ResolveROne(tokens, i);
      var phoneme := tokens[i];
      if phoneme == "R" {
        if tokens[i - 1] in {"a", "o"} {
          out := out + [LongMark];
        } else if tokens[i - 1] == LongMark {
        } else {
          out := out + ["ア"];
        }
      } else {
        out := out + [phoneme];
      }
    }
  }

  /** The tokens after `_apply_r_rules`: R fusion, then the bare-R rule. */
  function RResolved(tokens: seq<string>): (r: seq<string>)
  {
    StandaloneRResolved(CvRFused(tokens))
  }

  /** After R handling no "R" is left and the list is no longer than before. */
  lemma RResolvedRemovesR(tokens: seq<string>)
    ensures "R" !in RResolved(tokens)
    ensures |RResolved(tokens)| <= |tokens|
  {
    CvRFusedLength(tokens);
    StandaloneRKeepsOthers(CvRFused(tokens));
  }

  /** A list without "R" passes through both R stages unchanged. */
  lemma RResolvedNoR(tokens: seq<string>)
    requires "R" !in tokens
    ensures RResolved(tokens) == tokens
  {
    forall i, j | 0 <= i <= j <= |tokens|
      ensures RRule(tokens[i..j]).None?
    {
      if i < j {
        assert tokens[i..j][0] == tokens[i];
      }
    }
    RewriteNoKey(RRule, RLengths, tokens);
    ResolveRPrefixNoR(tokens, |tokens|);
    assert tokens[..|tokens|] == tokens;
  }

  /** `_apply_r_rules`. */
  method ApplyRRules(tokens: seq<string>) returns (afterStandalone: seq<string>)
    ensures afterStandalone == RResolved(tokens)
  {
    var afterCv := ApplyCvRRules(tokens);
    afterStandalone := ApplyStandaloneRRules(afterCv);
  }
}
