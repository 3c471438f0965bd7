/**
 * The two vowel stages: the rhotic vowels "ER" and "AXR" are split into "AX" "R", then every
 * ARPAbet vowel becomes its vowel core and optional glide or long mark
 * (src/arpakana/arpabet.py:22-43, :152-171).
 */
module VowelStages {
  import opened Common
  import opened Tables

  /** What one token expands to: "ER" and "AXR" become "AX" "R", every other token stays. */
  function ExpandOne(p: string): seq<string>
  {
    if p == "ER" || p == "AXR" then ["AX", "R"] else [p]
  }

  /** The tokens after `_expand_vowel_with_r`. */
  function ExpandedR(tokens: seq<string>): (r: seq<string>)
    ensures |r| == |tokens| + Count(tokens, {"ER", "AXR"})
    ensures "ER" !in r && "AXR" !in r
  {
    if tokens == [] then [] else ExpandOne(tokens[0]) + ExpandedR(tokens[1..])
  }

  /** Expansion works token by token. */
  lemma {:induction false} ExpandedRAppend(a: seq<string>, b: seq<string>)
    ensures ExpandedR(a + b) == ExpandedR(a) + ExpandedR(b)
  {
    if a == [] {
      assert a + b == b;
    } else {
      assert (a + b)[0] == a[0] && (a + b)[1..] == a[1..] + b;
      ExpandedRAppend(a[1..], b);
    }
  }

  /** Tokens without a rhotic vowel are left as they are. */
  lemma {:induction false} ExpandedRNoRhotic(tokens: seq<string>)
    requires "ER" !in tokens && "AXR" !in tokens
    ensures ExpandedR(tokens) == tokens
  {
    if tokens != [] {
      assert tokens[0] in tokens;
      assert forall x :: x in tokens[1..] ==> x in tokens;
      ExpandedRNoRhotic(tokens[1..]);
    }
  }

  /** Expanding twice is expanding once. */
  lemma ExpandedRIdempotent(tokens: seq<string>)
    ensures ExpandedR(ExpandedR(tokens)) == ExpandedR(tokens)
  {
    ExpandedRNoRhotic(ExpandedR(tokens));
  }

  /** One step of the loop: the prefix grows by what the next token expands to. */
  lemma ExpandedRStep(phoneme: seq<string>, i: nat)
    requires i < |phoneme|
    ensures ExpandedR(phoneme[..i + 1]) == ExpandedR(phoneme[..i]) + ExpandOne(phoneme[i])
  {
    assert phoneme[..i + 1] == phoneme[..i] + [phoneme[i]];
    ExpandedRAppend(phoneme[..i], [phoneme[i]]);
    assert ExpandedR([phoneme[i]]) == ExpandOne(phoneme[i]) + ExpandedR([]);
  }

  /** The `for p in phoneme` loop of `_expand_vowel_with_r`. */
  method ExpandVowelWithR(phoneme: seq<string>) returns (replaced: seq<string>)
    ensures replaced == ExpandedR(phoneme)
  {
    replaced := [];
    for i := 0 to |phoneme|
      invariant replaced == ExpandedR(phoneme[..i])
    {
      var p := phoneme[i];
      ExpandedRStep(phoneme, i);
      if p == "ER" || p == "AXR" {
        replaced := replaced + ["AX", "R"];
      } else {
        replaced := replaced + [p];
      }
    }
    assert phoneme[..|phoneme|] == phoneme;
  }

  /** Every vowel becomes a core vowel, optionally followed by one glide or long mark. */
  lemma VowelMapShape()
    ensures forall p :: p in VowelMap ==> 1 <= |VowelMap[p]| <= 2 && VowelMap[p][0] in Vowels
    ensures forall p :: p in VowelMap && |VowelMap[p]| == 2 ==> VowelMap[p][1] in {"ウ", "イ", "ー"}
  {
  }

  /** Every ARPAbet vowel starts with an upper-case letter. */
  lemma VowelKeysUpper()
    ensures forall p :: p in VowelMap ==> p != [] && 'A' <= p[0] <= 'Z'
  {
  }

  /** No vowel core, glide or long mark is an ARPAbet vowel. */
  lemma MarksNotVowels()
    ensures forall x :: x in Vowels + {"ウ", "イ", "ー"} ==> x !in VowelMap
  {
    VowelKeysUpper();
    assert forall x :: x in Vowels + {"ウ", "イ", "ー"} ==> x != [] && !('A' <= x[0] <= 'Z');
  }

  /** A table of that shape produces only vowel cores, glides and long marks. */
  lemma ShapeTokens(m: map<string, seq<string>>)
    requires forall p :: p in m ==> 1 <= |m[p]| <= 2 && m[p][0] in Vowels
    requires forall p :: p in m && |m[p]| == 2 ==> m[p][1] in {"ウ", "イ", "ー"}
    ensures forall p, x :: p in m && x in m[p] ==> x in Vowels + {"ウ", "イ", "ー"}
  {
    forall p, x | p in m && x in m[p]
      ensures x in Vowels + {"ウ", "イ", "ー"}
    {
      var k :| 0 <= k < |m[p]| && m[p][k] == x;
    }
  }

  /** No token that a vowel becomes is itself a vowel of the table. */
  lemma VowelMapValuesNotKeys()
    ensures forall p, x :: p in VowelMap && x in VowelMap[p] ==> x !in VowelMap
  {
    VowelMapShape();
    ShapeTokens(VowelMap);
    MarksNotVowels();
  }

  /** What one token becomes: a vowel its entry of the vowel table, any other token itself. */
  function VowelOne(p: string): seq<string>
  {
    if p in VowelMap then VowelMap[p] else [p]
  }

  /** The tokens after `_normalize_vowel`. */
  function VowelsNormalized(tokens: seq<string>): (r: seq<string>)
    ensures |tokens| <= |r| <= 2 * |tokens|
    ensures forall k :: 0 <= k < |r| ==> r[k] !in VowelMap
  {
    VowelMapValuesNotKeys();
    VowelMapShape();
    if tokens == [] then [] else VowelOne(tokens[0]) + VowelsNormalized(tokens[1..])
  }

  /** Vowel normalisation works token by token. */
  lemma {:induction false} VowelsNormalizedAppend(a: seq<string>, b: seq<string>)
    ensures VowelsNormalized(a + b) == VowelsNormalized(a) + VowelsNormalized(b)
  {
    if a == [] {
      assert a + b == b;
    } else {
      assert (a + b)[0] == a[0] && (a + b)[1..] == a[1..] + b;
      VowelsNormalizedAppend(a[1..], b);
    }
  }

  /** Tokens with no vowel of the table pass through unchanged. */
  lemma {:induction false} VowelsNormalizedNoVowel(tokens: seq<string>)
    requires forall k :: 0 <= k < |tokens| ==> tokens[k] !in VowelMap
    ensures VowelsNormalized(tokens) == tokens
  {
    if tokens != [] {
      VowelsNormalizedNoVowel(tokens[1..]);
    }
  }

  /** Normalising vowels twice is normalising them once. */
  lemma VowelsNormalizedIdempotent(tokens: seq<string>)
    ensures VowelsNormalized(VowelsNormalized(tokens)) == VowelsNormalized(tokens)
  {
    VowelsNormalizedNoVowel(VowelsNormalized(tokens));
  }

  /** One step of the loop: the prefix grows by what the next token becomes. */
  lemma VowelsNormalizedStep(phoneme: seq<string>, i: nat)
    requires i < |phoneme|
    ensures VowelsNormalized(phoneme[..i + 1]) == VowelsNormalized(phoneme[..i]) + VowelOne(phoneme[i])
  {
    assert phoneme[..i + 1] == phoneme[..i] + [phoneme[i]];
    VowelsNormalizedAppend(phoneme[..i], [phoneme[i]]);
    assert VowelsNormalized([phoneme[i]]) == VowelOne(phoneme[i]) + VowelsNormalized([]);
  }

  /** The `for p in phoneme` loop of `_normalize_vowel`. */
  method NormalizeVowel(phoneme: seq<string>) returns (out: seq<string>)
    ensures out == VowelsNormalized(phoneme)
  {
    out := [];
    for i := 0 to |phoneme|
      invariant out == VowelsNormalized(phoneme[..i])
    {
      var p := phoneme[i];
      VowelsNormalizedStep(phoneme, i);
      if p in VowelMap {
        out := out + VowelMap[p];
      } else {
        out := out + [p];
      }
    }
    assert phoneme[..|phoneme|] == phoneme;
  }
}
