# arpakana: ARPAbet to katakana, modelled in Dafny

This project models the converter in `src/arpakana/arpabet.py`. The converter turns a sequence of
ARPAbet phoneme tokens (for example `HH AH0 L OW1`) into one katakana string (ハロウ).
`arpabet_to_kana` runs a fixed chain of token-list stages:

1. normalise each token (trim, upper-case, strip the stress digits) and drop blank tokens;
2. split the rhotic vowels `ER` and `AXR` into `AX R`;
3. replace each ARPAbet vowel by its vowel core (`a i u e o`), with an optional glide or long mark;
4. insert the geminate marker ッ before a geminating cluster that follows a vowel core;
5. resolve `R`:
   - first the `R` rows of the consonant–vowel table, by longest match;
   - then every bare `R` left, decided by the token before it in that stage's input;
6. fuse consonant clusters and vowel cores into kana by longest match (key lengths 3, 2, 1);
7. map the consonants still left to kana by longest match (key lengths 2, 1);
8. replace every token that is not katakana by a placeholder the caller chooses (`?` by default);
9. collapse each run of long marks ー to one;
10. join the tokens.

Each module follows one part of the source:

- `tables.dfy` holds the constant tables and the lookup maps derived from them.
- `longest_match.dfy` holds the longest-match rewriter that three stages share.
- The other modules hold the stages, in pipeline order.
- `arpabet.dfy` composes the stages.
- `kana_examples.dfy` proves whole-pipeline examples, among them the ones in `tests/test_arpabet2kana.py`, stage by stage.

Every stage that the source writes as a loop is a `method` with that loop. The method is proved
to compute a recursive function on the token list, and the function's properties are proved as
lemmas.

Where the documented behaviour and the code differ, the model follows the code:

- The `R` stages run before consonant–vowel fusion. The bare-`R` rule looks at the previous
  token of its input, not at the previous output.
- The blank test runs before normalisation. A token made only of stress digits survives and
  becomes the empty string, which the unknown filter later replaces by the placeholder.
- Silence symbols (`SIL`, `SP`, `SPN`) are never dropped; they too become the placeholder.
- There are no context-sensitive vowel overrides in the code.
- Some expectations in `tests/test_arpabet2kana.py` disagree with the tables and the sokuon rule:
  - line 20: `M` maps to ン;
  - lines 26 and 44: a ッ is inserted before `JH`/`CH`/`SH` after a vowel;
  - line 37: `T S` is a single key;
  - line 39: there is no `K W` key.

  The model follows the code for all of these.

## Model

| member | source | states |
|---|---|---|
| Tables.SeqToKana | src/arpakana/arpabet.py:141-144 | a key has a kana exactly when it is some cluster of the table followed by a vowel of that cluster's row, and the kana is that row's entry |
| Tables.SeqToKanaOf | src/arpakana/arpabet.py:141-144 | a cluster of the table followed by a vowel core of its row is a key, whose kana is that row's entry |
| Tables.SeqToKanaMissing | src/arpakana/arpabet.py:141-144 | a cluster missing from the table, or a vowel core missing from its row, makes no key |
| Tables.CvSeqToKana | src/arpakana/arpabet.py:141-144 | no ensures of its own: `_CV_SEQ2KANA` as `SeqToKana` of the consonant–vowel table; `FillCvSeqToKana`, `CvKeyShape` and `CvLengthsCover` state what it holds |
| Tables.RSeqToKana | src/arpakana/arpabet.py:145 | a key is in the R map exactly when it starts with "R" and is a key of the CV map |
| Tables.CvRule | src/arpakana/arpabet.py:141-144 | the CV rule fires exactly on keys of the CV map and yields that key's one kana |
| Tables.RRule | src/arpakana/arpabet.py:145 | the R rule fires exactly on keys of the R map and yields that key's one kana |
| Tables.StandaloneRule | src/arpakana/arpabet.py:92-117 | the standalone rule fires exactly on keys of the standalone table and yields that key's entry |
| Tables.FillSeqToKana | src/arpakana/arpabet.py:141-144 | the nested fill loop builds a map whose keys are exactly the cluster-plus-vowel keys, each with its kana |
| Tables.FillCvSeqToKana | src/arpakana/arpabet.py:141-144 | filling from the CV table gives exactly the CV map |
| Tables.ClusterLengths | src/arpakana/arpabet.py:45-90 | every consonant cluster of the CV table has at most two symbols |
| Tables.BareVowelRow | src/arpakana/arpabet.py:47 | the empty cluster is a key and its row holds only vowel cores |
| Tables.RowsKeyedByVowels | src/arpakana/arpabet.py:45-90 | every row of the consonant–vowel table is keyed by vowel cores only |
| Tables.CvKeyShape | src/arpakana/arpabet.py:141-144 | every key of the consonant–vowel map has one to three tokens: a cluster of the table followed by a vowel core of its row |
| Tables.CvLengthsCover | src/arpakana/arpabet.py:148 | every CV key has length 3, 2 or 1 |
| Tables.RLengthsCover | src/arpakana/arpabet.py:149 | every R key has length 3 or 2 |
| Tables.StandaloneLengthsCover | src/arpakana/arpabet.py:150 | every standalone key has length 2 or 1 |
| Tables.SokuonLengthsCover | src/arpakana/arpabet.py:179 | every geminating cluster has length 2 or 1 |
| Tables.RClusters | src/arpakana/arpabet.py:64 | the only clusters starting with "R" are `R` and `R Y` |
| Tables.RKeyCluster | src/arpakana/arpabet.py:145 | a key of the R map is the `R` or `R Y` cluster followed by one vowel core |
| Tables.RRows | src/arpakana/arpabet.py:64-85 | the `R` and `R Y` rows are present and hold exactly the kana written in the table |
| Tables.RRowLiteralsKana | src/arpakana/arpabet.py:64-85 | every kana written in the `R` and `R Y` rows starts with a katakana character |
| Tables.RRowsKana | src/arpakana/arpabet.py:64 | every entry of the `R` and `R Y` rows starts with a katakana character |
| Tables.RRowVowels | src/arpakana/arpabet.py:64 | the `R` row has an entry for every vowel core |
| Tables.RValuesKana | src/arpakana/arpabet.py:145 | every value of the R map is non-empty and starts with a katakana character |
| Tables.KanaNotAscii | src/arpakana/arpabet.py:15-16 | a katakana-headed token is neither a vowel core nor "R" |
| Tables.RYuKana | src/arpakana/arpabet.py:85 | `R Y u` maps to リュ |
| Tables.KYuKana | src/arpakana/arpabet.py:75 | `K Y u` maps to キュ |
| Tables.StandaloneKeyAscii | src/arpakana/arpabet.py:92-117 | each standalone key starts with a non-empty symbol whose first character is not katakana |
| Tables.StandaloneValueSingle | src/arpakana/arpabet.py:92-117 | each standalone value is exactly one token |
| Tables.StandaloneValueKana | src/arpakana/arpabet.py:92-117 | each standalone value is one token made of katakana only |
| Normalize.UpperChar | src/arpakana/arpabet.py:20 | a lower-case letter becomes the letter 32 code points below it, that is its capital; every other character is kept; spaces and digits stay spaces and digits |
| Normalize.IsSpace | src/arpakana/arpabet.py:20 | no contract of its own: the ASCII whitespace that `str.strip` removes (tab to carriage return, U+001C to U+001F, space); `TrimLeft`, `TrimRight` and `Strip` state what is removed |
| Normalize.TrimLeft | src/arpakana/arpabet.py:20 | the result is a suffix of the token, only whitespace is removed, and it does not start with whitespace |
| Normalize.TrimRight | src/arpakana/arpabet.py:20 | the result is a prefix of the token, only whitespace is removed, and it does not end with whitespace |
| Normalize.Strip | src/arpakana/arpabet.py:20 | the stripped token has whitespace at neither end, and is empty exactly when the token is all whitespace |
| Normalize.Upper | src/arpakana/arpabet.py:20 | upper-casing keeps the length, upper-cases every character and leaves no lower-case letter |
| Normalize.RStripDigits | src/arpakana/arpabet.py:20 | the result is a prefix of the token, only digits are removed, and it does not end with a digit |
| Normalize.NormalizePhoneme | src/arpakana/arpabet.py:18-20 | the result is in normal form (upper-case, no leading whitespace, no trailing digit) and no longer than the token |
| Normalize.NormalizeIdempotentIff | src/arpakana/arpabet.py:18-20 | normalising a normalised token changes nothing exactly when that token does not end in whitespace |
| Normalize.NormalizeIdempotent | src/arpakana/arpabet.py:18-20 | for a token without whitespace, normalising twice is normalising once |
| Normalize.TrimLeftKeeps | src/arpakana/arpabet.py:20 | trimming changes nothing when the token does not start with whitespace |
| Normalize.TrimRightKeeps | src/arpakana/arpabet.py:20 | trimming changes nothing when the token does not end with whitespace |
| Normalize.UpperKeeps | src/arpakana/arpabet.py:20 | upper-casing changes nothing when the token has no lower-case letter |
| Normalize.RStripDigitsKeeps | src/arpakana/arpabet.py:20 | digit stripping changes nothing when the token does not end with a digit |
| Normalize.NormalizeLast | src/arpakana/arpabet.py:18-20 | the last character of a non-empty normal form is the upper-cased character at the same place of the trimmed token |
| Normalize.NormalizeLetterSpaceDigit | src/arpakana/arpabet.py:18-20 | a letter, a space and a digit normalise to the letter and the space |
| Normalize.NormalizeLetterSpace | src/arpakana/arpabet.py:18-20 | a letter and a trailing space normalise to the letter |
| Normalize.NormalizeNotAlwaysIdempotent | src/arpakana/arpabet.py:18-20 | for any letter c and digit d, `c d` with a space between normalises to `c ` and then to `c`, so normalisation is not idempotent in general |
| Normalize.NormalizeOne | src/arpakana/arpabet.py:297 | one raw token contributes at most one token |
| Normalize.NormalizeTokens | src/arpakana/arpabet.py:297 | normalisation never adds tokens |
| Normalize.NormalizeTokensNormal | src/arpakana/arpabet.py:297 | every token that survives is in normal form |
| Normalize.NormalizeTokensCount | src/arpakana/arpabet.py:297 | exactly the blank tokens are dropped |
| Normalize.NormalizeCleanToken | src/arpakana/arpabet.py:18-20 | a token without whitespace or lower-case letters survives with only its trailing digits stripped |
| Normalize.NormalizeSymbolToken | src/arpakana/arpabet.py:18-20 | an upper-case symbol followed only by digits normalises to the symbol alone |
| Normalize.NormalizeTokensPointwise | src/arpakana/arpabet.py:297 | tokens that each normalise to one given token give exactly the list of those tokens |
| Normalize.NormalizeSymbols | src/arpakana/arpabet.py:297 | a list of upper-case symbols without digits is already normalised |
| Normalize.NormalizeStressed | src/arpakana/arpabet.py:297 | upper-case symbols each followed by stress digits normalise to the bare symbols, in order |
| Normalize.DigitOnlyToken | src/arpakana/arpabet.py:297 | a token of a single digit survives the blank test and becomes the empty string |
| Normalize.Blanks | src/arpakana/arpabet.py:297 | the number of blank tokens is at most the number of tokens |
| Normalize.NormalizeBlank | src/arpakana/arpabet.py:297 | input made only of blank tokens normalises to no tokens |
| Normalize.NormalizeTokensAppend | src/arpakana/arpabet.py:297 | normalisation works token by token: it distributes over concatenation |
| VowelStages.ExpandedR | src/arpakana/arpabet.py:152-160 | expansion adds exactly one token per `ER`/`AXR` and leaves none of them |
| VowelStages.ExpandOne | src/arpakana/arpabet.py:156-159 | no contract of its own: `ER` and `AXR` become `AX R`, any other token stays; `ExpandedR` and `ExpandedRNoRhotic` state the effect on a list |
| VowelStages.ExpandedRAppend | src/arpakana/arpabet.py:152-160 | expansion distributes over concatenation |
| VowelStages.ExpandedRNoRhotic | src/arpakana/arpabet.py:152-160 | tokens without `ER`/`AXR` are left unchanged |
| VowelStages.ExpandedRIdempotent | src/arpakana/arpabet.py:152-160 | expanding twice is expanding once |
| VowelStages.ExpandedRStep | src/arpakana/arpabet.py:155-159 | one loop step extends the expanded prefix by the expansion of the next token |
| VowelStages.ExpandVowelWithR | src/arpakana/arpabet.py:152-160 | the loop computes `ExpandedR` |
| VowelStages.VowelMapShape | src/arpakana/arpabet.py:22-43 | every vowel maps to a vowel core, optionally followed by one of ウ, イ, ー |
| VowelStages.VowelKeysUpper | src/arpakana/arpabet.py:22-43 | every ARPAbet vowel of the table starts with an upper-case letter |
| VowelStages.MarksNotVowels | src/arpakana/arpabet.py:22-43 | no vowel core, glide or long mark is an ARPAbet vowel of the table |
| VowelStages.ShapeTokens | src/arpakana/arpabet.py:22-43 | a table whose values are a vowel core and an optional glide or long mark produces only those tokens |
| VowelStages.VowelMapValuesNotKeys | src/arpakana/arpabet.py:22-43 | no token that a vowel maps to is itself a key of the vowel table |
| VowelStages.VowelOne | src/arpakana/arpabet.py:167-170 | no contract of its own: a vowel becomes its table entry, any other token stays; `VowelsNormalized` and `VowelMapShape` state the effect |
| VowelStages.VowelsNormalized | src/arpakana/arpabet.py:162-171 | the output is between one and two times the input's length and holds no ARPAbet vowel |
| VowelStages.VowelsNormalizedAppend | src/arpakana/arpabet.py:162-171 | vowel normalisation distributes over concatenation |
| VowelStages.VowelsNormalizedNoVowel | src/arpakana/arpabet.py:162-171 | tokens without a vowel of the table pass through unchanged |
| VowelStages.VowelsNormalizedIdempotent | src/arpakana/arpabet.py:162-171 | normalising vowels twice is normalising them once |
| VowelStages.VowelsNormalizedStep | src/arpakana/arpabet.py:166-170 | one loop step extends the normalised prefix by what the next token becomes |
| VowelStages.NormalizeVowel | src/arpakana/arpabet.py:162-171 | the loop computes `VowelsNormalized` |
| SokuonStage.ClusterFromIff | src/arpakana/arpabet.py:179-187 | trying the lengths longest first finds a geminating cluster at the head exactly when one exists |
| SokuonStage.ClusterFromCases | src/arpakana/arpabet.py:119-125 | a cluster starts the tokens exactly when the head is `CH`, `SH`, `JH` or `ZH`, or the tokens start with `T S` |
| SokuonStage.ClusterFrom | src/arpakana/arpabet.py:184-185 | no contract of its own: trying the cluster lengths longest first; `ClusterFromIff` and `ClusterFromCases` state exactly when it holds |
| SokuonStage.Geminates | src/arpakana/arpabet.py:185 | no contract of its own: the previous output token is a vowel core and a geminating cluster starts here; `MarkBefore` and `SokuonAfterUnfold` state its role |
| SokuonStage.SokuonAfter | src/arpakana/arpabet.py:181-189 | the output has at least one and at most two tokens per input token; `SokuonAfterUnfold` and `SokuonAfterOnlyInserts` state that every token is emitted, in order |
| SokuonStage.WithSokuon | src/arpakana/arpabet.py:173-190 | empty input gives empty output; otherwise the first token comes first, unmarked, and the output has between n and 2n−1 tokens |
| SokuonStage.SokuonAfterOnlyInserts | src/arpakana/arpabet.py:181-189 | removing every ッ from the scan's output gives the input without its ッ |
| SokuonStage.WithSokuonOnlyInserts | src/arpakana/arpabet.py:173-190 | the stage only inserts ッ: deleting them gives back an input that had none |
| SokuonStage.NoCascade | src/arpakana/arpabet.py:185 | the token after an inserted marker never gets a marker of its own |
| SokuonStage.MarkerStartsNoCluster | src/arpakana/arpabet.py:119-125 | ッ never starts a geminating cluster |
| SokuonStage.SokuonAfterHead | src/arpakana/arpabet.py:181-189 | the scan's output starts with the marker when the head geminates, and with the head otherwise |
| SokuonStage.SokuonAfterUnfold | src/arpakana/arpabet.py:181-189 | the scan emits the marker exactly when the head geminates, then the head, then the scan of the rest |
| SokuonStage.SokuonAfterNoCluster | src/arpakana/arpabet.py:181-189 | where no token is `CH`, `SH`, `JH`, `ZH` or `T`, the scan emits the tokens unchanged |
| SokuonStage.WithSokuonNoCluster | src/arpakana/arpabet.py:173-190 | where no token after the first is `CH`, `SH`, `JH`, `ZH` or `T`, the stage changes nothing |
| SokuonStage.SecondPassMarked | src/arpakana/arpabet.py:181-189 | a second pass over a marker and the token after it inserts nothing before either |
| SokuonStage.SecondPassUnmarked | src/arpakana/arpabet.py:181-189 | a second pass does not mark a token that the first pass left unmarked |
| SokuonStage.SokuonAfterIdempotent | src/arpakana/arpabet.py:181-189 | scanning the scan's output again changes nothing |
| SokuonStage.WithSokuonIdempotent | src/arpakana/arpabet.py:173-190 | inserting markers twice is inserting them once |
| SokuonStage.SokuonAfterStep | src/arpakana/arpabet.py:184-189 | one step of the scan emits the marker exactly when the token geminates, then the token |
| SokuonStage.InsertStep | src/arpakana/arpabet.py:181-189 | appending the marker when `marked` and then the token keeps the loop's output a prefix of `WithSokuon` |
| SokuonStage.MarkBefore | src/arpakana/arpabet.py:184-187 | the inner loop over the cluster lengths decides the marker exactly when the previous token is a vowel core and a geminating cluster starts here |
| SokuonStage.InsertSokuon | src/arpakana/arpabet.py:173-190 | the `while` loop, with `result[-1]` as the previous token, computes `WithSokuon` |
| LongestMatch.FirstHit | src/arpakana/arpabet.py:199-207 | the first length whose key is in the table; no earlier length has one, and `None` means no length has one |
| LongestMatch.Rewrite | src/arpakana/arpabet.py:192-274 | no ensures of its own: the rewrite the three scans share, one hit or one copied token at a time; `RewriteLongestHit`, `RewriteCopiesUnmatched`, `RewriteLength`, `RewriteTokens` and `RewriteNoKey` state its properties |
| LongestMatch.RewriteLongestHit | src/arpakana/arpabet.py:199-207 | when a key matches at the head and no longer key does, that key is replaced and the scan resumes after it |
| LongestMatch.RewriteCopiesUnmatched | src/arpakana/arpabet.py:208-210 | when no key matches at the head, the head token is copied unchanged |
| LongestMatch.FirstHitIsLongest | src/arpakana/arpabet.py:199-207 | the key found is the longest key of the whole table that matches at the head |
| LongestMatch.RewriteLength | src/arpakana/arpabet.py:192-211 | with replacements no longer than their keys, the output is no longer than the input |
| LongestMatch.RewriteNoKey | src/arpakana/arpabet.py:192-211 | tokens containing no key come out unchanged |
| LongestMatch.RewriteTokens | src/arpakana/arpabet.py:192-211 | every output token is an input token or part of a replacement |
| LongestMatch.RewriteHead | src/arpakana/arpabet.py:197-210 | with non-empty replacements, the output starts with the copied head token or with the first token of a replacement |
| LongestMatch.RewriteStep | src/arpakana/arpabet.py:200-207 | one step of the scan that finds the first key replaces it and resumes after it |
| LongestMatch.RewriteStepCopy | src/arpakana/arpabet.py:208-210 | one step of the scan that finds no key copies the token |
| LongestMatch.ScanHit | src/arpakana/arpabet.py:203-206 | emitting the replacement and skipping the key keeps the output a prefix of the whole rewrite |
| LongestMatch.ScanCopy | src/arpakana/arpabet.py:208-210 | copying the token when no key matched keeps the output a prefix of the whole rewrite |
| LongestMatch.ScanStep | src/arpakana/arpabet.py:197-210 | either outcome of the inner loop keeps the output a prefix of the whole rewrite |
| LongestMatch.MatchAt | src/arpakana/arpabet.py:199-207 | the inner loop over the lengths finds exactly the first length whose key is in the table, or none |
| LongestMatch.RewriteLongestMatch | src/arpakana/arpabet.py:192-211 | the scanning loop computes `Rewrite` |
| RStages.RRuleShape | src/arpakana/arpabet.py:145 | every R replacement is a single token, so it is never longer than its key |
| RStages.RRuleCovered | src/arpakana/arpabet.py:149 | every R key has a length that the scan tries |
| RStages.RLengthsDescending | src/arpakana/arpabet.py:149 | the R lengths are positive and tried longest first |
| RStages.RVowelIsKey | src/arpakana/arpabet.py:64 | tokens that start with "R" and a vowel core start with a key of the R map |
| RStages.ApplyCvRRules | src/arpakana/arpabet.py:192-211 | the loop of `_apply_cv_r_rules` computes the longest-match rewrite with the R map |
| RStages.CvRFused | src/arpakana/arpabet.py:192-211 | no ensures of its own: `_apply_cv_r_rules` as `Rewrite` with the R map; `CvRFusedExhaustive`, `CvRFusedLength`, `CvRFusedLongestHit` and `CvRFusedCopies` state its properties |
| RStages.CvRFusedLength | src/arpakana/arpabet.py:192-211 | the R rewrite never lengthens the tokens |
| RStages.CvRFusedHead | src/arpakana/arpabet.py:192-211 | the R rewrite of a non-empty list starts with a kana-headed token, or with the unchanged head, which is then not an "R" before a vowel core |
| RStages.NoRBeforeVowelCons | src/arpakana/arpabet.py:192-211 | putting a token in front of a list with no "R" before a vowel core keeps that property, unless the token is "R" and the list starts with a vowel core |
| RStages.CvRFusedExhaustive | src/arpakana/arpabet.py:192-211 | after the R rewrite, no "R" is followed by a vowel core |
| RStages.CvRFusedLongest | src/arpakana/arpabet.py:192-211 | `R Y u` becomes リュ, not a shorter match |
| RStages.CvRFusedLongestHit | src/arpakana/arpabet.py:199-207 | the longest R key at the head becomes its kana and the scan resumes after it |
| RStages.CvRFusedCopies | src/arpakana/arpabet.py:208-210 | a head token that starts no R key is copied unchanged |
| RStages.ResolveRPrefix | src/arpakana/arpabet.py:213-226 | the loop's output for the first n tokens has at most n tokens and no "R" |
| RStages.ResolveROne | src/arpakana/arpabet.py:216-226 | a token other than "R" is emitted unchanged; an "R" becomes ア, ー or nothing, and nothing exactly when the input token before it is ー |
| RStages.ROutputs | src/arpakana/arpabet.py:216-226 | one piece per input token, in input order, each the step output of its token |
| RStages.ResolveRPrefixPieces | src/arpakana/arpabet.py:213-226 | the output for a prefix is the pieces of its tokens joined in input order |
| RStages.StandaloneRPieces | src/arpakana/arpabet.py:212-227 | the output is one piece per input token joined in order: a token other than "R" is its own piece, and an "R" becomes ア, ー or nothing |
| RStages.StandaloneRResolved | src/arpakana/arpabet.py:212-227 | no ensures of its own: `_apply_standalone_r_rules` as the output for the whole input; `StandaloneRPieces`, `StandaloneRKeepsOthers` and `StandaloneRIdempotent` state its properties |
| RStages.ResolveROneKeepsOthers | src/arpakana/arpabet.py:216-226 | once "ア" and "ー" are set aside on the output side and "R", "ア", "ー" on the input side, one step emits the same tokens; `ResolveROne` itself states the step position by position |
| RStages.ResolveRPrefixKeepsOthers | src/arpakana/arpabet.py:213-226 | once "R", "ア" and "ー" are set aside, the prefix output is the input prefix, in order; `ResolveRPrefixPieces` states the prefix position by position |
| RStages.StandaloneRKeepsOthers | src/arpakana/arpabet.py:212-227 | no "R" survives, and once "R", "ア" and "ー" are set aside the output is the input in order; `StandaloneRPieces` states the stage position by position |
| RStages.ResolveRPrefixNoR | src/arpakana/arpabet.py:213-226 | a prefix without "R" is copied unchanged |
| RStages.StandaloneRIdempotent | src/arpakana/arpabet.py:212-227 | resolving twice is resolving once |
| RStages.StandaloneRReadsInput | src/arpakana/arpabet.py:219-221 | the rule reads the input token before the "R": `a R R` gives `a ー ア` |
| RStages.StandaloneRAfterVowel | src/arpakana/arpabet.py:219-220 | "R" after "a" or "o" becomes ー, as in `B ER1 D` and `K AO1 R S` |
| RStages.StandaloneRAfterLongMark | src/arpakana/arpabet.py:221-222 | "R" after ー is dropped |
| RStages.ApplyStandaloneRRules | src/arpakana/arpabet.py:212-227 | the `for` loop computes `StandaloneRResolved` |
| RStages.RResolvedRemovesR | src/arpakana/arpabet.py:229-233 | the two R stages together leave no "R" and never lengthen the tokens |
| RStages.RResolvedNoR | src/arpakana/arpabet.py:229-233 | tokens without "R" pass both R stages unchanged |
| RStages.RResolved | src/arpakana/arpabet.py:229-233 | no ensures of its own: R fusion, then the bare-R rule; `RResolvedRemovesR` and `RResolvedNoR` state its properties |
| RStages.ApplyRRules | src/arpakana/arpabet.py:229-233 | `_apply_r_rules` computes `RResolved` |
| ConsonantStages.LengthsDescending | src/arpakana/arpabet.py:148-150 | the CV and standalone lengths are positive and tried longest first |
| ConsonantStages.CvRuleCovered | src/arpakana/arpabet.py:148 | every CV key has a length that the scan tries |
| ConsonantStages.CvRuleShrinking | src/arpakana/arpabet.py:141-144 | every CV replacement is no longer than its key |
| ConsonantStages.StandaloneRuleShrinking | src/arpakana/arpabet.py:92-117 | every standalone replacement is one token, so never longer than its key |
| ConsonantStages.StandaloneRuleCovered | src/arpakana/arpabet.py:150 | every standalone key has a length that the scan tries |
| ConsonantStages.ApplyCvRules | src/arpakana/arpabet.py:235-254 | the loop of `_apply_cv_rules` computes the longest-match rewrite with the CV map |
| ConsonantStages.CvFused | src/arpakana/arpabet.py:235-254 | no ensures of its own: `_apply_cv_rules` as `Rewrite` with the consonant–vowel map; `CvFusedLength`, `CvFusedLongestHit`, `CvFusedCopies` and `CvFusedNoVowel` state its properties |
| ConsonantStages.CvFusedLength | src/arpakana/arpabet.py:235-254 | CV fusion never lengthens the tokens |
| ConsonantStages.CvFusedLongestHit | src/arpakana/arpabet.py:242-250 | the longest CV key at the head becomes its kana |
| ConsonantStages.CvFusedCopies | src/arpakana/arpabet.py:251-253 | a head token that starts no CV key is copied unchanged |
| ConsonantStages.CvFusedNoVowel | src/arpakana/arpabet.py:235-254 | tokens without a vowel core pass consonant–vowel fusion unchanged |
| ConsonantStages.CvKeyEndsInVowel | src/arpakana/arpabet.py:141-144 | a token list whose last token is not a vowel core is no key of the consonant–vowel map |
| ConsonantStages.CvFusedHit | src/arpakana/arpabet.py:242-250 | when the head key of a given length is in the map and the longer lengths tried are not, its kana is emitted and the scan resumes after it |
| ConsonantStages.CvFusedCopy | src/arpakana/arpabet.py:251-253 | when none of the first one, two and three tokens is a key, the head token is copied |
| ConsonantStages.CvFusedLongest | src/arpakana/arpabet.py:235-254 | `K Y u` becomes キュ, never キ and then more tokens |
| ConsonantStages.ApplyStandaloneConsonantRules | src/arpakana/arpabet.py:255-274 | the loop of `_apply_standalone_consonant_rules` computes the longest-match rewrite with the standalone table |
| ConsonantStages.StandaloneMapped | src/arpakana/arpabet.py:255-274 | no ensures of its own: `_apply_standalone_consonant_rules` as `Rewrite` with the standalone table; `StandaloneMappedLength`, `StandaloneMappedLongestHit`, `StandaloneMappedCopies` and `StandaloneMappedKana` state its properties |
| ConsonantStages.StandaloneMappedLength | src/arpakana/arpabet.py:255-274 | standalone mapping never lengthens the tokens |
| ConsonantStages.StandaloneMappedLongestHit | src/arpakana/arpabet.py:262-270 | the longest standalone key at the head becomes its kana |
| ConsonantStages.StandaloneMappedCopies | src/arpakana/arpabet.py:271-273 | a head token that starts no standalone key is copied unchanged |
| ConsonantStages.StandaloneMappedHitOne | src/arpakana/arpabet.py:262-270 | a one-token key that the next token does not extend to a two-token key is replaced by its kana |
| ConsonantStages.StandaloneMappedKanaHead | src/arpakana/arpabet.py:271-273 | a katakana-headed head token starts no key and is copied unchanged |
| ConsonantStages.StandaloneMappedLongest | src/arpakana/arpabet.py:255-274 | `T S` becomes ツ, not the kana for `T` and then `S` |
| ConsonantStages.StandaloneMappedKana | src/arpakana/arpabet.py:255-274 | tokens that all start with katakana pass through unchanged |
| Cleanup.UnknownConverted | src/arpakana/arpabet.py:276-278 | the length is kept; each token is kept when it is katakana and is the placeholder otherwise |
| Cleanup.IsKana | src/arpakana/arpabet.py:16 | no contract of its own: `_KANA_RE.match` as a non-empty run of U+30A0 to U+30FF, optionally followed by one final newline; `UnknownConverted` and `TrailingNewlineKept` state its use |
| Cleanup.UnknownConvertedTokens | src/arpakana/arpabet.py:276-278 | every output token is katakana or the placeholder |
| Cleanup.UnknownConvertedKana | src/arpakana/arpabet.py:276-278 | katakana tokens are all kept |
| Cleanup.UnknownConvertedIdempotent | src/arpakana/arpabet.py:276-278 | replacing unknown tokens twice is replacing them once |
| Cleanup.UnknownTokenReplaced | src/arpakana/arpabet.py:278 | `XYZ` with placeholder `*` gives `*` |
| Cleanup.TrailingNewlineKept | src/arpakana/arpabet.py:16 | a katakana token followed by a newline counts as katakana, because of how `$` matches |
| Cleanup.CollapsedPrefix | src/arpakana/arpabet.py:282-291 | the output for the first n tokens is no longer than n, holds only input tokens, ends with token n−1, and has no two adjacent ー |
| Cleanup.LongMarksCollapsed | src/arpakana/arpabet.py:280-292 | the output never has two adjacent ー |
| Cleanup.Kept | src/arpakana/arpabet.py:284-288 | no contract of its own: a token is dropped exactly when it is ー and the input token before it is ー; `CollapsedRun` and `LongMarksCollapsedOnlyLongMarks` state the effect |
| Cleanup.CollapsedPrefixOnlyLongMarks | src/arpakana/arpabet.py:282-291 | only ー tokens are removed from a prefix |
| Cleanup.LongMarksCollapsedOnlyLongMarks | src/arpakana/arpabet.py:280-292 | only ー tokens are removed, and a ー survives exactly when the input has one |
| Cleanup.CollapsedKeepsRunHead | src/arpakana/arpabet.py:285-288 | a ー anywhere in the input leaves a ー in the output; `CollapsedRun` states that each run keeps exactly one ー in its place |
| Cleanup.CollapsedPrefixLocal | src/arpakana/arpabet.py:282-291 | the output for a prefix depends only on the tokens of that prefix |
| Cleanup.CollapsedPrefixAppend | src/arpakana/arpabet.py:282-291 | when no run of ー spans the join, the output for `a` followed by a prefix of `b` is `a`'s output then that prefix's |
| Cleanup.LongMarksCollapsedAppend | src/arpakana/arpabet.py:280-292 | collapsing distributes over a join that no run of ー spans |
| Cleanup.CollapsedPrefixRun | src/arpakana/arpabet.py:284-288 | every non-empty prefix of a run of ー collapses to one ー |
| Cleanup.LongMarkRunCollapsed | src/arpakana/arpabet.py:284-288 | a run of one or more ー collapses to exactly one ー |
| Cleanup.CollapsedRun | src/arpakana/arpabet.py:280-292 | a whole run of ー between tokens that are not ー keeps exactly one ー, in its place, and the parts around it collapse on their own |
| Cleanup.CollapsedPrefixContains | src/arpakana/arpabet.py:282-291 | a ー of the input prefix leaves a ー in the output prefix |
| Cleanup.CollapsedPrefixNoDouble | src/arpakana/arpabet.py:282-291 | a prefix without adjacent ー is copied unchanged |
| Cleanup.LongMarksCollapsedNoDouble | src/arpakana/arpabet.py:280-292 | a list without adjacent ー is unchanged |
| Cleanup.LongMarksCollapsedIdempotent | src/arpakana/arpabet.py:280-292 | collapsing twice is collapsing once |
| Cleanup.DeleteContinuousLongMarks | src/arpakana/arpabet.py:280-292 | the `for` loop with its `prev_long` flag computes `LongMarksCollapsed` |
| Cleanup.CleanedTokens | src/arpakana/arpabet.py:276-292 | after both clean-up stages every token is katakana or the placeholder, and no two ー are adjacent |
| Arpabet.ArpabetToKana | src/arpakana/arpabet.py:294-308 | running the stage methods in the code's order computes the composed stage functions, joined; the placeholder defaults to `?` as the keyword argument does |
| Arpabet.KanaTokens | src/arpakana/arpabet.py:297-306 | no ensures of its own: the token list the stages produce, in the code's order; `KanaTokensShape` states its shape |
| Arpabet.ArpabetKana | src/arpakana/arpabet.py:294-308 | no ensures of its own: `KanaTokens` joined, the placeholder defaulting to `?`; `ArpabetToKana` and the examples below state its results |
| Arpabet.KanaTokensShape | src/arpakana/arpabet.py:294-308 | every token joined is katakana or the placeholder, and no two ー are adjacent |
| Arpabet.BlankInput | src/arpakana/arpabet.py:294-308 | empty or all-blank input gives the empty string |
| KanaExamples.TsExample | src/arpakana/arpabet.py:116 | `T S` gives ツ, one kana for the cluster |
| KanaExamples.SkyExample | tests/test_arpabet2kana.py:8 | `S K AY` gives スカイ |
| KanaExamples.HelloExample | tests/test_arpabet2kana.py:6 | `HH AH0 L OW1` gives ハロウ |
| KanaExamples.BlueExample | tests/test_arpabet2kana.py:10 | `B L UW` gives ブルー |
| KanaExamples.CuteExample | tests/test_arpabet2kana.py:30 | `K Y UW1 Z` gives キューズ |
| KanaExamples.XyzExample | src/arpakana/arpabet.py:278 | an unknown symbol `XYZ` gives the default placeholder `?` |
| Common.Concat | src/arpakana/arpabet.py:308 | joining no tokens gives the empty string, and every token fits in the joined string |
| Common.ConcatAppend | src/arpakana/arpabet.py:308 | joining two lists of tokens is joining each and concatenating the results |

## Left out

- The input is taken as an already split token list. The model leaves out the string-versus-iterable dispatch and `str.split()` (src/arpakana/arpabet.py:296).
- Normalisation handles ASCII only. Upper-casing changes `a`–`z` and stripping removes ASCII whitespace; Unicode case mapping and Unicode whitespace are not modelled.
- The regular expression engine is not modelled. `_KANA_RE` becomes a per-character test for U+30A0 to U+30FF that also accepts one trailing newline, which is how its `$` matches.
- `_SILENCES` and `_KNOWN_PHONEMES` (src/arpakana/arpabet.py:127-134) are not modelled. The pipeline never consults them.
- The sorted key-length lists (src/arpakana/arpabet.py:147-150, :179) are constants, not computed. The lemmas `Tables.CvLengthsCover`, `Tables.RLengthsCover`, `Tables.StandaloneLengthsCover` and `Tables.SokuonLengthsCover` prove that every key has one of those lengths.
- Normalize.NormalizePhoneme: idempotence holds only for tokens that do not end in whitespace once normalised. `NormalizeIdempotentIff` states exactly when it holds, and `NormalizeNotAlwaysIdempotent` gives an input where it fails.
- Tables.RValuesKana: the claim that every value of the table is katakana is proved only for the `R` and `R Y` rows and for the standalone table, not for all 42 rows of the consonant–vowel table.
- Common.Concat: the final `"".join` is modelled as concatenation. Its own contract says only that empty input gives the empty string and that every token fits in the result; `ConcatAppend` adds that joining distributes over list concatenation, and the whole-pipeline examples fix concrete results.
