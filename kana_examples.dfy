/**
 * Whole-pipeline examples of `arpabet_to_kana` (src/arpakana/arpabet.py:294-308), each proved
 * stage by stage: every helper lemma states what one stage makes of the tokens the stage
 * before it produced.
 */
module KanaExamples {
  import opened Common
  import opened Tables
  import opened Normalize
  import opened VowelStages
  import opened SokuonStage
  import opened RStages
  import opened ConsonantStages
  import opened Cleanup
  import opened Arpabet

  /** Normalisation: upper-case symbols without stress digits are kept. */
  lemma TsNormalized()
    ensures NormalizeTokens(["T", "S"]) == ["T", "S"]
  {
    NormalizeSymbols(["T", "S"]);
  }

  /** No vowel: R expansion and vowel normalisation change nothing. */
  lemma TsVowels()
    ensures VowelsNormalized(ExpandedR(["T", "S"])) == ["T", "S"]
  {
    ExpandedRNoRhotic(["T", "S"]);
  }

  /** A cluster at the head gets no marker: no vowel core comes before it. */
  lemma TsSokuon()
    ensures WithSokuon(["T", "S"]) == ["T", "S"]
  {
  }

  /** No "R", so the R stage changes nothing. */
  lemma TsResolved()
    ensures RResolved(["T", "S"]) == ["T", "S"]
  {
    RResolvedNoR(["T", "S"]);
  }

  /** "T S" has no vowel core, so fusion keeps it, and the standalone table maps the pair to "ツ". */
  lemma TsMapped()
    ensures StandaloneMapped(CvFused(["T", "S"])) == ["ツ"]
  {
    CvFusedNoVowel(["T", "S"]);
    StandaloneMappedLongest([]);
    assert ["T", "S"] + [] == ["T", "S"];
  }

  /** One katakana token: clean-up keeps it. */
  lemma TsCleanup()
    ensures Concat(LongMarksCollapsed(UnknownConverted(["ツ"], "?"))) == "ツ"
  {
  }

  /** "T S" (the cluster of "cats" without its vowel) gives "ツ", one kana for the pair. */
  lemma TsExample()
    ensures ArpabetKana(["T", "S"]) == "ツ"
  {
    TsNormalized();
    TsVowels();
    TsSokuon();
    TsResolved();
    TsMapped();
    TsCleanup();
  }

  /** Normalisation: upper-case symbols lose their stress digits. */
  lemma SkyNormalized()
    ensures NormalizeTokens(["S", "K", "AY"]) == ["S", "K", "AY"]
  {
    NormalizeSymbols(["S", "K", "AY"]);
  }

  /** No R-coloured vowel, so R expansion changes nothing. */
  lemma SkyExpanded()
    ensures ExpandedR(["S", "K", "AY"]) == ["S", "K", "AY"]
  {
    ExpandedRNoRhotic(["S", "K", "AY"]);
  }

  /** "AY" becomes the core "a" and the glide "イ". */
  lemma AyVowel()
    ensures VowelsNormalized(["AY"]) == ["a", "イ"]
  {
    assert ["AY"][1..] == [];
  }

  /** Consonants pass vowel normalisation unchanged. */
  lemma SkVowels()
    ensures VowelsNormalized(["S", "K"]) == ["S", "K"]
  {
    VowelsNormalizedNoVowel(["S", "K"]);
  }

  /** Vowel normalisation, token by token. */
  lemma SkyVowels()
    ensures VowelsNormalized(["S", "K", "AY"]) == ["S", "K", "a", "イ"]
  {
    assert ["S", "K"] + ["AY"] == ["S", "K", "AY"];
    assert ["S", "K"] + ["a", "イ"] == ["S", "K", "a", "イ"];
    VowelsNormalizedAppend(["S", "K"], ["AY"]);
    SkVowels();
    AyVowel();
  }

  /** No token can start a geminate-triggering cluster, so no marker goes in. */
  lemma SkySokuon()
    ensures WithSokuon(["S", "K", "a", "イ"]) == ["S", "K", "a", "イ"]
  {
    WithSokuonNoCluster(["S", "K", "a", "イ"]);
  }

  /** No "R", so the R stage changes nothing. */
  lemma SkyResolved()
    ensures RResolved(["S", "K", "a", "イ"]) == ["S", "K", "a", "イ"]
  {
    RResolvedNoR(["S", "K", "a", "イ"]);
  }

  /** "K" differs from every one-token cluster after it in the table. */
  lemma KClusterDistinct()
    ensures ["K"] != ["L"] && ["K"] != ["M"] && ["K"] != ["N"] && ["K"] != ["NG"] &&
            ["K"] != ["NX"] && ["K"] != ["P"] && ["K"] != ["R"] && ["K"] != ["S"] &&
            ["K"] != ["SH"] && ["K"] != ["T"] && ["K"] != ["TH"] && ["K"] != ["V"] &&
            ["K"] != ["W"] && ["K"] != ["Y"] && ["K"] != ["Z"] && ["K"] != ["ZH"]
  {
  }

  /** The row of "K" holds "カ" for the core "a". */
  lemma KaRow()
    ensures ["K"] in CvTable && "a" in CvTable[["K"]] && CvTable[["K"]]["a"] == "カ"
  {
    KClusterDistinct();
  }

  /** "K a" is a key, with kana "カ". */
  lemma KaKana()
    ensures CvSeqToKana(["K", "a"]) == Some("カ")
  {
    assert ["K"] + ["a"] == ["K", "a"];
    KaRow();
    SeqToKanaOf(CvTable, ["K"], "a");
  }

  /** "S K" is no cluster of the consonant-vowel table. */
  lemma SkNoRow()
    ensures ["S", "K"] !in CvTable
  {
  }

  /** "S K a" is no key: "S K" has no row. */
  lemma SkaNoKey()
    ensures CvSeqToKana(["S", "K", "a"]).None?
  {
    assert ["S", "K"] + ["a"] == ["S", "K", "a"];
    SkNoRow();
    SeqToKanaMissing(CvTable, ["S", "K"], "a");
  }

  /** Keys end with a vowel core, so none of the token lists below is a key. */
  lemma SNoKey()
    ensures CvSeqToKana(["S"]).None?
  {
    CvKeyEndsInVowel(["S"]);
  }

  lemma SkNoKey()
    ensures CvSeqToKana(["S", "K"]).None?
  {
    CvKeyEndsInVowel(["S", "K"]);
  }

  lemma KaiNoKey()
    ensures CvSeqToKana(["K", "a", "イ"]).None?
  {
    CvKeyEndsInVowel(["K", "a", "イ"]);
  }

  /** "S" starts no key of up to three tokens, so it is copied. */
  lemma SkyS()
    ensures CvFused(["S", "K", "a", "イ"]) == ["S"] + CvFused(["K", "a", "イ"])
  {
    var t := ["S", "K", "a", "イ"];
    assert t[..1] == ["S"] && t[..2] == ["S", "K"] && t[..3] == ["S", "K", "a"] && t[1..] == ["K", "a", "イ"];
    SNoKey();
    SkNoKey();
    SkaNoKey();
    CvFusedCopy(t);
  }

  /** "K a" is the longest key at the head: it becomes "カ". */
  lemma SkyKa()
    ensures CvFused(["K", "a", "イ"]) == ["カ"] + CvFused(["イ"])
  {
    var t := ["K", "a", "イ"];
    assert t[..2] == ["K", "a"] && t[..3] == t && t[2..] == ["イ"];
    KaKana();
    KaiNoKey();
    CvFusedHit(t, 2);
  }

  /** Tokens with no vowel core pass the consonant-vowel stage unchanged. */
  lemma ICv()
    ensures CvFused(["イ"]) == ["イ"]
  {
    CvFusedNoVowel(["イ"]);
  }

  /** Consonant-vowel fusion, key by key. */
  lemma SkyCv()
    ensures CvFused(["S", "K", "a", "イ"]) == ["S", "カ", "イ"]
  {
    assert ["S"] + (["カ"] + ["イ"]) == ["S", "カ", "イ"];
    SkyS();
    SkyKa();
    ICv();
  }

  /** Standalone consonants become kana; katakana tokens pass. */
  lemma SkyStandalone()
    ensures StandaloneMapped(["S", "カ", "イ"]) == ["ス", "カ", "イ"]
  {
    var t := ["S", "カ", "イ"];
    assert t[..1] == ["S"] && t[..2] == ["S", "カ"] && t[1..] == ["カ", "イ"];
    StandaloneMappedHitOne(t);
    StandaloneMappedKana(["カ", "イ"]);
  }

  /** Every token is katakana and no two long marks touch: clean-up keeps them, and they are joined. */
  lemma SkyCleanup()
    ensures Concat(LongMarksCollapsed(UnknownConverted(["ス", "カ", "イ"], "?"))) == "スカイ"
  {
    UnknownConvertedKana(["ス", "カ", "イ"], "?");
    LongMarksCollapsedNoDouble(["ス", "カ", "イ"]);
  }

  /** "S K AY" ("sky") gives "スカイ": the stray "S" takes the standalone form "ス". */
  lemma SkyExample()
    ensures ArpabetKana(["S", "K", "AY"]) == "スカイ"
  {
    SkyNormalized();
    SkyExpanded();
    SkyVowels();
    SkySokuon();
    SkyResolved();
    SkyCv();
    SkyStandalone();
    SkyCleanup();
  }

  /** Normalisation: upper-case symbols lose their stress digits. */
  lemma HelloNormalized()
    ensures NormalizeTokens(["HH", "AH0", "L", "OW1"]) == ["HH", "AH", "L", "OW"]
  {
    assert "AH0" == "AH" + "0" && "OW1" == "OW" + "1" && "HH" == "HH" + "" && "L" == "L" + "";
    NormalizeStressed(["HH", "AH0", "L", "OW1"], ["HH", "AH", "L", "OW"], ["", "0", "", "1"]);
  }

  /** No R-coloured vowel, so R expansion changes nothing. */
  lemma HelloExpanded()
    ensures ExpandedR(["HH", "AH", "L", "OW"]) == ["HH", "AH", "L", "OW"]
  {
    ExpandedRNoRhotic(["HH", "AH", "L", "OW"]);
  }

  /** "HH AH" becomes "HH a". */
  lemma HhAhVowels()
    ensures VowelsNormalized(["HH", "AH"]) == ["HH", "a"]
  {
    assert ["HH", "AH"][1..] == ["AH"] && ["AH"][1..] == [];
  }

  /** "L OW" becomes "L o ウ". */
  lemma LOwVowels()
    ensures VowelsNormalized(["L", "OW"]) == ["L", "o", "ウ"]
  {
    assert ["L", "OW"][1..] == ["OW"] && ["OW"][1..] == [];
  }

  /** Vowel normalisation, token by token. */
  lemma HelloVowels()
    ensures VowelsNormalized(["HH", "AH", "L", "OW"]) == ["HH", "a", "L", "o", "ウ"]
  {
    assert ["HH", "AH"] + ["L", "OW"] == ["HH", "AH", "L", "OW"];
    assert ["HH", "a"] + ["L", "o", "ウ"] == ["HH", "a", "L", "o", "ウ"];
    VowelsNormalizedAppend(["HH", "AH"], ["L", "OW"]);
    HhAhVowels();
    LOwVowels();
  }

  /** No token can start a geminate-triggering cluster, so no marker goes in. */
  lemma HelloSokuon()
    ensures WithSokuon(["HH", "a", "L", "o", "ウ"]) == ["HH", "a", "L", "o", "ウ"]
  {
    WithSokuonNoCluster(["HH", "a", "L", "o", "ウ"]);
  }

  /** No "R", so the R stage changes nothing. */
  lemma HelloResolved()
    ensures RResolved(["HH", "a", "L", "o", "ウ"]) == ["HH", "a", "L", "o", "ウ"]
  {
    RResolvedNoR(["HH", "a", "L", "o", "ウ"]);
  }

  /** "HH" differs from every one-token cluster after it in the table. */
  lemma HhClusterDistinct()
    ensures ["HH"] != ["JH"] && ["HH"] != ["K"] && ["HH"] != ["L"] && ["HH"] != ["M"] &&
            ["HH"] != ["N"] && ["HH"] != ["NG"] && ["HH"] != ["NX"] && ["HH"] != ["P"] &&
            ["HH"] != ["R"] && ["HH"] != ["S"] && ["HH"] != ["SH"] && ["HH"] != ["T"] &&
            ["HH"] != ["TH"] && ["HH"] != ["V"] && ["HH"] != ["W"] && ["HH"] != ["Y"] &&
            ["HH"] != ["Z"] && ["HH"] != ["ZH"]
  {
  }

  /** The row of "HH" holds "ハ" for the core "a". */
  lemma HaRow()
    ensures ["HH"] in CvTable && "a" in CvTable[["HH"]] && CvTable[["HH"]]["a"] == "ハ"
  {
    HhClusterDistinct();
  }

  /** "HH a" is a key, with kana "ハ". */
  lemma HaKana()
    ensures CvSeqToKana(["HH", "a"]) == Some("ハ")
  {
    assert ["HH"] + ["a"] == ["HH", "a"];
    HaRow();
    SeqToKanaOf(CvTable, ["HH"], "a");
  }

  /** "L" differs from every one-token cluster after it in the table. */
  lemma LClusterDistinct()
    ensures ["L"] != ["M"] && ["L"] != ["N"] && ["L"] != ["NG"] && ["L"] != ["NX"] &&
            ["L"] != ["P"] && ["L"] != ["R"] && ["L"] != ["S"] && ["L"] != ["SH"] &&
            ["L"] != ["T"] && ["L"] != ["TH"] && ["L"] != ["V"] && ["L"] != ["W"] &&
            ["L"] != ["Y"] && ["L"] != ["Z"] && ["L"] != ["ZH"]
  {
  }

  /** The row of "L" holds "ロ" for the core "o". */
  lemma LoRow()
    ensures ["L"] in CvTable && "o" in CvTable[["L"]] && CvTable[["L"]]["o"] == "ロ"
  {
    LClusterDistinct();
  }

  /** "L o" is a key, with kana "ロ". */
  lemma LoKana()
    ensures CvSeqToKana(["L", "o"]) == Some("ロ")
  {
    assert ["L"] + ["o"] == ["L", "o"];
    LoRow();
    SeqToKanaOf(CvTable, ["L"], "o");
  }

  /** Keys end with a vowel core, so neither of these token lists is a key. */
  lemma HalNoKey()
    ensures CvSeqToKana(["HH", "a", "L"]).None?
  {
    CvKeyEndsInVowel(["HH", "a", "L"]);
  }

  lemma LouNoKey()
    ensures CvSeqToKana(["L", "o", "ウ"]).None?
  {
    CvKeyEndsInVowel(["L", "o", "ウ"]);
  }

  /** "HH a" is the longest key at the head: it becomes "ハ". */
  lemma HelloHa()
    ensures CvFused(["HH", "a", "L", "o", "ウ"]) == ["ハ"] + CvFused(["L", "o", "ウ"])
  {
    var t := ["HH", "a", "L", "o", "ウ"];
    assert t[..2] == ["HH", "a"] && t[..3] == ["HH", "a", "L"] && t[2..] == ["L", "o", "ウ"];
    HaKana();
    HalNoKey();
    CvFusedHit(t, 2);
  }

  /** "L o" is the longest key at the head: it becomes "ロ". */
  lemma HelloLo()
    ensures CvFused(["L", "o", "ウ"]) == ["ロ"] + CvFused(["ウ"])
  {
    var t := ["L", "o", "ウ"];
    assert t[..2] == ["L", "o"] && t[..3] == t && t[2..] == ["ウ"];
    LoKana();
    LouNoKey();
    CvFusedHit(t, 2);
  }

  /** Tokens with no vowel core pass the consonant-vowel stage unchanged. */
  lemma UCv()
    ensures CvFused(["ウ"]) == ["ウ"]
  {
    CvFusedNoVowel(["ウ"]);
  }

  /** Consonant-vowel fusion, key by key. */
  lemma HelloCv()
    ensures CvFused(["HH", "a", "L", "o", "ウ"]) == ["ハ", "ロ", "ウ"]
  {
    assert ["ハ"] + (["ロ"] + ["ウ"]) == ["ハ", "ロ", "ウ"];
    HelloHa();
    HelloLo();
    UCv();
  }

  /** Standalone consonants become kana; katakana tokens pass. */
  lemma HelloStandalone()
    ensures StandaloneMapped(["ハ", "ロ", "ウ"]) == ["ハ", "ロ", "ウ"]
  {
    StandaloneMappedKana(["ハ", "ロ", "ウ"]);
  }

  /** Every token is katakana and no two long marks touch: clean-up keeps them, and they are joined. */
  lemma HelloCleanup()
    ensures Concat(LongMarksCollapsed(UnknownConverted(["ハ", "ロ", "ウ"], "?"))) == "ハロウ"
  {
    UnknownConvertedKana(["ハ", "ロ", "ウ"], "?");
    LongMarksCollapsedNoDouble(["ハ", "ロ", "ウ"]);
  }

  /** "HH AH0 L OW1" ("hello") gives "ハロウ": stress digits go, and "OW" keeps its glide "ウ". */
  lemma HelloExample()
    ensures ArpabetKana(["HH", "AH0", "L", "OW1"]) == "ハロウ"
  {
    HelloNormalized();
    HelloExpanded();
    HelloVowels();
    HelloSokuon();
    HelloResolved();
    HelloCv();
    HelloStandalone();
    HelloCleanup();
  }

  /** Normalisation: upper-case symbols lose their stress digits. */
  lemma BlueNormalized()
    ensures NormalizeTokens(["B", "L", "UW"]) == ["B", "L", "UW"]
  {
    NormalizeSymbols(["B", "L", "UW"]);
  }

  /** No R-coloured vowel, so R expansion changes nothing. */
  lemma BlueExpanded()
    ensures ExpandedR(["B", "L", "UW"]) == ["B", "L", "UW"]
  {
    ExpandedRNoRhotic(["B", "L", "UW"]);
  }

  /** Consonants pass vowel normalisation unchanged. */
  lemma BlVowels()
    ensures VowelsNormalized(["B", "L"]) == ["B", "L"]
  {
    VowelsNormalizedNoVowel(["B", "L"]);
  }

  /** "UW" becomes the core "u" and a long mark. */
  lemma UwVowel()
    ensures VowelsNormalized(["UW"]) == ["u", "ー"]
  {
    assert ["UW"][1..] == [];
  }

  /** Vowel normalisation, token by token. */
  lemma BlueVowels()
    ensures VowelsNormalized(["B", "L", "UW"]) == ["B", "L", "u", "ー"]
  {
    assert ["B", "L"] + ["UW"] == ["B", "L", "UW"];
    assert ["B", "L"] + ["u", "ー"] == ["B", "L", "u", "ー"];
    VowelsNormalizedAppend(["B", "L"], ["UW"]);
    BlVowels();
    UwVowel();
  }

  /** No token can start a geminate-triggering cluster, so no marker goes in. */
  lemma BlueSokuon()
    ensures WithSokuon(["B", "L", "u", "ー"]) == ["B", "L", "u", "ー"]
  {
    WithSokuonNoCluster(["B", "L", "u", "ー"]);
  }

  /** No "R", so the R stage changes nothing. */
  lemma BlueResolved()
    ensures RResolved(["B", "L", "u", "ー"]) == ["B", "L", "u", "ー"]
  {
    RResolvedNoR(["B", "L", "u", "ー"]);
  }

  /** The row of "L" holds "ル" for the core "u". */
  lemma LuRow()
    ensures ["L"] in CvTable && "u" in CvTable[["L"]] && CvTable[["L"]]["u"] == "ル"
  {
    LClusterDistinct();
  }

  /** "L u" is a key, with kana "ル". */
  lemma LuKana()
    ensures CvSeqToKana(["L", "u"]) == Some("ル")
  {
    assert ["L"] + ["u"] == ["L", "u"];
    LuRow();
    SeqToKanaOf(CvTable, ["L"], "u");
  }

  /** "B L" is no cluster of the consonant-vowel table. */
  lemma BlNoRow()
    ensures ["B", "L"] !in CvTable
  {
  }

  /** "B L u" is no key: "B L" has no row. */
  lemma BluNoKey()
    ensures CvSeqToKana(["B", "L", "u"]).None?
  {
    assert ["B", "L"] + ["u"] == ["B", "L", "u"];
    BlNoRow();
    SeqToKanaMissing(CvTable, ["B", "L"], "u");
  }

  /** Keys end with a vowel core, so none of these token lists is a key. */
  lemma BNoKey()
    ensures CvSeqToKana(["B"]).None?
  {
    CvKeyEndsInVowel(["B"]);
  }

  lemma BlNoKey()
    ensures CvSeqToKana(["B", "L"]).None?
  {
    CvKeyEndsInVowel(["B", "L"]);
  }

  lemma LuuNoKey()
    ensures CvSeqToKana(["L", "u", "ー"]).None?
  {
    CvKeyEndsInVowel(["L", "u", "ー"]);
  }

  /** "B" starts no key of up to three tokens, so it is copied. */
  lemma BlueB()
    ensures CvFused(["B", "L", "u", "ー"]) == ["B"] + CvFused(["L", "u", "ー"])
  {
    var t := ["B", "L", "u", "ー"];
    assert t[..1] == ["B"] && t[..2] == ["B", "L"] && t[..3] == ["B", "L", "u"] && t[1..] == ["L", "u", "ー"];
    BNoKey();
    BlNoKey();
    BluNoKey();
    CvFusedCopy(t);
  }

  /** "L u" is the longest key at the head: it becomes "ル". */
  lemma BlueLu()
    ensures CvFused(["L", "u", "ー"]) == ["ル"] + CvFused(["ー"])
  {
    var t := ["L", "u", "ー"];
    assert t[..2] == ["L", "u"] && t[..3] == t && t[2..] == ["ー"];
    LuKana();
    LuuNoKey();
    CvFusedHit(t, 2);
  }

  /** Tokens with no vowel core pass the consonant-vowel stage unchanged. */
  lemma LongMarkCv()
    ensures CvFused(["ー"]) == ["ー"]
  {
    CvFusedNoVowel(["ー"]);
  }

  /** Consonant-vowel fusion, key by key. */
  lemma BlueCv()
    ensures CvFused(["B", "L", "u", "ー"]) == ["B", "ル", "ー"]
  {
    assert ["B"] + (["ル"] + ["ー"]) == ["B", "ル", "ー"];
    BlueB();
    BlueLu();
    LongMarkCv();
  }

  /** "B" alone is "ブ", and "B ル" is no standalone key. */
  lemma BStandalone()
    ensures ["B"] in StandaloneConsonants && StandaloneConsonants[["B"]] == ["ブ"]
    ensures ["B", "ル"] !in StandaloneConsonants
  {
  }

  /** Standalone consonants become kana; katakana tokens pass. */
  lemma BlueStandalone()
    ensures StandaloneMapped(["B", "ル", "ー"]) == ["ブ", "ル", "ー"]
  {
    var t := ["B", "ル", "ー"];
    assert t[..1] == ["B"] && t[..2] == ["B", "ル"] && t[1..] == ["ル", "ー"];
    assert ["ブ"] + ["ル", "ー"] == ["ブ", "ル", "ー"];
    BStandalone();
    StandaloneMappedHitOne(t);
    StandaloneMappedKana(["ル", "ー"]);
  }

  /** Every token is katakana and no two long marks touch: clean-up keeps them, and they are joined. */
  lemma BlueCleanup()
    ensures Concat(LongMarksCollapsed(UnknownConverted(["ブ", "ル", "ー"], "?"))) == "ブルー"
  {
    UnknownConvertedKana(["ブ", "ル", "ー"], "?");
    LongMarksCollapsedNoDouble(["ブ", "ル", "ー"]);
  }

  /** "B L UW" ("blue") gives "ブルー": "UW" is a long "u". */
  lemma BlueExample()
    ensures ArpabetKana(["B", "L", "UW"]) == "ブルー"
  {
    BlueNormalized();
    BlueExpanded();
    BlueVowels();
    BlueSokuon();
    BlueResolved();
    BlueCv();
    BlueStandalone();
    BlueCleanup();
  }

  /** Normalisation: upper-case symbols lose their stress digits. */
  lemma CuteNormalized()
    ensures NormalizeTokens(["K", "Y", "UW1", "Z"]) == ["K", "Y", "UW", "Z"]
  {
    assert "UW1" == "UW" + "1" && "K" == "K" + "" && "Y" == "Y" + "" && "Z" == "Z" + "";
    NormalizeStressed(["K", "Y", "UW1", "Z"], ["K", "Y", "UW", "Z"], ["", "", "1", ""]);
  }

  /** No R-coloured vowel, so R expansion changes nothing. */
  lemma CuteExpanded()
    ensures ExpandedR(["K", "Y", "UW", "Z"]) == ["K", "Y", "UW", "Z"]
  {
    ExpandedRNoRhotic(["K", "Y", "UW", "Z"]);
  }

  /** Consonants pass vowel normalisation unchanged. */
  lemma KyVowels()
    ensures VowelsNormalized(["K", "Y"]) == ["K", "Y"]
  {
    VowelsNormalizedNoVowel(["K", "Y"]);
  }

  /** "UW Z" becomes "u ー Z". */
  lemma UwZVowels()
    ensures VowelsNormalized(["UW", "Z"]) == ["u", "ー", "Z"]
  {
    assert ["UW", "Z"][1..] == ["Z"] && ["Z"][1..] == [];
  }

  /** Vowel normalisation, token by token. */
  lemma CuteVowels()
    ensures VowelsNormalized(["K", "Y", "UW", "Z"]) == ["K", "Y", "u", "ー", "Z"]
  {
    assert ["K", "Y"] + ["UW", "Z"] == ["K", "Y", "UW", "Z"];
    assert ["K", "Y"] + ["u", "ー", "Z"] == ["K", "Y", "u", "ー", "Z"];
    VowelsNormalizedAppend(["K", "Y"], ["UW", "Z"]);
    KyVowels();
    UwZVowels();
  }

  /** No token can start a geminate-triggering cluster, so no marker goes in. */
  lemma CuteSokuon()
    ensures WithSokuon(["K", "Y", "u", "ー", "Z"]) == ["K", "Y", "u", "ー", "Z"]
  {
    WithSokuonNoCluster(["K", "Y", "u", "ー", "Z"]);
  }

  /** No "R", so the R stage changes nothing. */
  lemma CuteResolved()
    ensures RResolved(["K", "Y", "u", "ー", "Z"]) == ["K", "Y", "u", "ー", "Z"]
  {
    RResolvedNoR(["K", "Y", "u", "ー", "Z"]);
  }

  /** Tokens with no vowel core pass the consonant-vowel stage unchanged. */
  lemma LongMarkZCv()
    ensures CvFused(["ー", "Z"]) == ["ー", "Z"]
  {
    CvFusedNoVowel(["ー", "Z"]);
  }

  /** Consonant-vowel fusion, key by key. */
  lemma CuteCv()
    ensures CvFused(["K", "Y", "u", "ー", "Z"]) == ["キュ", "ー", "Z"]
  {
    assert ["K", "Y", "u"] + ["ー", "Z"] == ["K", "Y", "u", "ー", "Z"];
    assert ["キュ"] + ["ー", "Z"] == ["キュ", "ー", "Z"];
    CvFusedLongest(["ー", "Z"]);
    LongMarkZCv();
  }

  /** A lone "Z" becomes "ズ". */
  lemma ZStandalone()
    ensures StandaloneMapped(["Z"]) == ["ズ"]
  {
    var t := ["Z"];
    assert t[..1] == ["Z"] && t[1..] == [];
    assert StandaloneConsonants[["Z"]] == ["ズ"];
    StandaloneMappedHitOne(t);
  }

  /** Standalone consonants become kana; katakana tokens pass. */
  lemma CuteStandalone()
    ensures StandaloneMapped(["キュ", "ー", "Z"]) == ["キュ", "ー", "ズ"]
  {
    assert ["キュ", "ー", "Z"][1..] == ["ー", "Z"] && ["ー", "Z"][1..] == ["Z"];
    assert ["キュ"] + (["ー"] + ["ズ"]) == ["キュ", "ー", "ズ"];
    StandaloneMappedKanaHead(["キュ", "ー", "Z"]);
    StandaloneMappedKanaHead(["ー", "Z"]);
    ZStandalone();
  }

  /** Every token is katakana and no two long marks touch: clean-up keeps them, and they are joined. */
  lemma CuteCleanup()
    ensures Concat(LongMarksCollapsed(UnknownConverted(["キュ", "ー", "ズ"], "?"))) == "キューズ"
  {
    UnknownConvertedKana(["キュ", "ー", "ズ"], "?");
    LongMarksCollapsedNoDouble(["キュ", "ー", "ズ"]);
  }

  /** "K Y UW1 Z" ("cues") gives "キューズ": "K Y u" fuses as one key of three tokens. */
  lemma CuteExample()
    ensures ArpabetKana(["K", "Y", "UW1", "Z"]) == "キューズ"
  {
    CuteNormalized();
    CuteExpanded();
    CuteVowels();
    CuteSokuon();
    CuteResolved();
    CuteCv();
    CuteStandalone();
    CuteCleanup();
  }

  /** The stages before clean-up all pass "XYZ" on unchanged. */
  lemma XyzNormalized()
    ensures NormalizeTokens(["XYZ"]) == ["XYZ"]
  {
    NormalizeSymbols(["XYZ"]);
  }

  lemma XyzExpanded()
    ensures ExpandedR(["XYZ"]) == ["XYZ"]
  {
    ExpandedRNoRhotic(["XYZ"]);
  }

  lemma XyzVowels()
    ensures VowelsNormalized(["XYZ"]) == ["XYZ"]
  {
    VowelsNormalizedNoVowel(["XYZ"]);
  }

  lemma XyzSokuon()
    ensures WithSokuon(["XYZ"]) == ["XYZ"]
  {
    WithSokuonNoCluster(["XYZ"]);
  }

  lemma XyzResolved()
    ensures RResolved(["XYZ"]) == ["XYZ"]
  {
    RResolvedNoR(["XYZ"]);
  }

  lemma XyzCv()
    ensures CvFused(["XYZ"]) == ["XYZ"]
  {
    CvFusedNoVowel(["XYZ"]);
  }

  /** "XYZ" is no standalone key, so it is copied. */
  lemma XyzStandalone()
    ensures StandaloneMapped(["XYZ"]) == ["XYZ"]
  {
    assert ["XYZ"][..0] == [] && ["XYZ"][..1] == ["XYZ"] && ["XYZ"][1..] == [];
    StandaloneMappedCopies(["XYZ"]);
  }

  /** "XYZ" is not katakana, so clean-up replaces it with the placeholder. */
  lemma XyzCleanup()
    ensures Concat(LongMarksCollapsed(UnknownConverted(["XYZ"], "?"))) == "?"
  {
    assert "XYZ"[0] == 'X';
  }

  /** With the default placeholder, a token that is no ARPAbet symbol comes out as "?". */
  lemma XyzExample()
    ensures ArpabetKana(["XYZ"]) == "?"
  {
    XyzNormalized();
    XyzExpanded();
    XyzVowels();
    XyzSokuon();
    XyzResolved();
    XyzCv();
    XyzStandalone();
    XyzCleanup();
  }
}
