/**
 * The constant rule tables of the converter and the lookup maps derived from them
 * (src/arpakana/arpabet.py:14-150).
 */
module Tables {
  import opened Common

  /** The five vowel cores that vowel normalisation produces. */
  const Vowels: set<string> := {"a", "i", "u", "e", "o"}

  /** The geminate marker (sokuon). */
  const Sokuon: string := "ッ"

  /** The long-vowel mark (chōonpu). */
  const LongMark: string := "ー"

  /** Each ARPAbet vowel to its core and an optional trailing glide or long mark. */
  const VowelMap: map<string, seq<string>> := map[
    "AA" := ["a"],
    "AE" := ["a"],
    "AH" := ["a"],
    "AO" := ["o"],
    "AW" := ["a", "ウ"],
    "AX" := ["a"],
    "AXR" := ["a", "ー"],
    "AY" := ["a", "イ"],
    "EH" := ["e"],
    "ER" := ["a", "ー"],
    "EY" := ["e", "イ"],
    "IH" := ["i"],
    "IX" := ["i"],
    "IY" := ["i", "ー"],
    "OW" := ["o", "ウ"],
    "OY" := ["o", "イ"],
    "OH" := ["o", "ー"],
    "UH" := ["u"],
    "UW" := ["u", "ー"],
    "UX" := ["u"]
  ]

  /** Consonant cluster (empty, one consonant, or a combined pair) to its row of kana. */
  const CvTable: map<seq<string>, map<string, string>> := map[
    [] := map["a" := "ア", "i" := "イ", "u" := "ウ", "e" := "エ", "o" := "オ"],
    ["B"] := map["a" := "バ", "i" := "ビ", "u" := "ブ", "e" := "ベ", "o" := "ボ"],
    ["CH"] := map["a" := "チャ", "i" := "チ", "u" := "チュ", "e" := "チェ", "o" := "チョ"],
    ["D"] := map["a" := "ダ", "i" := "ディ", "u" := "ドゥ", "e" := "デ", "o" := "ド"],
    ["DH"] := map["a" := "ダ", "i" := "ディ", "u" := "ドゥ", "e" := "デ", "o" := "ド"],
    ["DX"] := map["a" := "ラ", "i" := "リ", "u" := "ル", "e" := "レ", "o" := "ロ"],
    ["F"] := map["a" := "ファ", "i" := "フィ", "u" := "フ", "e" := "フェ", "o" := "フォ"],
    ["G"] := map["a" := "ガ", "i" := "ギ", "u" := "グ", "e" := "ゲ", "o" := "ゴ"],
    ["HH"] := map["a" := "ハ", "i" := "ヒ", "u" := "フ", "e" := "ヘ", "o" := "ホ"],
    ["JH"] := map["a" := "ジャ", "i" := "ジ", "u" := "ジュ", "e" := "ジェ", "o" := "ジョ"],
    ["K"] := map["a" := "カ", "i" := "キ", "u" := "ク", "e" := "ケ", "o" := "コ"],
    ["L"] := map["a" := "ラ", "i" := "リ", "u" := "ル", "e" := "レ", "o" := "ロ"],
    ["M"] := map["a" := "マ", "i" := "ミ", "u" := "ム", "e" := "メ", "o" := "モ"],
    ["N"] := map["a" := "ナ", "i" := "ニ", "u" := "ヌ", "e" := "ネ", "o" := "ノ"],
    ["NG"] := map["a" := "ンガ", "i" := "ンギ", "u" := "ング", "e" := "ンゲ", "o" := "ンゴ"],
    ["NX"] := map["a" := "ナ", "i" := "ニ", "u" := "ヌ", "e" := "ネ", "o" := "ノ"],
    ["P"] := map["a" := "パ", "i" := "ピ", "u" := "プ", "e" := "ペ", "o" := "ポ"],
    ["R"] := map["a" := "ラ", "i" := "リ", "u" := "ル", "e" := "レ", "o" := "ロ"],
    ["S"] := map["a" := "サ", "i" := "シ", "u" := "ス", "e" := "セ", "o" := "ソ"],
    ["SH"] := map["a" := "シャ", "i" := "シ", "u" := "シュ", "e" := "シェ", "o" := "ショ"],
    ["T"] := map["a" := "タ", "i" := "ティ", "u" := "トゥ", "e" := "テ", "o" := "ト"],
    ["TH"] := map["a" := "サ", "i" := "シ", "u" := "ス", "e" := "セ", "o" := "ソ"],
    ["V"] := map["a" := "ヴァ", "i" := "ヴィ", "u" := "ヴ", "e" := "ヴェ", "o" := "ヴォ"],
    ["W"] := map["a" := "ワ", "i" := "ウィ", "u" := "ウ", "e" := "ウェ", "o" := "ウォ"],
    ["Y"] := map["a" := "ヤ", "i" := "イ", "u" := "ユ", "e" := "イェ", "o" := "ヨ"],
    ["Z"] := map["a" := "ザ", "i" := "ズィ", "u" := "ズ", "e" := "ゼ", "o" := "ゾ"],
    ["ZH"] := map["a" := "ジャ", "i" := "ジ", "u" := "ジュ", "e" := "ジェ", "o" := "ジョ"],
    ["K", "Y"] := map["a" := "キャ", "i" := "キィ", "u" := "キュ", "e" := "キェ", "o" := "キョ"],
    ["G", "Y"] := map["a" := "ギャ", "i" := "ギィ", "u" := "ギュ", "e" := "ギェ", "o" := "ギョ"],
    ["S", "Y"] := map["a" := "シャ", "i" := "シィ", "u" := "シュ", "e" := "シェ", "o" := "ショ"],
    ["Z", "Y"] := map["a" := "ジャ", "i" := "ジィ", "u" := "ジュ", "e" := "ジェ", "o" := "ジョ"],
    ["T", "Y"] := map["a" := "チャ", "i" := "チィ", "u" := "チュ", "e" := "チェ", "o" := "チョ"],
    ["D", "Y"] := map["a" := "ジャ", "i" := "ジィ", "u" := "ジュ", "e" := "ジェ", "o" := "ジョ"],
    ["H", "Y"] := map["a" := "ヒャ", "i" := "ヒィ", "u" := "ヒュ", "e" := "ヒェ", "o" := "ヒョ"],
    ["B", "Y"] := map["a" := "ビャ", "i" := "ビィ", "u" := "ビュ", "e" := "ビェ", "o" := "ビョ"],
    ["P", "Y"] := map["a" := "ピャ", "i" := "ピィ", "u" := "ピュ", "e" := "ピェ", "o" := "ピョ"],
    ["M", "Y"] := map["a" := "ミャ", "i" := "ミィ", "u" := "ミュ", "e" := "ミェ", "o" := "ミョ"],
    ["R", "Y"] := map["a" := "リャ", "i" := "リィ", "u" := "リュ", "e" := "リェ", "o" := "リョ"],
    ["L", "Y"] := map["a" := "リャ", "i" := "リィ", "u" := "リュ", "e" := "リェ", "o" := "リョ"],
    ["N", "Y"] := map["a" := "ニャ", "i" := "ニィ", "u" := "ニュ", "e" := "ニェ", "o" := "ニョ"],
    ["F", "Y"] := map["a" := "フャ", "i" := "フィ", "u" := "フュ", "e" := "フェ", "o" := "フョ"],
    ["T", "S"] := map["a" := "ツァ", "i" := "ツィ", "u" := "ツ", "e" := "ツェ", "o" := "ツォ"]
  ]

  /** Consonant clusters left without a vowel, to the kana that stand for them. */
  const StandaloneConsonants: map<seq<string>, seq<string>> := map[
    ["B"] := ["ブ"],
    ["CH"] := ["チ"],
    ["D"] := ["ド"],
    ["DH"] := ["ズ"],
    ["DX"] := ["ル"],
    ["F"] := ["フ"],
    ["G"] := ["グ"],
    ["JH"] := ["ジ"],
    ["K"] := ["ク"],
    ["L"] := ["ル"],
    ["M"] := ["ン"],
    ["N"] := ["ン"],
    ["NG"] := ["ン"],
    ["NX"] := ["ン"],
    ["P"] := ["プ"],
    ["R"] := ["ア"],
    ["S"] := ["ス"],
    ["SH"] := ["シュ"],
    ["T"] := ["トゥ"],
    ["TH"] := ["ス"],
    ["V"] := ["ヴ"],
    ["Z"] := ["ズ"],
    ["ZH"] := ["ジュ"],
    ["T", "S"] := ["ツ"]
  ]

  /** Clusters before which a geminate marker is inserted after a vowel. */
  const SokuonClusters: set<seq<string>> := {["CH"], ["SH"], ["JH"], ["ZH"], ["T", "S"]}

  /** A character of the Unicode katakana block, U+30A0 to U+30FF. */
  predicate IsKanaChar(c: char)
  {
    '\U{30A0}' <= c <= '\U{30FF}'
  }

  /** A non-empty run of katakana characters. */
  predicate KanaRun(s: string)
  {
    s != [] && forall k :: 0 <= k < |s| ==> IsKanaChar(s[k])
  }

  /** Key lengths of the derived tables, longest first. */
  const CvLengths: seq<nat> := [3, 2, 1]
  const RLengths: seq<nat> := [3, 2]
  const StandaloneLengths: seq<nat> := [2, 1]
  const SokuonLengths: seq<nat> := [2, 1]

  /** All of `key` but its last token. */
  function Init(key: seq<string>): seq<string>
    requires key != []
  {
    key[..|key| - 1]
  }

  /** The last token of `key`. */
  function Last(key: seq<string>): string
    requires key != []
  {
    key[|key| - 1]
  }

  /**
   * The flat map derived from a table of rows: a key is a cluster of `table` followed by
   * one vowel core of that cluster's row, and its value is the kana there.
   */
  function SeqToKana(table: map<seq<string>, map<string, string>>, key: seq<string>): (r: Option<string>)
    ensures r.Some? <==> exists cons, v :: key == cons + [v] && cons in table && v in table[cons]
    ensures r.Some? ==> r.value == table[Init(key)][Last(key)]
  {
    if key != [] && Init(key) in table && Last(key) in table[Init(key)] then
      assert key == Init(key) + [Last(key)];
      Some(table[Init(key)][Last(key)])
    else
      None
  }

  /** A cluster of `table` followed by a vowel core of its row is a key, with that row's kana. */
  lemma SeqToKanaOf(table: map<seq<string>, map<string, string>>, cons: seq<string>, v: string)
    requires cons in table && v in table[cons]
    ensures SeqToKana(table, cons + [v]) == Some(table[cons][v])
  {
    assert Init(cons + [v]) == cons && Last(cons + [v]) == v;
  }

  /** A cluster missing from `table`, or a vowel core missing from its row, makes no key. */
  lemma SeqToKanaMissing(table: map<seq<string>, map<string, string>>, cons: seq<string>, v: string)
    requires cons !in table || v !in table[cons]
    ensures SeqToKana(table, cons + [v]).None?
  {
    assert Init(cons + [v]) == cons && Last(cons + [v]) == v;
  }

  /** `_CV_SEQ2KANA`: the consonant-vowel table flattened to cluster-plus-vowel keys. */
  function CvSeqToKana(key: seq<string>): Option<string>
  {
    SeqToKana(CvTable, key)
  }

  /** The entries of the consonant-vowel map whose key starts with "R". */
  function RSeqToKana(key: seq<string>): (r: Option<string>)
    ensures r.Some? <==> key != [] && key[0] == "R" && CvSeqToKana(key).Some?
  {
    if key != [] && key[0] == "R" then CvSeqToKana(key) else None
  }

  /** The three tables as rewrite rules: the tokens a matched key is replaced by. */
  function CvRule(key: seq<string>): (r: Option<seq<string>>)
    ensures r.Some? <==> CvSeqToKana(key).Some?
    ensures r.Some? ==> r.value == [CvSeqToKana(key).value]
  {
    match CvSeqToKana(key)
    case None => None
    case Some(kana) => Some([kana])
  }

  function RRule(key: seq<string>): (r: Option<seq<string>>)
    ensures r.Some? <==> RSeqToKana(key).Some?
    ensures r.Some? ==> r.value == [RSeqToKana(key).value]
  {
    match RSeqToKana(key)
    case None => None
    case Some(kana) => Some([kana])
  }

  function StandaloneRule(key: seq<string>): (r: Option<seq<string>>)
    ensures r.Some? <==> key in StandaloneConsonants
    ensures r.Some? ==> r.value == StandaloneConsonants[key]
  {
    if key in StandaloneConsonants then Some(StandaloneConsonants[key]) else None
  }

  /**
   * The module-level loop that fills the flat map from a table, row by row and vowel by
   * vowel: the map it builds is exactly `SeqToKana(table, _)`.
   */
  method FillSeqToKana(table: map<seq<string>, map<string, string>>) returns (m: map<seq<string>, string>)
    ensures forall key :: key in m <==> SeqToKana(table, key).Some?
    ensures forall key :: key in m ==> SeqToKana(table, key) == Some(m[key])
  {
    m := map[];
    var todo := table.Keys;
    while todo != {}
      invariant todo <= table.Keys
      invariant forall key :: key in m <==>
        key != [] && Init(key) in table && Init(key) !in todo && Last(key) in table[Init(key)]
      invariant forall key :: key in m ==> m[key] == table[Init(key)][Last(key)]
      decreases todo
    {
      var cons :| cons in todo;
      var row := table[cons];
      var left := row.Keys;
      while left != {}
        invariant left <= row.Keys
        invariant forall key :: key in m <==>
          key != [] && Init(key) in table && Last(key) in table[Init(key)] &&
          ((Init(key) !in todo) || (Init(key) == cons && Last(key) !in left))
        invariant forall key :: key in m ==> m[key] == table[Init(key)][Last(key)]
        decreases left
      {
        var vowel :| vowel in left;
        assert Init(cons + [vowel]) == cons && Last(cons + [vowel]) == vowel;
        forall key | key != [] && Init(key) == cons && Last(key) == vowel
          ensures key == cons + [vowel]
        {
          assert key == Init(key) + [Last(key)];
        }
        m := m[cons + [vowel] := row[vowel]];
        left := left - {vowel};
      }
      todo := todo - {cons};
    }
  }

  /** The consonant-vowel map as the loop at module level builds it. */
  method FillCvSeqToKana() returns (m: map<seq<string>, string>)
    ensures forall key :: key in m <==> CvSeqToKana(key).Some?
    ensures forall key :: key in m ==> CvSeqToKana(key) == Some(m[key])
  {
    m := FillSeqToKana(CvTable);
  }

  /** Every cluster of the consonant-vowel table has at most two consonants. */
  lemma ClusterLengths()
    ensures forall cons :: cons in CvTable ==> |cons| <= 2
  {
  }

  /** The row of the empty cluster (a bare vowel) has only vowel cores as keys. */
  lemma BareVowelRow()
    ensures [] in CvTable
    ensures forall v :: v in CvTable[[]] ==> v in Vowels
  {
  }

  /** Every row of the consonant-vowel table is keyed by vowel cores only. */
  lemma RowsKeyedByVowels()
    ensures forall cons, v :: cons in CvTable && v in CvTable[cons] ==> v in Vowels
  {
  }

  /** A key of the consonant-vowel map is a cluster of the table followed by a vowel core. */
  lemma CvKeyShape(key: seq<string>)
    requires CvSeqToKana(key).Some?
    ensures 1 <= |key| <= 3 && Init(key) in CvTable && Last(key) in Vowels
  {
    ClusterLengths();
    RowsKeyedByVowels();
  }

  /** Every key of the consonant-vowel map has a length listed in `CvLengths`. */
  lemma CvLengthsCover(key: seq<string>)
    requires CvSeqToKana(key).Some?
    ensures |key| in CvLengths
  {
    ClusterLengths();
  }

  /** Every key of the R map has a length listed in `RLengths`. */
  lemma RLengthsCover(key: seq<string>)
    requires RSeqToKana(key).Some?
    ensures |key| in RLengths
  {
    RKeyCluster(key);
    assert |key| == |Init(key)| + 1;
  }

  /** Every standalone-consonant key has a length listed in `StandaloneLengths`. */
  lemma StandaloneLengthsCover(key: seq<string>)
    requires key in StandaloneConsonants
    ensures |key| in StandaloneLengths
  {
  }

  /** Every geminate-triggering cluster has a length listed in `SokuonLengths`. */
  lemma SokuonLengthsCover(key: seq<string>)
    requires key in SokuonClusters
    ensures |key| in SokuonLengths
  {
  }

  /** The only clusters of the consonant-vowel table that start with "R". */
  lemma RClusters()
    ensures forall cons :: cons in CvTable && cons != [] && cons[0] == "R" ==> cons == ["R"] || cons == ["R", "Y"]
  {
  }

  /** The two rows of R clusters. */
  lemma RRows()
    ensures ["R"] in CvTable && CvTable[["R"]] == map["a" := "ラ", "i" := "リ", "u" := "ル", "e" := "レ", "o" := "ロ"]
    ensures ["R", "Y"] in CvTable && CvTable[["R", "Y"]] == map["a" := "リャ", "i" := "リィ", "u" := "リュ", "e" := "リェ", "o" := "リョ"]
  {
  }

  /** Every entry of the two R rows, as written, starts with katakana. */
  lemma RRowLiteralsKana()
    ensures var row := map["a" := "ラ", "i" := "リ", "u" := "ル", "e" := "レ", "o" := "ロ"];
            forall v :: v in row ==> row[v] != [] && IsKanaChar(row[v][0])
    ensures var row := map["a" := "リャ", "i" := "リィ", "u" := "リュ", "e" := "リェ", "o" := "リョ"];
            forall v :: v in row ==> row[v] != [] && IsKanaChar(row[v][0])
  {
  }

  /** The two rows of R clusters hold kana only. */
  lemma RRowsKana()
    ensures forall v :: v in CvTable[["R"]] ==> CvTable[["R"]][v] != [] && IsKanaChar(CvTable[["R"]][v][0])
    ensures forall v :: v in CvTable[["R", "Y"]] ==> CvTable[["R", "Y"]][v] != [] && IsKanaChar(CvTable[["R", "Y"]][v][0])
  {
    RRows();
    RRowLiteralsKana();
  }

  /** A token that starts with katakana is neither a vowel core nor an ARPAbet symbol such as "R". */
  lemma KanaNotAscii(s: string)
    requires s != [] && IsKanaChar(s[0])
    ensures s !in Vowels && s != "R"
  {
    assert forall v :: v in Vowels ==> v[0] < '\U{30A0}';
  }

  /** "R Y u" is a key of the R map, with kana "リュ". */
  lemma RYuKana()
    ensures RSeqToKana(["R", "Y", "u"]) == Some("リュ")
  {
    var key := ["R", "Y", "u"];
    assert Init(key) == ["R", "Y"] && Last(key) == "u";
    assert CvTable[["R", "Y"]]["u"] == "リュ";
  }

  /** "K Y u" is a key of the consonant-vowel map, with kana "キュ". */
  lemma KYuKana()
    ensures CvSeqToKana(["K", "Y", "u"]) == Some("キュ")
  {
    var key := ["K", "Y", "u"];
    assert Init(key) == ["K", "Y"] && Last(key) == "u";
    assert CvTable[["K", "Y"]]["u"] == "キュ";
  }

  /** Every standalone-consonant key starts with an ARPAbet symbol, never with katakana. */
  lemma StandaloneKeyAscii(key: seq<string>)
    requires key in StandaloneConsonants
    ensures key != [] && key[0] != [] && !IsKanaChar(key[0][0])
  {
  }

  /** The row of "R" has an entry for every vowel core. */
  lemma RRowVowels()
    ensures ["R"] in CvTable
    ensures forall v :: v in Vowels ==> v in CvTable[["R"]]
  {
    RRows();
  }

  /** A key of the R map is the "R" or "R Y" cluster followed by a vowel core. */
  lemma RKeyCluster(key: seq<string>)
    requires RSeqToKana(key).Some?
    ensures Init(key) == ["R"] || Init(key) == ["R", "Y"]
  {
    var cons, v := Init(key), Last(key);
    assert key == cons + [v];
    assert cons != [] by {
      BareVowelRow();
    }
    assert cons in CvTable && cons[0] == "R";
    RClusters();
  }

  /** Every kana of the R map starts with a katakana character. */
  lemma RValuesKana(key: seq<string>)
    requires RSeqToKana(key).Some?
    ensures RSeqToKana(key).value != [] && IsKanaChar(RSeqToKana(key).value[0])
  {
    RKeyCluster(key);
    RRowsKana();
  }

  /** Every standalone consonant becomes exactly one token. */
  lemma StandaloneValueSingle(key: seq<string>)
    requires key in StandaloneConsonants
    ensures |StandaloneConsonants[key]| == 1
  {
  }

  /** Every standalone consonant becomes exactly one token, a run of katakana. */
  lemma StandaloneValueKana(key: seq<string>)
    requires key in StandaloneConsonants
    ensures |StandaloneConsonants[key]| == 1 && KanaRun(StandaloneConsonants[key][0])
  {
    StandaloneValueSingle(key);
    var v := StandaloneConsonants[key][0];
    assert v in {"ブ", "チ", "ド", "ズ", "ル", "フ", "グ", "ジ", "ク", "ン", "プ", "ア", "ス", "シュ", "トゥ", "ヴ", "ジュ", "ツ"};
  }
}
