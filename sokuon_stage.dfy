/**
 * Geminate-marker insertion: scanning left to right, a sokuon "ッ" goes before each
 * geminate-triggering cluster whose preceding output token is a vowel core
 * (src/arpakana/arpabet.py:119-125, :173-190).
 */
module SokuonStage {
  import opened Common
  import opened Tables

  /** A geminate-triggering cluster starts `tokens`, trying `SokuonLengths` from position `from` on. */
  predicate ClusterFrom(tokens: seq<string>, from: nat)
    requires from <= |SokuonLengths|
    decreases |SokuonLengths| - from
  {
    from < |SokuonLengths| &&
    ((SokuonLengths[from] <= |tokens| && tokens[..SokuonLengths[from]] in SokuonClusters) ||
     ClusterFrom(tokens, from + 1))
  }

  /** Trying the two lengths finds exactly the clusters of the set that start `tokens`. */
  lemma ClusterFromIff(tokens: seq<string>)
    ensures ClusterFrom(tokens, 0) <==> exists len :: 0 <= len <= |tokens| && tokens[..len] in SokuonClusters
  {
    if len :| 0 <= len <= |tokens| && tokens[..len] in SokuonClusters {
      SokuonLengthsCover(tokens[..len]);
    }
  }

  /** Which tokens can start a cluster, and the one cluster of two tokens. */
  lemma ClusterFromCases(tokens: seq<string>)
    ensures ClusterFrom(tokens, 0) <==>
      (|tokens| >= 1 && tokens[0] in {"CH", "SH", "JH", "ZH"}) ||
      (|tokens| >= 2 && tokens[0] == "T" && tokens[1] == "S")
  {
    if |tokens| >= 2 {
      assert tokens[..2] == [tokens[0], tokens[1]];
    }
    if |tokens| >= 1 {
      assert tokens[..1] == [tokens[0]];
    }
  }

  /** The marker goes before the head of `rest` when the previous output token is `prev`. */
  predicate Geminates(prev: string, rest: seq<string>)
  {
    prev in Vowels && ClusterFrom(rest, 0)
  }

  /** The output for `rest` when the last token already emitted is `prev`. */
  function SokuonAfter(prev: string, rest: seq<string>): (r: seq<string>)
    ensures |rest| <= |r| <= 2 * |rest|
    decreases |rest|
  {
    if rest == [] then []
    else (if Geminates(prev, rest) then [Sokuon] else []) + [rest[0]] + SokuonAfter(rest[0], rest[1..])
  }

  /** The tokens after `_insert_sokuon`: the first token is emitted as is, then the scan. */
  function WithSokuon(p: seq<string>): (r: seq<string>)
    ensures p == [] ==> r == []
    ensures |p| <= |r|
    ensures p != [] ==> |r| <= 2 * |p| - 1 && r[0] == p[0]
  {
    if p == [] then [] else [p[0]] + SokuonAfter(p[0], p[1..])
  }

  /** The stage only inserts markers: removing all "ッ" gives what removing them from the input gives. */
  lemma {:induction false} SokuonAfterOnlyInserts(prev: string, rest: seq<string>)
    ensures Without(SokuonAfter(prev, rest), {Sokuon}) == Without(rest, {Sokuon})
    decreases |rest|
  {
    if rest != [] {
      var m := if Geminates(prev, rest) then [Sokuon] else [];
      SokuonAfterOnlyInserts(rest[0], rest[1..]);
      WithoutAppend(m + [rest[0]], SokuonAfter(rest[0], rest[1..]), {Sokuon});
      WithoutAppend(m, [rest[0]], {Sokuon});
      WithoutAppend([rest[0]], rest[1..], {Sokuon});
      assert rest == [rest[0]] + rest[1..];
    }
  }

  /** Deleting the inserted markers gives back the input, when it had none of its own. */
  lemma WithSokuonOnlyInserts(p: seq<string>)
    ensures Without(WithSokuon(p), {Sokuon}) == Without(p, {Sokuon})
    ensures Sokuon !in p ==> Without(WithSokuon(p), {Sokuon}) == p
  {
    if p != [] {
      var rest := SokuonAfter(p[0], p[1..]);
      calc {
        Without(WithSokuon(p), {Sokuon});
        Without([p[0]] + rest, {Sokuon});
        { WithoutAppend([p[0]], rest, {Sokuon}); }
        Without([p[0]], {Sokuon}) + Without(rest, {Sokuon});
        { SokuonAfterOnlyInserts(p[0], p[1..]); }
        Without([p[0]], {Sokuon}) + Without(p[1..], {Sokuon});
        { WithoutAppend([p[0]], p[1..], {Sokuon}); }
        Without([p[0]] + p[1..], {Sokuon});
        { assert [p[0]] + p[1..] == p; }
        Without(p, {Sokuon});
      }
    }
    if Sokuon !in p {
      WithoutAbsent(p, {Sokuon});
    }
  }

  /** No cascading: the token after a marker starts a cluster, so it is no vowel core. */
  lemma NoCascade(prev: string, rest: seq<string>)
    requires rest != [] && Geminates(prev, rest)
    ensures !Geminates(rest[0], rest[1..])
  {
    ClusterFromCases(rest);
  }

  /** The marker is never a trigger: a token list that starts with it starts no cluster. */
  lemma MarkerStartsNoCluster(q: seq<string>)
    requires q != [] && q[0] == Sokuon
    ensures !ClusterFrom(q, 0)
  {
    ClusterFromCases(q);
  }

  /** A second pass over a marker and the token it precedes inserts nothing before either. */
  lemma SecondPassMarked(prev: string, x: string, tail: seq<string>)
    ensures SokuonAfter(prev, [Sokuon, x] + tail) == [Sokuon, x] + SokuonAfter(x, tail)
  {
    var q := [Sokuon, x] + tail;
    MarkerStartsNoCluster(q);
    assert q[1..] == [x] + tail;
    assert ([x] + tail)[1..] == tail;
  }

  /** The scan's output starts with the marker when the head geminates, else with the head. */
  lemma SokuonAfterHead(prev: string, rest: seq<string>)
    requires rest != []
    ensures SokuonAfter(prev, rest) != []
    ensures SokuonAfter(prev, rest)[0] == if Geminates(prev, rest) then Sokuon else rest[0]
  {
  }

  /**
   * A second pass does not mark a token the first pass left unmarked: the token after it in
   * the first output is either its own successor or a marker, and neither completes a cluster.
   */
  lemma SecondPassUnmarked(prev: string, rest: seq<string>)
    requires rest != [] && !Geminates(prev, rest)
    ensures var q := [rest[0]] + SokuonAfter(rest[0], rest[1..]);
            SokuonAfter(prev, q) == [rest[0]] + SokuonAfter(rest[0], SokuonAfter(rest[0], rest[1..]))
  {
    var tail := SokuonAfter(rest[0], rest[1..]);
    var q := [rest[0]] + tail;
    ClusterFromCases(rest);
    ClusterFromCases(q);
    if |rest| >= 2 {
      SokuonAfterHead(rest[0], rest[1..]);
      assert rest[1..][0] == rest[1];
    }
    assert !Geminates(prev, q);
    assert q[1..] == tail;
  }

  /** The first pass over a non-empty `rest`: the marker if its head geminates, the head, the rest. */
  lemma SokuonAfterUnfold(prev: string, rest: seq<string>)
    requires rest != []
    ensures Geminates(prev, rest) ==> SokuonAfter(prev, rest) == [Sokuon, rest[0]] + SokuonAfter(rest[0], rest[1..])
    ensures !Geminates(prev, rest) ==> SokuonAfter(prev, rest) == [rest[0]] + SokuonAfter(rest[0], rest[1..])
  {
    var tail := SokuonAfter(rest[0], rest[1..]);
    if Geminates(prev, rest) {
      assert [Sokuon] + [rest[0]] == [Sokuon, rest[0]];
    } else {
      var none: seq<string> := [];
      assert none + [rest[0]] == [rest[0]];
    }
  }

  /** Where no token can start a geminate-triggering cluster, the scan inserts no marker. */
  lemma {:induction false} SokuonAfterNoCluster(prev: string, rest: seq<string>)
    requires forall k :: 0 <= k < |rest| ==> rest[k] !in {"CH", "SH", "JH", "ZH", "T"}
    ensures SokuonAfter(prev, rest) == rest
    decreases |rest|
  {
    if rest != [] {
      ClusterFromCases(rest);
      SokuonAfterUnfold(prev, rest);
      SokuonAfterNoCluster(rest[0], rest[1..]);
    }
  }

  /** No token after the first can start a geminate-triggering cluster: the tokens are unchanged. */
  lemma WithSokuonNoCluster(p: seq<string>)
    requires forall k :: 0 < k < |p| ==> p[k] !in {"CH", "SH", "JH", "ZH", "T"}
    ensures WithSokuon(p) == p
  {
    if p != [] {
      SokuonAfterNoCluster(p[0], p[1..]);
    }
  }

  /** After any `prev`, a second pass over the output of a first pass inserts nothing. */
  lemma {:induction false} SokuonAfterIdempotent(prev: string, rest: seq<string>)
    ensures SokuonAfter(prev, SokuonAfter(prev, rest)) == SokuonAfter(prev, rest)
    decreases |rest|
  {
    if rest != [] {
      var x, tail := rest[0], SokuonAfter(rest[0], rest[1..]);
      SokuonAfterIdempotent(x, rest[1..]);
      if Geminates(prev, rest) {
        var once := SokuonAfter(prev, rest);
        SokuonAfterUnfold(prev, rest);
        calc {
          SokuonAfter(prev, once);
          SokuonAfter(prev, [Sokuon, x] + tail);
          { SecondPassMarked(prev, x, tail); }
          [Sokuon, x] + SokuonAfter(x, tail);
          once;
        }
      } else {
        var once := SokuonAfter(prev, rest);
        SokuonAfterUnfold(prev, rest);
        calc {
          SokuonAfter(prev, once);
          { SecondPassUnmarked(prev, rest); }
          [x] + SokuonAfter(x, tail);
          once;
        }
      }
    }
  }

  /** Inserting markers twice is inserting them once. */
  lemma WithSokuonIdempotent(p: seq<string>)
    ensures WithSokuon(WithSokuon(p)) == WithSokuon(p)
  {
    if p != [] {
      SokuonAfterIdempotent(p[0], p[1..]);
      var r := WithSokuon(p);
      assert r[1..] == SokuonAfter(p[0], p[1..]);
    }
  }

  /** One step of the scan: the marker if the token at `i` geminates, then that token. */
  lemma SokuonAfterStep(p: seq<string>, i: nat)
    requires 0 < i < |p|
    ensures SokuonAfter(p[i - 1], p[i..]) ==
            (if Geminates(p[i - 1], p[i..]) then [Sokuon] else []) + [p[i]] + SokuonAfter(p[i], p[i + 1..])
  {
    assert p[i..][1..] == p[i + 1..];
  }

  /** The scan's invariant survives emitting the marker, if `marked`, and the token at `i`. */
  lemma InsertStep(p: seq<string>, i: nat, result: seq<string>, marked: bool)
    requires 0 < i < |p|
    requires marked == Geminates(p[i - 1], p[i..])
    requires result + SokuonAfter(p[i - 1], p[i..]) == WithSokuon(p)
    ensures (if marked then result + [Sokuon] else result) + [p[i]] + SokuonAfter(p[i], p[i + 1..]) == WithSokuon(p)
  {
    var m := if marked then [Sokuon] else [];
    var rest := SokuonAfter(p[i], p[i + 1..]);
    SokuonAfterStep(p, i);
    assert (if marked then result + [Sokuon] else result) == result + m;
    AppendAssoc(result, m, [p[i]]);
    AppendAssoc(result, m + [p[i]], rest);
  }

  /**
   * The inner `for L in cluster_lengths` loop of `_insert_sokuon`: whether a marker goes before
   * position `i`, the last token emitted being `last`.
   */
  method MarkBefore(phoneme: seq<string>, i: nat, last: string) returns (marked: bool)
    requires i <= |phoneme|
    ensures marked == Geminates(last, phoneme[i..])
  {
    var n := |phoneme|;
    marked := false;
    for j := 0 to |SokuonLengths|
      invariant !marked
      invariant Geminates(last, phoneme[i..]) == (last in Vowels && ClusterFrom(phoneme[i..], j))
    {
      var len := SokuonLengths[j];
      if i + len <= n {
        assert phoneme[i..][..len] == phoneme[i..i + len];
        if phoneme[i..i + len] in SokuonClusters && last in Vowels {
          marked := true;
          break;
        }
      }
    }
  }

  /** The `while i < n` loop of `_insert_sokuon`, with `result[-1]` as the previous output token. */
  method InsertSokuon(phoneme: seq<string>) returns (result: seq<string>)
    ensures result == WithSokuon(phoneme)
  {
    if phoneme == [] {
      return [];
    }
    result := [phoneme[0]];
    var i := 1;
    var n := |phoneme|;
    while i < n
      invariant 1 <= i <= n
      invariant |result| >= 1 && result[|result| - 1] == phoneme[i - 1]
      invariant result + SokuonAfter(phoneme[i - 1], phoneme[i..]) == WithSokuon(phoneme)
      decreases n - i
    {
      var marked := MarkBefore(phoneme, i, result[|result| - 1]);
      InsertStep(phoneme, i, result, marked);
      if marked {
        result := result + [Sokuon];
      }
      result := result + [phoneme[i]];
      i := i + 1;
    }
  }
}
