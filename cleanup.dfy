/**
 * The two clean-up stages: every token that is not katakana becomes the placeholder, then each
 * run of long marks collapses to its first mark (src/arpakana/arpabet.py:16, :276-292).
 */
module Cleanup {
  import opened Common
  import opened Tables

  /**
   * `_KANA_RE.match(p)`: one or more characters of U+30A0 to U+30FF filling the token. The
   * pattern's `$` also matches just before a final newline, so such a run followed by "\n" matches too.
   */
  predicate IsKana(p: string)
  {
    KanaRun(p) || (|p| >= 2 && p[|p| - 1] == '\n' && KanaRun(p[..|p| - 1]))
  }

  /** The tokens after `_convert_unknown_token`. */
  function UnknownConverted(phoneme: seq<string>, unknown: string): (r: seq<string>)
    ensures |r| == |phoneme|
    ensures forall k :: 0 <= k < |r| ==> r[k] == (if IsKana(phoneme[k]) then phoneme[k] else unknown)
  {
    if phoneme == [] then []
    else [if IsKana(phoneme[0]) then phoneme[0] else unknown] + UnknownConverted(phoneme[1..], unknown)
  }

  /** Every token that comes out is katakana or the placeholder. */
  lemma UnknownConvertedTokens(phoneme: seq<string>, unknown: string)
    ensures forall k :: 0 <= k < |phoneme| ==>
              IsKana(UnknownConverted(phoneme, unknown)[k]) || UnknownConverted(phoneme, unknown)[k] == unknown
  {
  }

  /** Katakana tokens are all kept. */
  lemma UnknownConvertedKana(phoneme: seq<string>, unknown: string)
    requires forall k :: 0 <= k < |phoneme| ==> IsKana(phoneme[k])
    ensures UnknownConverted(phoneme, unknown) == phoneme
  {
  }

  /** Replacing unknown tokens twice is replacing them once, whatever the placeholder. */
  lemma {:induction false} UnknownConvertedIdempotent(phoneme: seq<string>, unknown: string)
    ensures UnknownConverted(UnknownConverted(phoneme, unknown), unknown) == UnknownConverted(phoneme, unknown)
  {
    var r := UnknownConverted(phoneme, unknown);
    var rr := UnknownConverted(r, unknown);
    assert forall k :: 0 <= k < |rr| ==> rr[k] == r[k];
  }

  /** An ASCII token becomes the placeholder: "XYZ" with "*" gives "*". */
  lemma UnknownTokenReplaced()
    ensures UnknownConverted(["XYZ"], "*") == ["*"]
  {
    assert "XYZ"[0] == 'X';
  }

  /** Katakana followed by a newline is kept, because of how `$` matches. */
  lemma TrailingNewlineKept()
    ensures UnknownConverted(["ア\n", "A"], "?") == ["ア\n", "?"]
  {
    assert IsKana("ア\n") by {
      assert "ア\n"[..1] == "ア";
    }
    assert "A"[0] == 'A';
  }

  /** Whether `_delete_continuous_long_marks` keeps token `i`: not when it is a "ー" right after another. */
  predicate Kept(phoneme: seq<string>, i: nat)
    requires i < |phoneme|
  {
    !(phoneme[i] == LongMark && i > 0 && phoneme[i - 1] == LongMark)
  }

  /** No two "ー" next to each other. */
  predicate NoDoubleLongMark(s: seq<string>)
  {
    forall k :: 0 < k < |s| && s[k] == LongMark ==> s[k - 1] != LongMark
  }

  /** The output for the first `n` tokens; it always ends with the last of them. */
  function CollapsedPrefix(phoneme: seq<string>, n: nat): (r: seq<string>)
    requires n <= |phoneme|
    ensures |r| <= n
    ensures forall x :: x in r ==> x in phoneme
    ensures n > 0 ==> r != [] && r[|r| - 1] == phoneme[n - 1]
    ensures NoDoubleLongMark(r)
  {
    if n == 0 then []
    else
      var before := CollapsedPrefix(phoneme, n - 1);
      if Kept(phoneme, n - 1) then before + [phoneme[n - 1]] else before
  }

  /** The tokens after `_delete_continuous_long_marks`. */
  function LongMarksCollapsed(phoneme: seq<string>): (r: seq<string>)
    ensures NoDoubleLongMark(r)
  {
    CollapsedPrefix(phoneme, |phoneme|)
  }

  /**
   * The two clean-up stages together leave only katakana tokens and the placeholder, with no
   * two "ー" adjacent.
   */
  lemma CleanedTokens(phoneme: seq<string>, unknown: string)
    ensures var t := LongMarksCollapsed(UnknownConverted(phoneme, unknown));
            (forall x :: x in t ==> IsKana(x) || x == unknown) && NoDoubleLongMark(t)
  {
    var w := UnknownConverted(phoneme, unknown);
    assert forall x :: x in w ==> IsKana(x) || x == unknown;
    assert forall x :: x in LongMarksCollapsed(w) ==> x in w;
  }

  /** Only "ー" tokens are removed: everything else is kept in order. */
  lemma {:induction false} CollapsedPrefixOnlyLongMarks(phoneme: seq<string>, n: nat)
    requires n <= |phoneme|
    ensures Without(CollapsedPrefix(phoneme, n), {LongMark}) == Without(phoneme[..n], {LongMark})
  {
    if n > 0 {
      var head, last := phoneme[..n - 1], phoneme[n - 1];
      assert phoneme[..n] == head + [last];
      CollapsedPrefixOnlyLongMarks(phoneme, n - 1);
      WithoutAppend(head, [last], {LongMark});
      WithoutAppend(CollapsedPrefix(phoneme, n - 1), [last], {LongMark});
    }
  }

  /** Only "ー" tokens are removed, and the output holds a "ー" exactly when the input does. */
  lemma LongMarksCollapsedOnlyLongMarks(phoneme: seq<string>)
    ensures Without(LongMarksCollapsed(phoneme), {LongMark}) == Without(phoneme, {LongMark})
    ensures LongMark in phoneme <==> LongMark in LongMarksCollapsed(phoneme)
  {
    CollapsedPrefixOnlyLongMarks(phoneme, |phoneme|);
    assert phoneme[..|phoneme|] == phoneme;
    if LongMark in phoneme {
      var i :| 0 <= i < |phoneme| && phoneme[i] == LongMark;
      CollapsedKeepsRunHead(phoneme, i);
    }
  }

  /** An input holding a "ー" gives an output holding one; `CollapsedRun` says where: each run keeps one mark. */
  lemma CollapsedKeepsRunHead(phoneme: seq<string>, i: nat)
    requires i < |phoneme| && phoneme[i] == LongMark
    ensures LongMark in LongMarksCollapsed(phoneme)
    decreases i
  {
    if Kept(phoneme, i) {
      CollapsedPrefixContains(phoneme, i + 1, |phoneme|);
    } else {
      CollapsedKeepsRunHead(phoneme, i - 1);
    }
  }

  /** Once a prefix's output holds a mark, every longer prefix's output holds it too. */
  lemma {:induction false} CollapsedPrefixContains(phoneme: seq<string>, m: nat, n: nat)
    requires 0 < m <= n <= |phoneme|
    requires phoneme[m - 1] == LongMark
    ensures LongMark in CollapsedPrefix(phoneme, n)
    decreases n - m
  {
    if m < n {
      CollapsedPrefixContains(phoneme, m, n - 1);
    }
  }

  /** The output for a prefix depends only on the tokens of that prefix. */
  lemma {:induction false} CollapsedPrefixLocal(p: seq<string>, q: seq<string>, n: nat)
    requires n <= |p| && n <= |q| && p[..n] == q[..n]
    ensures CollapsedPrefix(p, n) == CollapsedPrefix(q, n)
  {
    if n > 0 {
      assert p[..n - 1] == p[..n][..n - 1] == q[..n][..n - 1] == q[..n - 1];
      CollapsedPrefixLocal(p, q, n - 1);
      assert p[n - 1] == p[..n][n - 1] == q[..n][n - 1] == q[n - 1];
      if n > 1 {
        assert p[n - 2] == p[..n][n - 2] == q[..n][n - 2] == q[n - 2];
      }
    }
  }

  /** No run of marks spans the join of `a` and `b`. */
  predicate SeparateRuns(a: seq<string>, b: seq<string>)
  {
    a == [] || b == [] || a[|a| - 1] != LongMark || b[0] != LongMark
  }

  /** The output for `a + b[..m]`, when no run spans the join, is `a`'s output then `b[..m]`'s. */
  lemma {:induction false} CollapsedPrefixAppend(a: seq<string>, b: seq<string>, m: nat)
    requires m <= |b| && SeparateRuns(a, b)
    ensures CollapsedPrefix(a + b, |a| + m) == LongMarksCollapsed(a) + CollapsedPrefix(b, m)
  {
    if m == 0 {
      assert (a + b)[..|a|] == a == a[..|a|];
      CollapsedPrefixLocal(a + b, a, |a|);
    } else {
      CollapsedPrefixAppend(a, b, m - 1);
      var before := CollapsedPrefix(b, m - 1);
      assert (a + b)[|a| + m - 1] == b[m - 1];
      if m > 1 {
        assert (a + b)[|a| + m - 2] == b[m - 2];
      } else if a != [] {
        assert (a + b)[|a| - 1] == a[|a| - 1];
      }
      assert Kept(a + b, |a| + m - 1) == Kept(b, m - 1);
      if Kept(b, m - 1) {
        AppendAssoc(LongMarksCollapsed(a), before, [b[m - 1]]);
      }
    }
  }

  /** Collapsing distributes over a join that no run of marks spans. */
  lemma LongMarksCollapsedAppend(a: seq<string>, b: seq<string>)
    requires SeparateRuns(a, b)
    ensures LongMarksCollapsed(a + b) == LongMarksCollapsed(a) + LongMarksCollapsed(b)
  {
    CollapsedPrefixAppend(a, b, |b|);
  }

  /** Every prefix of a run of marks collapses to one mark. */
  lemma {:induction false} CollapsedPrefixRun(run: seq<string>, n: nat)
    requires 0 < n <= |run|
    requires forall k :: 0 <= k < |run| ==> run[k] == LongMark
    ensures CollapsedPrefix(run, n) == [LongMark]
  {
    if n > 1 {
      CollapsedPrefixRun(run, n - 1);
    }
  }

  /** A run of one or more marks collapses to exactly one. */
  lemma LongMarkRunCollapsed(run: seq<string>)
    requires run != []
    requires forall k :: 0 <= k < |run| ==> run[k] == LongMark
    ensures LongMarksCollapsed(run) == [LongMark]
  {
    CollapsedPrefixRun(run, |run|);
  }

  /** Each whole run of marks, between tokens that are not marks, keeps exactly one mark. */
  lemma CollapsedRun(a: seq<string>, run: seq<string>, b: seq<string>)
    requires run != []
    requires forall k :: 0 <= k < |run| ==> run[k] == LongMark
    requires a == [] || a[|a| - 1] != LongMark
    requires b == [] || b[0] != LongMark
    ensures LongMarksCollapsed(a + run + b) == LongMarksCollapsed(a) + [LongMark] + LongMarksCollapsed(b)
  {
    LongMarksCollapsedAppend(a, run);
    LongMarkRunCollapsed(run);
    assert (a + run)[|a + run| - 1] == LongMark;
    LongMarksCollapsedAppend(a + run, b);
  }

  /** A list without adjacent marks passes through unchanged. */
  lemma {:induction false} CollapsedPrefixNoDouble(phoneme: seq<string>, n: nat)
    requires n <= |phoneme| && NoDoubleLongMark(phoneme)
    ensures CollapsedPrefix(phoneme, n) == phoneme[..n]
  {
    if n > 0 {
      CollapsedPrefixNoDouble(phoneme, n - 1);
      assert phoneme[..n] == phoneme[..n - 1] + [phoneme[n - 1]];
    }
  }

  /** A list without adjacent marks is its own collapse. */
  lemma LongMarksCollapsedNoDouble(phoneme: seq<string>)
    requires NoDoubleLongMark(phoneme)
    ensures LongMarksCollapsed(phoneme) == phoneme
  {
    CollapsedPrefixNoDouble(phoneme, |phoneme|);
    assert phoneme[..|phoneme|] == phoneme;
  }

  /** Collapsing twice is collapsing once. */
  lemma LongMarksCollapsedIdempotent(phoneme: seq<string>)
    ensures LongMarksCollapsed(LongMarksCollapsed(phoneme)) == LongMarksCollapsed(phoneme)
  {
    LongMarksCollapsedNoDouble(LongMarksCollapsed(phoneme));
  }

  /** The `for p in phoneme` loop of `_delete_continuous_long_marks`, with its `prev_long` flag. */
  method DeleteContinuousLongMarks(phoneme: seq<string>) returns (result: seq<string>)
    ensures result == LongMarksCollapsed(phoneme)
  {
    result := [];
    var prevLong := false;
    for i := 0 to |phoneme|
      invariant prevLong == (i > 0 && phoneme[i - 1] == LongMark)
      invariant result == CollapsedPrefix(phoneme, i)
    {
      var p := phoneme[i];
      if p == LongMark {
        if prevLong {
          continue;
        }
        prevLong := true;
      } else {
        prevLong := false;
      }
      result := result + [p];
    }
  }
}
