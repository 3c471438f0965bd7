/**
 * The longest-match rewriter shared by three stages of the converter: scanning left to right,
 * at each position try the key lengths longest first, replace the first key found in the
 * table and skip past it, or copy one token when no key matches
 * (src/arpakana/arpabet.py:192-211, :235-274).
 */
module LongestMatch {
  import opened Common

  /** A rule table: the tokens a key is rewritten to, or `None` when the key is absent. */
  type Rules = seq<string> -> Option<seq<string>>

  /** Key lengths in the order they are tried: strictly decreasing. */
  predicate Descending(lengths: seq<nat>)
  {
    forall j, k :: 0 <= j < k < |lengths| ==> lengths[j] > lengths[k]
  }

  /** Every length tried consumes at least one token. */
  predicate Positive(lengths: seq<nat>)
  {
    forall j :: 0 <= j < |lengths| ==> lengths[j] > 0
  }

  /** Every key of the table has one of the lengths tried. */
  ghost predicate Covers(rules: Rules, lengths: seq<nat>)
  {
    forall key :: rules(key).Some? ==> |key| in lengths
  }

  /** Every replacement is no longer than the key it replaces. */
  ghost predicate Shrinking(rules: Rules)
  {
    forall key :: rules(key).Some? ==> |rules(key).value| <= |key|
  }

  /** A key found at the head of the tokens: the position of its length in the list tried, and its replacement. */
  datatype Hit = Hit(index: nat, replacement: seq<string>)

  /** The key of length `len` at the head of `tokens` fits and is in the table. */
  predicate KeyAt(rules: Rules, tokens: seq<string>, len: nat)
  {
    len <= |tokens| && rules(tokens[..len]).Some?
  }

  /** The first length, from position `from` of `lengths` on, whose key is at the head of `tokens`. */
  function FirstHit(rules: Rules, lengths: seq<nat>, tokens: seq<string>, from: nat): (h: Option<Hit>)
    requires from <= |lengths|
    ensures h.Some? ==> from <= h.value.index < |lengths| && KeyAt(rules, tokens, lengths[h.value.index])
    ensures h.Some? ==> rules(tokens[..lengths[h.value.index]]) == Some(h.value.replacement)
    ensures h.Some? ==> forall k :: from <= k < h.value.index ==> !KeyAt(rules, tokens, lengths[k])
    ensures h.None? ==> forall k :: from <= k < |lengths| ==> !KeyAt(rules, tokens, lengths[k])
    decreases |lengths| - from
  {
    if from == |lengths| then None
    else if KeyAt(rules, tokens, lengths[from]) then Some(Hit(from, rules(tokens[..lengths[from]]).value))
    else FirstHit(rules, lengths, tokens, from + 1)
  }

  /** The whole rewrite, one hit or one copied token at a time. */
  function Rewrite(rules: Rules, lengths: seq<nat>, tokens: seq<string>): seq<string>
    requires Positive(lengths)
    decreases |tokens|
  {
    if tokens == [] then []
    else
      match FirstHit(rules, lengths, tokens, 0)
      case Some(h) => h.replacement + Rewrite(rules, lengths, tokens[lengths[h.index]..])
      case None => [tokens[0]] + Rewrite(rules, lengths, tokens[1..])
  }

  /**
   * When a key of length `len` matches at the head and no longer key of the table does,
   * that key is the one replaced.
   */
  lemma RewriteLongestHit(rules: Rules, lengths: seq<nat>, tokens: seq<string>, len: nat)
    requires Descending(lengths) && Positive(lengths) && Covers(rules, lengths)
    requires KeyAt(rules, tokens, len)
    requires forall longer :: len < longer <= |tokens| ==> rules(tokens[..longer]).None?
    ensures len > 0
    ensures Rewrite(rules, lengths, tokens) ==
            rules(tokens[..len]).value + Rewrite(rules, lengths, tokens[len..])
  {
    assert |tokens[..len]| in lengths;
    var k :| 0 <= k < |lengths| && lengths[k] == len;
    var h := FirstHit(rules, lengths, tokens, 0);
    assert h.Some?;
    assert h.value.index == k;
  }

  /** When no key matches at the head, the head token is copied unchanged. */
  lemma RewriteCopiesUnmatched(rules: Rules, lengths: seq<nat>, tokens: seq<string>)
    requires Positive(lengths)
    requires tokens != []
    requires forall len :: 0 <= len <= |tokens| ==> rules(tokens[..len]).None?
    ensures Rewrite(rules, lengths, tokens) == [tokens[0]] + Rewrite(rules, lengths, tokens[1..])
  {
    assert FirstHit(rules, lengths, tokens, 0).None?;
  }

  /**
   * The hit at the head is the longest key of the whole table that matches there, not only
   * the longest among the lengths tried.
   */
  lemma FirstHitIsLongest(rules: Rules, lengths: seq<nat>, tokens: seq<string>)
    requires Descending(lengths) && Covers(rules, lengths)
    requires FirstHit(rules, lengths, tokens, 0).Some?
    ensures forall len :: lengths[FirstHit(rules, lengths, tokens, 0).value.index] < len <= |tokens| ==>
              rules(tokens[..len]).None?
  {
    var h := FirstHit(rules, lengths, tokens, 0).value;
    forall len | lengths[h.index] < len <= |tokens|
      ensures rules(tokens[..len]).None?
    {
      if rules(tokens[..len]).Some? {
        assert |tokens[..len]| in lengths;
        var k :| 0 <= k < |lengths| && lengths[k] == len;
        assert KeyAt(rules, tokens, lengths[k]);
      }
    }
  }

  /** A rewrite whose replacements are never longer than their keys never lengthens the tokens. */
  lemma {:induction false} RewriteLength(rules: Rules, lengths: seq<nat>, tokens: seq<string>)
    requires Positive(lengths) && Shrinking(rules)
    ensures |Rewrite(rules, lengths, tokens)| <= |tokens|
    decreases |tokens|
  {
    if tokens != [] {
      match FirstHit(rules, lengths, tokens, 0)
      case Some(h) =>
        assert |h.replacement| <= |tokens[..lengths[h.index]]|;
        RewriteLength(rules, lengths, tokens[lengths[h.index]..]);
      case None =>
        RewriteLength(rules, lengths, tokens[1..]);
    }
  }

  /** No key of the table occurs anywhere in `tokens`. */
  ghost predicate NoKeyIn(rules: Rules, tokens: seq<string>)
  {
    forall i, j :: 0 <= i <= j <= |tokens| ==> rules(tokens[i..j]).None?
  }

  /** Tokens in which no key of the table occurs come out unchanged. */
  lemma {:induction false} RewriteNoKey(rules: Rules, lengths: seq<nat>, tokens: seq<string>)
    requires Positive(lengths)
    requires NoKeyIn(rules, tokens)
    ensures Rewrite(rules, lengths, tokens) == tokens
    decreases |tokens|
  {
    if tokens != [] {
      forall len | 0 <= len <= |tokens|
        ensures rules(tokens[..len]).None?
      {
        assert tokens[..len] == tokens[0..len];
      }
      assert FirstHit(rules, lengths, tokens, 0).None?;
      forall i, j | 0 <= i <= j <= |tokens[1..]|
        ensures rules(tokens[1..][i..j]).None?
      {
        assert tokens[1..][i..j] == tokens[i + 1..j + 1];
      }
      RewriteNoKey(rules, lengths, tokens[1..]);
    }
  }

  /**
   * Every output token is an input token or part of some replacement in `produced`.
   */
  lemma {:induction false} RewriteTokens(rules: Rules, lengths: seq<nat>, tokens: seq<string>, produced: set<string>)
    requires Positive(lengths)
    requires forall key :: rules(key).Some? ==> forall x :: x in rules(key).value ==> x in produced
    ensures forall x :: x in Rewrite(rules, lengths, tokens) ==> x in tokens || x in produced
    decreases |tokens|
  {
    if tokens != [] {
      match FirstHit(rules, lengths, tokens, 0)
      case Some(h) =>
        RewriteTokens(rules, lengths, tokens[lengths[h.index]..], produced);
        assert forall x :: x in tokens[lengths[h.index]..] ==> x in tokens;
      case None =>
        RewriteTokens(rules, lengths, tokens[1..], produced);
        assert forall x :: x in tokens[1..] ==> x in tokens;
    }
  }

  /**
   * When no replacement is empty, the rewrite of a non-empty list starts with its head token
   * copied (no key matched there) or with the first token of some replacement.
   */
  lemma RewriteHead(rules: Rules, lengths: seq<nat>, tokens: seq<string>)
    requires Positive(lengths) && tokens != []
    requires forall key :: rules(key).Some? ==> rules(key).value != []
    ensures Rewrite(rules, lengths, tokens) != []
    ensures var r := Rewrite(rules, lengths, tokens);
            (FirstHit(rules, lengths, tokens, 0).None? && r[0] == tokens[0]) ||
            (exists key :: rules(key).Some? && r[0] == rules(key).value[0])
  {
    match FirstHit(rules, lengths, tokens, 0)
    case Some(h) =>
      var key := tokens[..lengths[h.index]];
      assert rules(key).Some? && Rewrite(rules, lengths, tokens)[0] == rules(key).value[0];
    case None =>
  }

  /** One step of the scan that replaces the first key found at `i`, `h`, and skips past it. */
  lemma RewriteStep(rules: Rules, lengths: seq<nat>, tokens: seq<string>, i: nat, h: Hit)
    requires Positive(lengths)
    requires i < |tokens| && FirstHit(rules, lengths, tokens[i..], 0) == Some(h)
    ensures i + lengths[h.index] <= |tokens|
    ensures Rewrite(rules, lengths, tokens[i..]) == h.replacement + Rewrite(rules, lengths, tokens[i + lengths[h.index]..])
  {
    assert tokens[i..][lengths[h.index]..] == tokens[i + lengths[h.index]..];
  }

  /** One step of the scan that copies the token at `i`, no key matching there. */
  lemma RewriteStepCopy(rules: Rules, lengths: seq<nat>, tokens: seq<string>, i: nat)
    requires Positive(lengths)
    requires i < |tokens|
    requires FirstHit(rules, lengths, tokens[i..], 0).None?
    ensures Rewrite(rules, lengths, tokens[i..]) == [tokens[i]] + Rewrite(rules, lengths, tokens[i + 1..])
  {
    assert tokens[i..][1..] == tokens[i + 1..];
  }

  /** The scan has consumed `tokens[..i]` and emitted `out`: what is left rewrites to the rest. */
  ghost predicate Scanned(rules: Rules, lengths: seq<nat>, tokens: seq<string>, out: seq<string>, i: nat)
    requires Positive(lengths)
  {
    i <= |tokens| && out + Rewrite(rules, lengths, tokens[i..]) == Rewrite(rules, lengths, tokens)
  }

  /** A step of the scan that finds the key `h` at `i` keeps it on track. */
  lemma ScanHit(rules: Rules, lengths: seq<nat>, tokens: seq<string>, out: seq<string>, i: nat, h: Hit)
    requires Positive(lengths) && i < |tokens|
    requires FirstHit(rules, lengths, tokens[i..], 0) == Some(h)
    requires Scanned(rules, lengths, tokens, out, i)
    ensures Scanned(rules, lengths, tokens, out + h.replacement, i + lengths[h.index])
  {
    RewriteStep(rules, lengths, tokens, i, h);
    var rest := Rewrite(rules, lengths, tokens[i + lengths[h.index]..]);
    AppendAssoc(out, h.replacement, rest);
    assert (out + h.replacement) + rest == Rewrite(rules, lengths, tokens);
  }

  /** A step of the scan that finds no key at `i` and copies its token keeps it on track. */
  lemma ScanCopy(rules: Rules, lengths: seq<nat>, tokens: seq<string>, out: seq<string>, i: nat)
    requires Positive(lengths) && i < |tokens|
    requires FirstHit(rules, lengths, tokens[i..], 0).None?
    requires Scanned(rules, lengths, tokens, out, i)
    ensures Scanned(rules, lengths, tokens, out + [tokens[i]], i + 1)
  {
    RewriteStepCopy(rules, lengths, tokens, i);
    var rest := Rewrite(rules, lengths, tokens[i + 1..]);
    AppendAssoc(out, [tokens[i]], rest);
    assert (out + [tokens[i]]) + rest == Rewrite(rules, lengths, tokens);
  }

  /** One step of the scan keeps it on track, whether it finds a key at `i` or not. */
  lemma ScanStep(rules: Rules, lengths: seq<nat>, tokens: seq<string>, out: seq<string>, i: nat, hit: Option<Hit>)
    requires Positive(lengths) && i < |tokens|
    requires hit == FirstHit(rules, lengths, tokens[i..], 0)
    requires Scanned(rules, lengths, tokens, out, i)
    ensures hit.Some? ==> Scanned(rules, lengths, tokens, out + hit.value.replacement, i + lengths[hit.value.index])
    ensures hit.None? ==> Scanned(rules, lengths, tokens, out + [tokens[i]], i + 1)
  {
    if hit.Some? {
      ScanHit(rules, lengths, tokens, out, i, hit.value);
    } else {
      ScanCopy(rules, lengths, tokens, out, i);
    }
  }

  /**
   * The inner `for L in lengths` loop: the lengths tried longest first at position `i`, stopping
   * at the first key found. It computes `FirstHit` on the tokens from `i` on.
   */
  method MatchAt(rules: Rules, lengths: seq<nat>, tokens: seq<string>, i: nat) returns (hit: Option<Hit>)
    requires i <= |tokens|
    ensures hit == FirstHit(rules, lengths, tokens[i..], 0)
  {
    var j := 0;
    while j < |lengths|
      invariant 0 <= j <= |lengths|
      invariant FirstHit(rules, lengths, tokens[i..], j) == FirstHit(rules, lengths, tokens[i..], 0)
    {
      var len := lengths[j];
      if i + len <= |tokens| {
        assert tokens[i..][..len] == tokens[i..i + len];
        var kana := rules(tokens[i..i + len]);
        if kana.Some? {
          return Some(Hit(j, kana.value));
        }
      }
      j := j + 1;
    }
    return None;
  }

  /** The scanning loop: position `i` and the output so far. It computes `Rewrite`. */
  method RewriteLongestMatch(rules: Rules, lengths: seq<nat>, tokens: seq<string>) returns (out: seq<string>)
    requires Positive(lengths)
    ensures out == Rewrite(rules, lengths, tokens)
  {
    out := [];
    var i := 0;
    var n := |tokens|;
    assert tokens[i..] == tokens;
    while i < n
      invariant 0 <= i <= n
      invariant Scanned(rules, lengths, tokens, out, i)
      decreases n - i
    {
      var hit := MatchAt(rules, lengths, tokens, i);
      ScanStep(rules, lengths, tokens, out, i, hit);
      if hit.Some? {
        out := out + hit.value.replacement;
        i := i + lengths[hit.value.index];
      } else {
        out := out + [tokens[i]];
        i := i + 1;
      }
    }
    assert tokens[i..] == [];
  }
}
