/**
 * Token normalisation: trim, upper-case, strip trailing stress digits, and drop tokens that
 * are blank (src/arpakana/arpabet.py:14, :18-20, :297).
 */
module Normalize {
  import opened Common

  /** ASCII whitespace as Python's `str.strip` sees it: \t \n \v \f \r, \x1c-\x1f and space. */
  predicate IsSpace(c: char)
  {
    c == ' ' || '\t' <= c <= '\r' || '\U{1C}' <= c <= '\U{1F}'
  }

  /** One of the characters of `_DIGITS`. */
  predicate IsDigit(c: char)
  {
    '0' <= c <= '9'
  }

  predicate IsLower(c: char)
  {
    'a' <= c <= 'z'
  }

  /** ASCII upper-casing of one character; every other character is left alone. */
  function UpperChar(c: char): (u: char)
    ensures !IsLower(u)
    ensures !IsLower(c) ==> u == c
    ensures IsLower(c) ==> u as int == c as int - 32
    ensures IsSpace(u) == IsSpace(c) && IsDigit(u) == IsDigit(c)
  {
    if IsLower(c) then (c as int - 32) as char else c
  }

  /** `s` without its leading whitespace. */
  function TrimLeft(s: string): (r: string)
    ensures |r| <= |s| && r == s[|s| - |r|..]
    ensures forall k :: 0 <= k < |s| - |r| ==> IsSpace(s[k])
    ensures r == [] || !IsSpace(r[0])
  {
    if s != [] && IsSpace(s[0]) then TrimLeft(s[1..]) else s
  }

  /** `s` without its trailing whitespace. */
  function TrimRight(s: string): (r: string)
    ensures |r| <= |s| && r == s[..|r|]
    ensures forall k :: |r| <= k < |s| ==> IsSpace(s[k])
    ensures r == [] || !IsSpace(r[|r| - 1])
  {
    if s != [] && IsSpace(s[|s| - 1]) then TrimRight(s[..|s| - 1]) else s
  }

  /** Python's `str.strip()` on ASCII whitespace. */
  function Strip(s: string): (r: string)
    ensures |r| <= |s|
    ensures r == [] || (!IsSpace(r[0]) && !IsSpace(r[|r| - 1]))
    ensures (forall k :: 0 <= k < |s| ==> IsSpace(s[k])) <==> r == []
  {
    TrimRight(TrimLeft(s))
  }

  /** Python's `str.upper()` on ASCII letters. */
  function Upper(s: string): (r: string)
    ensures |r| == |s|
    ensures forall k :: 0 <= k < |r| ==> !IsLower(r[k])
    ensures forall k :: 0 <= k < |s| ==> r[k] == UpperChar(s[k])
  {
    if s == [] then [] else [UpperChar(s[0])] + Upper(s[1..])
  }

  /** Python's `str.rstrip(_DIGITS)`: `s` without its trailing digits. */
  function RStripDigits(s: string): (r: string)
    ensures |r| <= |s| && r == s[..|r|]
    ensures forall k :: |r| <= k < |s| ==> IsDigit(s[k])
    ensures r == [] || !IsDigit(r[|r| - 1])
  {
    if s != [] && IsDigit(s[|s| - 1]) then RStripDigits(s[..|s| - 1]) else s
  }

  /** Trimming leaves a token alone when it does not start with whitespace. */
  lemma TrimLeftKeeps(s: string)
    requires s == [] || !IsSpace(s[0])
    ensures TrimLeft(s) == s
  {
  }

  /** Trimming leaves a token alone when it does not end with whitespace. */
  lemma TrimRightKeeps(s: string)
    requires s == [] || !IsSpace(s[|s| - 1])
    ensures TrimRight(s) == s
  {
  }

  /** Upper-casing leaves a token without lower-case letters alone. */
  lemma UpperKeeps(s: string)
    requires forall k :: 0 <= k < |s| ==> !IsLower(s[k])
    ensures Upper(s) == s
  {
  }

  /** Digit stripping leaves a token alone when it does not end with a digit. */
  lemma RStripDigitsKeeps(s: string)
    requires s == [] || !IsDigit(s[|s| - 1])
    ensures RStripDigits(s) == s
  {
  }

  /** A token in normal form: upper-case, no leading whitespace, no trailing stress digit. */
  predicate IsNormal(t: string)
  {
    (forall k :: 0 <= k < |t| ==> !IsLower(t[k])) &&
    (t == [] || (!IsSpace(t[0]) && !IsDigit(t[|t| - 1])))
  }

  /** `_normalize_phoneme`: trim, upper-case, then strip the trailing stress digits. */
  function NormalizePhoneme(token: string): (r: string)
    ensures IsNormal(r)
    ensures |r| <= |token|
  {
    RStripDigits(Upper(Strip(token)))
  }

  /**
   * Normalising a normalised token changes it exactly when the token ends in whitespace,
   * which the digits it lost had hidden (`"A 1"` normalises to `"A "`, and that to `"A"`).
   */
  lemma {:induction false} NormalizeIdempotentIff(token: string)
    ensures var r := NormalizePhoneme(token);
            NormalizePhoneme(r) == r <==> (r == [] || !IsSpace(r[|r| - 1]))
  {
    var r := NormalizePhoneme(token);
    if r == [] || !IsSpace(r[|r| - 1]) {
      TrimLeftKeeps(r);
      TrimRightKeeps(r);
      UpperKeeps(r);
      RStripDigitsKeeps(r);
    } else {
      assert |Strip(r)| < |r|;
    }
  }

  /** Tokens without whitespace (all tokens of a split string) normalise idempotently. */
  lemma {:induction false} NormalizeIdempotent(token: string)
    requires forall k :: 0 <= k < |token| ==> !IsSpace(token[k])
    ensures NormalizePhoneme(NormalizePhoneme(token)) == NormalizePhoneme(token)
  {
    var r := NormalizePhoneme(token);
    NormalizeIdempotentIff(token);
    if r != [] {
      NormalizeLast(token);
      TrimLeftKeeps(token);
      TrimRightKeeps(token);
    }
  }

  /** The last character of a normalised token is an upper-cased character of the trimmed token. */
  lemma NormalizeLast(token: string)
    requires NormalizePhoneme(token) != []
    ensures var r := NormalizePhoneme(token);
            |r| <= |Strip(token)| && r[|r| - 1] == UpperChar(Strip(token)[|r| - 1])
  {
    var r, u := NormalizePhoneme(token), Upper(Strip(token));
    assert r == RStripDigits(u);
    assert r[|r| - 1] == u[|r| - 1];
  }

  /** A letter, a space and a stress digit normalise to the letter and the space. */
  lemma NormalizeLetterSpaceDigit(c: char, d: char)
    requires 'A' <= c <= 'Z' && IsDigit(d)
    ensures NormalizePhoneme([c, ' ', d]) == [c, ' ']
  {
    var t := [c, ' ', d];
    TrimLeftKeeps(t);
    TrimRightKeeps(t);
    UpperKeeps(t);
    assert RStripDigits(t) == RStripDigits(t[..2]);
    assert t[..2] == [c, ' '];
    RStripDigitsKeeps([c, ' ']);
  }

  /** A letter and a trailing space normalise to the letter. */
  lemma NormalizeLetterSpace(c: char)
    requires 'A' <= c <= 'Z'
    ensures NormalizePhoneme([c, ' ']) == [c]
  {
    var u := [c, ' '];
    TrimLeftKeeps(u);
    assert TrimRight(u) == TrimRight(u[..1]);
    assert u[..1] == [c];
    TrimRightKeeps([c]);
    UpperKeeps([c]);
    RStripDigitsKeeps([c]);
  }

  /**
   * A whitespace inside a token can end up last once the digits after it are stripped: for
   * instance `"A 1"` normalises to `"A "`, and that to `"A"`.
   */
  lemma NormalizeNotAlwaysIdempotent(c: char, d: char)
    requires 'A' <= c <= 'Z' && IsDigit(d)
    ensures NormalizePhoneme([c, ' ', d]) == [c, ' ']
    ensures NormalizePhoneme(NormalizePhoneme([c, ' ', d])) == [c]
  {
    NormalizeLetterSpaceDigit(c, d);
    NormalizeLetterSpace(c);
  }

  /** What one raw token contributes: nothing when it is blank, else its normal form. */
  function NormalizeOne(token: string): (r: seq<string>)
    ensures |r| <= 1
  {
    if Strip(token) == [] then [] else [NormalizePhoneme(token)]
  }

  /** The token list after `[_normalize_phoneme(t) for t in tokens if t.strip()]`. */
  function NormalizeTokens(tokens: seq<string>): (r: seq<string>)
    ensures |r| <= |tokens|
  {
    if tokens == [] then [] else NormalizeOne(tokens[0]) + NormalizeTokens(tokens[1..])
  }

  /** Every surviving token is in normal form. */
  lemma {:induction false} NormalizeTokensNormal(tokens: seq<string>)
    ensures forall k :: 0 <= k < |NormalizeTokens(tokens)| ==> IsNormal(NormalizeTokens(tokens)[k])
  {
    if tokens != [] {
      var head, rest := NormalizeOne(tokens[0]), NormalizeTokens(tokens[1..]);
      NormalizeTokensNormal(tokens[1..]);
      assert NormalizeTokens(tokens) == head + rest;
      assert forall k :: 0 <= k < |head| ==> IsNormal(head[k]);
    }
  }

  /** Only blank tokens are dropped: one output token per token that is not blank. */
  lemma {:induction false} NormalizeTokensCount(tokens: seq<string>)
    ensures |NormalizeTokens(tokens)| == |tokens| - Blanks(tokens)
  {
    if tokens != [] {
      NormalizeTokensCount(tokens[1..]);
    }
  }

  /** A token without whitespace or lower-case letters is kept, only its stress digits stripped. */
  lemma NormalizeCleanToken(token: string)
    requires token != []
    requires forall k :: 0 <= k < |token| ==> !IsSpace(token[k]) && !IsLower(token[k])
    ensures NormalizeOne(token) == [RStripDigits(token)]
  {
    TrimLeftKeeps(token);
    TrimRightKeeps(token);
    UpperKeeps(token);
  }

  /** An upper-case ARPAbet symbol followed by stress digits normalises to the symbol alone. */
  lemma NormalizeSymbolToken(token: string, n: nat)
    requires 0 < n <= |token|
    requires forall k :: 0 <= k < n ==> 'A' <= token[k] <= 'Z'
    requires forall k :: n <= k < |token| ==> IsDigit(token[k])
    ensures NormalizeOne(token) == [token[..n]]
  {
    NormalizeCleanToken(token);
    var r := RStripDigits(token);
    assert |r| == n by {
      assert !IsDigit(token[n - 1]);
      assert r != [] ==> r[|r| - 1] == token[|r| - 1];
    }
  }

  /** Tokens that each normalise to one token give the list of those tokens. */
  lemma {:induction false} NormalizeTokensPointwise(tokens: seq<string>, out: seq<string>)
    requires |tokens| == |out|
    requires forall i :: 0 <= i < |tokens| ==> NormalizeOne(tokens[i]) == [out[i]]
    ensures NormalizeTokens(tokens) == out
  {
    if tokens != [] {
      NormalizeTokensPointwise(tokens[1..], out[1..]);
      assert out == [out[0]] + out[1..];
    }
  }

  /** A list of upper-case ARPAbet symbols without stress digits is already normalised. */
  lemma NormalizeSymbols(tokens: seq<string>)
    requires forall i :: 0 <= i < |tokens| ==> tokens[i] != []
    requires forall i, k :: 0 <= i < |tokens| && 0 <= k < |tokens[i]| ==> 'A' <= tokens[i][k] <= 'Z'
    ensures NormalizeTokens(tokens) == tokens
  {
    forall i | 0 <= i < |tokens|
      ensures NormalizeOne(tokens[i]) == [tokens[i]]
    {
      NormalizeSymbolToken(tokens[i], |tokens[i]|);
      assert tokens[i][..|tokens[i]|] == tokens[i];
    }
    NormalizeTokensPointwise(tokens, tokens);
  }

  /** Each token an upper-case symbol followed by stress digits: the tokens normalise to the bare symbols. */
  lemma NormalizeStressed(tokens: seq<string>, symbols: seq<string>, stress: seq<string>)
    requires |tokens| == |symbols| == |stress|
    requires forall i :: 0 <= i < |tokens| ==> tokens[i] == symbols[i] + stress[i]
    requires forall i :: 0 <= i < |symbols| ==> symbols[i] != []
    requires forall i, k :: 0 <= i < |symbols| && 0 <= k < |symbols[i]| ==> 'A' <= symbols[i][k] <= 'Z'
    requires forall i, k :: 0 <= i < |stress| && 0 <= k < |stress[i]| ==> IsDigit(stress[i][k])
    ensures NormalizeTokens(tokens) == symbols
  {
    forall i | 0 <= i < |tokens|
      ensures NormalizeOne(tokens[i]) == [symbols[i]]
    {
      NormalizeSymbolToken(tokens[i], |symbols[i]|);
      assert tokens[i][..|symbols[i]|] == symbols[i];
    }
    NormalizeTokensPointwise(tokens, symbols);
  }

  /**
   * The blank test runs before normalisation, so a token of stress digits only survives it
   * and normalises to the empty string.
   */
  lemma DigitOnlyToken(d: char)
    requires IsDigit(d)
    ensures NormalizeTokens([[d]]) == [""]
  {
    NormalizeCleanToken([d]);
    assert RStripDigits([d]) == "";
    assert [[d]][1..] == [];
  }

  /** The number of tokens that are empty after trimming. */
  function Blanks(tokens: seq<string>): (n: nat)
    ensures n <= |tokens|
  {
    if tokens == [] then 0 else (if Strip(tokens[0]) == [] then 1 else 0) + Blanks(tokens[1..])
  }

  /** Input made of blank tokens only (or of none) normalises to nothing. */
  lemma {:induction false} NormalizeBlank(tokens: seq<string>)
    requires forall k :: 0 <= k < |tokens| ==> Strip(tokens[k]) == []
    ensures NormalizeTokens(tokens) == []
  {
    if tokens != [] {
      NormalizeBlank(tokens[1..]);
    }
  }

  /** Normalisation distributes over concatenation: each token is normalised on its own. */
  lemma {:induction false} NormalizeTokensAppend(a: seq<string>, b: seq<string>)
    ensures NormalizeTokens(a + b) == NormalizeTokens(a) + NormalizeTokens(b)
  {
    if a == [] {
      assert a + b == b;
    } else {
      assert (a + b)[0] == a[0] && (a + b)[1..] == a[1..] + b;
      var head := NormalizeOne(a[0]);
      assert NormalizeTokens(a + b) == head + NormalizeTokens(a[1..] + b);
      NormalizeTokensAppend(a[1..], b);
      AppendAssoc(head, NormalizeTokens(a[1..]), NormalizeTokens(b));
    }
  }
}
