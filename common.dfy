/** Small value types and sequence helpers shared by every stage of the pipeline. */
module Common {

  /** The result of a dictionary lookup: `None` when the key is absent. */
  datatype Option<+T> = None | Some(value: T)

  /** `s` with every token that belongs to `drop` removed, order kept. */
  function Without(s: seq<string>, drop: set<string>): (r: seq<string>)
    ensures |r| <= |s|
    ensures forall x :: x in r <==> x in s && x !in drop
  {
    if s == [] then [] else (if s[0] in drop then [] else [s[0]]) + Without(s[1..], drop)
  }

  lemma {:induction false} WithoutAppend(a: seq<string>, b: seq<string>, drop: set<string>)
    ensures Without(a + b, drop) == Without(a, drop) + Without(b, drop)
  {
    if a == [] {
      assert a + b == b;
    } else {
      assert (a + b)[1..] == a[1..] + b;
      WithoutAppend(a[1..], b, drop);
    }
  }

  /** Concatenation of token lists is associative. */
  lemma AppendAssoc(a: seq<string>, b: seq<string>, c: seq<string>)
    ensures (a + b) + c == a + (b + c)
  {
  }

  /** Removing tokens that do not occur changes nothing. */
  lemma {:induction false} WithoutAbsent(s: seq<string>, drop: set<string>)
    requires forall k :: 0 <= k < |s| ==> s[k] !in drop
    ensures Without(s, drop) == s
  {
    if s != [] {
      WithoutAbsent(s[1..], drop);
    }
  }

  /** The number of tokens of `s` that belong to `these`. */
  function Count(s: seq<string>, these: set<string>): (n: nat)
    ensures n <= |s|
    ensures n == 0 <==> forall k :: 0 <= k < |s| ==> s[k] !in these
  {
    if s == [] then 0 else (if s[0] in these then 1 else 0) + Count(s[1..], these)
  }

  /** The concatenation of all pieces, as `"".join(tokens)` computes it for strings. */
  function Concat<T>(ts: seq<seq<T>>): (r: seq<T>)
    ensures ts == [] ==> r == []
    ensures forall k :: 0 <= k < |ts| ==> |ts[k]| <= |r|
  {
    if ts == [] then [] else ts[0] + Concat(ts[1..])
  }

  /** Joining two lists of pieces is joining each and concatenating the results. */
  lemma {:induction false} ConcatAppend<T>(a: seq<seq<T>>, b: seq<seq<T>>)
    ensures Concat(a + b) == Concat(a) + Concat(b)
  {
    if a == [] {
      assert a + b == b;
    } else {
      assert (a + b)[1..] == a[1..] + b;
      ConcatAppend(a[1..], b);
    }
  }
}
