/** Operations on code-point sequences and token lists shared by the
    tokenizer and the detokenizer. */
module Text {
  import opened Unicode

  /** String.join("", tokens): the tokens' code points, in order. */
  function Join(ts: seq<seq<CodePoint>>): (r: seq<CodePoint>)
    ensures forall i, x :: 0 <= i < |ts| && x in ts[i] ==> x in r
    ensures forall x :: x in r ==> exists i :: 0 <= i < |ts| && x in ts[i]
  {
    if ts == [] then []
    else
      var rest := Join(ts[1..]);
      assert forall i :: 1 <= i < |ts| ==> ts[i] == ts[1..][i - 1];
      ts[0] + rest
  }

  lemma {:induction false} JoinConcat(a: seq<seq<CodePoint>>, b: seq<seq<CodePoint>>)
    ensures Join(a + b) == Join(a) + Join(b)
  {
    if a == [] {
      assert a + b == b;
    } else {
      assert (a + b)[1..] == a[1..] + b;
      JoinConcat(a[1..], b);
    }
  }

  lemma JoinSnoc(ts: seq<seq<CodePoint>>, t: seq<CodePoint>)
    ensures Join(ts + [t]) == Join(ts) + t
  {
    JoinConcat(ts, [t]);
    assert Join([t]) == t + Join([]);
  }

  /** A run of n half-spaces. */
  function Spaces(n: nat): (r: seq<CodePoint>)
    ensures |r| == n
    ensures forall i :: 0 <= i < n ==> r[i] == Space
  {
    if n == 0 then [] else [Space] + Spaces(n - 1)
  }

  lemma SpacesAdd(a: nat, b: nat)
    ensures Spaces(a) + Spaces(b) == Spaces(a + b)
  {
  }

  /** The code points of s that are not U+0020, in order. */
  function NonSpace(s: seq<CodePoint>): (r: seq<CodePoint>)
    ensures Space !in r
    ensures |r| <= |s|
  {
    if s == [] then []
    else if s[0] == Space then NonSpace(s[1..])
    else [s[0]] + NonSpace(s[1..])
  }

  lemma {:induction false} NonSpaceConcat(a: seq<CodePoint>, b: seq<CodePoint>)
    ensures NonSpace(a + b) == NonSpace(a) + NonSpace(b)
  {
    if a == [] {
      assert a + b == b;
    } else {
      assert (a + b)[0] == a[0];
      assert (a + b)[1..] == a[1..] + b;
      NonSpaceConcat(a[1..], b);
    }
  }

  /** A trailing half-space adds nothing to the non-space projection. */
  lemma NonSpaceSealed(t: seq<CodePoint>)
    ensures NonSpace(t + [Space]) == NonSpace(t)
  {
    NonSpaceConcat(t, [Space]);
    assert NonSpace([Space]) == NonSpace([]);
    assert NonSpace(t) + [] == NonSpace(t);
  }

  /** Concatenation is associative; stated once so that proofs can cite it
      instead of rediscovering it element by element. */
  lemma ConcatAssoc<T>(a: seq<T>, b: seq<T>, c: seq<T>)
    ensures a + (b + c) == (a + b) + c
  {
  }

  function Last<T>(s: seq<T>): T
    requires |s| > 0
  {
    s[|s| - 1]
  }
}
