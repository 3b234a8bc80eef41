/** What detokenize promises about decapital: under a case table in which
    lower-casing a capital can be undone, detokenize restores every token
    decapital rewrote, and so undoes tokenize with deCapitalize set. */
module RevtokDecapital {
  import opened Wrappers
  import opened Unicode
  import opened Text
  import opened RevtokTokenize
  import opened RevtokDetokenize
  import opened RevtokRoundTrip

  /** The case table can undo decapital on c: upper-casing the lower-case
      form of an upper-case c gives c back, and that lower-case form is
      neither a half-space nor the marker. */
  predicate CaseRestorable(u: Tables, c: CodePoint)
  {
    u.isUpperCase(c) ==>
      u.toUpperCase(u.toLowerCase(c)) == c && u.toLowerCase(c) != Space && u.toLowerCase(c) != Cap
  }

  /** A token decapital can be undone on: not a lone half-space, and every
      code point a half-space or a restorable code point other than the
      marker. */
  predicate Restorable(u: Tables, t: seq<CodePoint>)
  {
    && t != [] && t != [Space]
    && forall x :: x in t ==> x == Space || (x != Cap && CaseRestorable(u, x))
  }

  /** What the marker/space swap of detokenize makes of a decapitalized
      token: the marker moved after the leading half-space. */
  function Marked(u: Tables, t: seq<CodePoint>): seq<CodePoint>
  {
    if Capitalized(u, Body(t)) then Lead(t) + [Cap, u.toLowerCase(Body(t)[0])] + Body(t)[1..]
    else t
  }

  lemma SwapUnfoldPair(t: seq<CodePoint>)
    ensures SwapCapSpace([Cap, Space] + t) == [Space, Cap] + SwapCapSpace(t)
  {
    assert ([Cap, Space] + t)[2..] == t;
  }

  lemma SwapUnfoldOne(x: CodePoint, t: seq<CodePoint>)
    requires t != [] && !(x == Cap && t[0] == Space)
    ensures SwapCapSpace([x] + t) == [x] + SwapCapSpace(t)
  {
    assert ([x] + t)[1..] == t;
  }

  /** One step of SwapConcat past a leading marker/space pair. */
  lemma SwapConcatPair(a2: seq<CodePoint>, b: seq<CodePoint>)
    requires SwapCapSpace(a2 + b) == SwapCapSpace(a2) + SwapCapSpace(b)
    ensures SwapCapSpace([Cap, Space] + a2 + b) == SwapCapSpace([Cap, Space] + a2) + SwapCapSpace(b)
  {
    assert [Cap, Space] + a2 + b == [Cap, Space] + (a2 + b);
    SwapUnfoldPair(a2);
    SwapUnfoldPair(a2 + b);
  }

  /** One step of SwapConcat past a code point that does not start a
      marker/space pair. */
  lemma SwapConcatOne(x: CodePoint, a1: seq<CodePoint>, b: seq<CodePoint>, t: seq<CodePoint>)
    requires a1 != [] && !(x == Cap && a1[0] == Space) && t == a1 + b
    requires SwapCapSpace(t) == SwapCapSpace(a1) + SwapCapSpace(b)
    ensures SwapCapSpace([x] + t) == SwapCapSpace([x] + a1) + SwapCapSpace(b)
  {
    assert t[0] == a1[0];
    SwapUnfoldOne(x, a1);
    SwapUnfoldOne(x, t);
    var sa, sb := SwapCapSpace(a1), SwapCapSpace(b);
    calc {
      SwapCapSpace([x] + t);
      [x] + (sa + sb);
      { ConcatAssoc([x], sa, sb); }
      ([x] + sa) + sb;
    }
  }

  lemma {:induction false} SwapConcat(a: seq<CodePoint>, b: seq<CodePoint>)
    requires a == [] || Last(a) != Cap
    ensures SwapCapSpace(a + b) == SwapCapSpace(a) + SwapCapSpace(b)
    decreases |a|
  {
    if a == [] {
      assert a + b == b;
    } else if |a| >= 2 && a[0] == Cap && a[1] == Space {
      var a2 := a[2..];
      assert a == [Cap, Space] + a2;
      assert a2 == [] || Last(a2) == Last(a);
      SwapConcat(a2, b);
      SwapConcatPair(a2, b);
    } else if |a| == 1 {
      assert a[0] != Cap;
      if b != [] {
        SwapUnfoldOne(a[0], b);
      }
    } else {
      var a1 := a[1..];
      assert a == [a[0]] + a1;
      assert a + b == [a[0]] + (a1 + b);
      assert Last(a1) == Last(a);
      SwapConcat(a1, b);
      SwapConcatOne(a[0], a1, b, a1 + b);
    }
  }

  lemma SwapMarker(lead: seq<CodePoint>, tail: seq<CodePoint>)
    requires lead == [] || lead == [Space]
    requires tail != [] && tail[0] != Space && Cap !in tail
    ensures SwapCapSpace([Cap] + lead + tail) == lead + [Cap] + tail
  {
    var s := [Cap] + lead + tail;
    SwapCapFree(tail);
    if lead == [] {
      assert s[0] == Cap && s[1] == tail[0] && s[1..] == tail;
      assert SwapCapSpace(s) == [Cap] + SwapCapSpace(tail);
    } else {
      assert s[0] == Cap && s[1] == Space && s[2..] == tail;
      assert SwapCapSpace(s) == [Space, Cap] + SwapCapSpace(tail);
    }
  }

  lemma BodyFacts(u: Tables, t: seq<CodePoint>)
    requires Restorable(u, t) && !u.isUpperCase(Space)
    ensures Cap !in t
    ensures Capitalized(u, Body(t)) ==>
              && Body(t)[0] != Space && Body(t)[0] != Cap && CaseRestorable(u, Body(t)[0])
              && Cap !in [u.toLowerCase(Body(t)[0])] + Body(t)[1..]
  {
    var body := Body(t);
    assert forall x :: x in body ==> x in t;
    if Capitalized(u, body) {
      assert body[0] in t;
      assert forall y :: y in body[1..] ==> y in body;
    }
  }

  /** The swap moves the marker of a capitalized word behind its leading
      half-space. */
  lemma SwapCapitalized(lead: seq<CodePoint>, tail: seq<CodePoint>)
    requires lead == [] || lead == [Space]
    requires tail != [] && tail[0] != Space && Cap !in tail
    ensures var d := [Cap] + lead + tail;
            Last(d) != Cap && SwapCapSpace(d) == lead + [Cap] + tail
  {
    SwapMarker(lead, tail);
    var d := [Cap] + lead + tail;
    assert d[|d| - 1] == tail[|tail| - 1];
    assert tail[|tail| - 1] in tail;
  }

  /** The swap leaves a token without the marker unchanged. */
  lemma SwapPlain(t: seq<CodePoint>)
    requires t != [] && Cap !in t
    ensures Last(t) != Cap && SwapCapSpace(t) == t
  {
    assert t[|t| - 1] in t;
    SwapCapFree(t);
  }

  /** The swap turns a decapitalized token into its marked form. */
  lemma SwapDecapital(u: Tables, t: seq<CodePoint>)
    requires Restorable(u, t) && !u.isUpperCase(Space)
    ensures Decapital(u, t).Success?
    ensures var d := Decapital(u, t).value;
            d != [] && Last(d) != Cap && SwapCapSpace(d) == Marked(u, t)
  {
    BodyFacts(u, t);
    var body := Body(t);
    var d := Decapital(u, t).value;
    if Capitalized(u, body) {
      var lead := Lead(t);
      var tail := [u.toLowerCase(body[0])] + body[1..];
      assert d == [Cap] + lead + tail;
      assert Marked(u, t) == lead + [Cap] + tail;
      SwapCapitalized(lead, tail);
    } else {
      assert d == t;
      SwapPlain(t);
    }
  }

  lemma {:induction false} CapFreeKeepsNothingPending(u: Tables, st: Detok, s: seq<CodePoint>)
    requires !st.capSeen && Cap !in s
    ensures !DetokFrom(u, st, s).capSeen
    decreases |s|
  {
    if s != [] {
      assert Cap !in s[1..] by { assert forall y :: y in s[1..] ==> y in s; }
      CapFreeKeepsNothingPending(u, DetokStep(u, st, s[0]), s[1..]);
    }
  }

  /** With nothing pending, the marker followed by the lower-cased letter
      comes out as the original capital. */
  lemma MarkedLetter(u: Tables, st: Detok, x: CodePoint, rest: seq<CodePoint>)
    requires !st.capSeen && x != Space && x != Cap
    requires u.toUpperCase(u.toLowerCase(x)) == x && u.toLowerCase(x) != Space
    ensures DetokFrom(u, st, [Cap, u.toLowerCase(x)] + rest) == DetokFrom(u, st, [x] + rest)
  {
    var lower := u.toLowerCase(x);
    var a, b, c := [x] + rest, [Cap, lower] + rest, [lower] + rest;
    assert a[0] == x && a[1..] == rest;
    assert b[0] == Cap && b[1..] == c;
    assert c[0] == lower && c[1..] == rest;
    var st2 := Detok(st.out + [x], false, false);
    var sc := Detok(st.out, false, true);
    assert DetokStep(u, st, x) == st2;
    assert DetokStep(u, st, Cap) == sc;
    assert DetokStep(u, sc, lower) == st2;
    calc {
      DetokFrom(u, st, b);
      DetokFrom(u, sc, c);
      DetokFrom(u, st2, rest);
      DetokFrom(u, st, a);
    }
  }

  /** From a state with no marker pending, the loop treats a marked token
      exactly like the original token. */
  lemma DetokMarked(u: Tables, st: Detok, t: seq<CodePoint>)
    requires !st.capSeen && Restorable(u, t) && !u.isUpperCase(Space)
    ensures DetokFrom(u, st, Marked(u, t)) == DetokFrom(u, st, t)
    ensures !DetokFrom(u, st, t).capSeen
  {
    CapFreeKeepsNothingPending(u, st, t);
    var body := Body(t);
    if Capitalized(u, body) {
      BodyFacts(u, t);
      var lead := Lead(t);
      var x := body[0];
      var lower := u.toLowerCase(x);
      var rest := body[1..];
      assert t == lead + ([x] + rest);
      assert Marked(u, t) == lead + ([Cap, lower] + rest);
      DetokFromConcat(u, st, lead, [x] + rest);
      DetokFromConcat(u, st, lead, [Cap, lower] + rest);
      var st1 := DetokFrom(u, st, lead);
      assert !st1.capSeen by {
        if lead == [Space] { assert lead[1..] == []; }
      }
      MarkedLetter(u, st1, x, rest);
    }
  }

  /** Over a whole token list, the swapped join of the decapitalized tokens
      detokenizes like the join of the originals. */
  lemma {:induction false} DetokDecapitalized(u: Tables, st: Detok, toks: seq<seq<CodePoint>>, ds: seq<seq<CodePoint>>)
    requires !st.capSeen && !u.isUpperCase(Space)
    requires forall i :: 0 <= i < |toks| ==> Restorable(u, toks[i])
    requires DecapitalAll(u, toks) == Success(ds)
    ensures DetokFrom(u, st, SwapCapSpace(Join(ds))) == DetokFrom(u, st, Join(toks))
    decreases |toks|
  {
    if toks != [] {
      var t := toks[0];
      var d := ds[0];
      assert Decapital(u, t) == Success(d);
      SwapDecapital(u, t);
      assert Join(ds) == d + Join(ds[1..]);
      SwapConcat(d, Join(ds[1..]));
      assert DecapitalAll(u, toks[1..]) == Success(ds[1..]);
      DetokFromConcat(u, st, Marked(u, t), SwapCapSpace(Join(ds[1..])));
      DetokFromConcat(u, st, t, Join(toks[1..]));
      DetokMarked(u, st, t);
      DetokDecapitalized(u, DetokFrom(u, st, t), toks[1..], ds[1..]);
    }
  }

  lemma {:induction false} NonSpaceMember(s: seq<CodePoint>, x: CodePoint)
    requires x != Space && x in s
    ensures x in NonSpace(s)
    decreases |s|
  {
    if s[0] != x {
      NonSpaceMember(s[1..], x);
    }
  }

  lemma {:induction false} NonSpaceSource(s: seq<CodePoint>, x: CodePoint)
    requires x in NonSpace(s)
    ensures x in s
    decreases |s|
  {
    if s[0] == Space || x != s[0] {
      NonSpaceSource(s[1..], x);
    }
  }

  /** Every token of a message without the marker and with restorable
      capitals is restorable, provided none is a lone half-space. */
  lemma SegmentRestorable(m: seq<CodePoint>, splitPunctuation: bool, u: Tables)
    requires Cap !in m
    requires forall i :: 0 <= i < |m| ==> CaseRestorable(u, m[i])
    requires !HasLoneSpace(Segment(u, splitPunctuation, m))
    ensures var toks := Segment(u, splitPunctuation, m);
            && Cap !in Join(toks)
            && forall i :: 0 <= i < |toks| ==> Restorable(u, toks[i])
  {
    var toks := Segment(u, splitPunctuation, m);
    SegmentKeepsNonSpace(u, splitPunctuation, m);
    forall i | 0 <= i < |toks|
      ensures Restorable(u, toks[i])
    {
      assert toks[i] != [Space] && toks[i] != [];
      forall x | x in toks[i]
        ensures x == Space || (x != Cap && CaseRestorable(u, x))
      {
        if x != Space {
          NonSpaceMember(Join(toks), x);
          NonSpaceSource(m, x);
          var k :| 0 <= k < |m| && m[k] == x;
        }
      }
    }
    if Cap in Join(toks) {
      NonSpaceMember(Join(toks), Cap);
      NonSpaceSource(m, Cap);
    }
  }

  /** Detokenize undoes tokenize with deCapitalize set, for a message without
      the marker that neither starts nor ends with a space (those make
      decapital fail), under a case table that can undo lower-casing of the
      message's capitals. */
  lemma DecapitalRoundTrip(m: seq<CodePoint>, splitPunctuation: bool, u: Tables)
    requires Cap !in m
    requires m != [] ==> m[0] != Space && Last(m) != Space
    requires !u.isUpperCase(Space)
    requires forall i :: 0 <= i < |m| ==> CaseRestorable(u, m[i])
    ensures Tokenize(m, true, splitPunctuation, u).Success?
    ensures Detokenize(Tokenize(m, true, splitPunctuation, u).value, u) == m
  {
    var toks := Segment(u, splitPunctuation, m);
    RoundTrip(m, splitPunctuation, u);
    assert Tokenize(m, false, splitPunctuation, u) == Success(toks);
    assert Detokenize(toks, u) == m;
    assert !HasLoneSpace(toks);
    SegmentRestorable(m, splitPunctuation, u);
    SwapCapFree(Join(toks));
    var ds := DecapitalAll(u, toks).value;
    assert Tokenize(m, true, splitPunctuation, u) == Success(ds);
    DetokDecapitalized(u, DetokStart, toks, ds);
  }
}
