/** RevtokTokenizer.detokenize: joins tokens, halves every run of
    half-spaces and turns the capital marker plus the next code point into
    that code point upper-cased. */
module RevtokDetokenize {
  import opened Unicode
  import opened Text

  /** String.replace of U+E302 U+0020 by U+0020 U+E302: a left-to-right scan that
      rewrites non-overlapping occurrences and does not rescan its output. */
  function SwapCapSpace(s: seq<CodePoint>): (r: seq<CodePoint>)
    ensures |r| == |s|
  {
    if |s| < 2 then s
    else if s[0] == Cap && s[1] == Space then [Space, Cap] + SwapCapSpace(s[2..])
    else
      assert s == [s[0]] + s[1..];
      [s[0]] + SwapCapSpace(s[1..])
  }

  /** No marker is directly followed by a half-space. */
  predicate NoCapSpace(s: seq<CodePoint>)
  {
    forall i :: 0 < i < |s| ==> !(s[i - 1] == Cap && s[i] == Space)
  }

  /** The swap changes the text exactly when it holds a marker directly
      followed by a half-space. */
  lemma {:induction false} SwapUnchanged(s: seq<CodePoint>)
    ensures SwapCapSpace(s) == s <==> NoCapSpace(s)
    decreases |s|
  {
    if |s| < 2 {
    } else if s[0] == Cap && s[1] == Space {
      assert SwapCapSpace(s)[0] == Space;
      assert s[1 - 1] == Cap && s[1] == Space;
    } else {
      var t := s[1..];
      assert s == [s[0]] + t;
      SwapUnchanged(t);
      assert SwapCapSpace(s) == [s[0]] + SwapCapSpace(t);
      assert SwapCapSpace(s) == s <==> SwapCapSpace(t) == t by {
        if SwapCapSpace(s) == s {
          assert SwapCapSpace(s)[1..] == s[1..];
        }
      }
      assert NoCapSpace(s) <==> NoCapSpace(t) by {
        if NoCapSpace(t) {
          forall i | 0 < i < |s| ensures !(s[i - 1] == Cap && s[i] == Space) {
            if i > 1 { assert s[i - 1] == t[i - 2] && s[i] == t[i - 1]; }
          }
        }
        if NoCapSpace(s) {
          forall i | 0 < i < |t| ensures !(t[i - 1] == Cap && t[i] == Space) {
            assert t[i - 1] == s[i] && t[i] == s[i + 1];
          }
        }
      }
    }
  }

  /** Text without a marker is left as it is. */
  lemma SwapCapFree(s: seq<CodePoint>)
    requires Cap !in s
    ensures SwapCapSpace(s) == s
  {
    assert NoCapSpace(s) by {
      forall i | 0 < i < |s| ensures !(s[i - 1] == Cap && s[i] == Space) {
        assert s[i - 1] in s;
      }
    }
    SwapUnchanged(s);
  }

  /** The swap only moves markers past half-spaces: the code points that are
      not half-spaces stay the same, in order. */
  lemma {:induction false} SwapKeepsNonSpace(s: seq<CodePoint>)
    ensures NonSpace(SwapCapSpace(s)) == NonSpace(s)
    decreases |s|
  {
    if |s| < 2 {
    } else if s[0] == Cap && s[1] == Space {
      var t := s[2..];
      SwapKeepsNonSpace(t);
      assert s == [Cap, Space] + t;
      assert SwapCapSpace(s) == [Space, Cap] + SwapCapSpace(t);
      NonSpaceConcat([Cap, Space], t);
      NonSpaceConcat([Space, Cap], SwapCapSpace(t));
      assert NonSpace([Cap, Space]) == [Cap] + NonSpace([Space]);
      assert NonSpace([Space]) == NonSpace([]);
      assert NonSpace([Space, Cap]) == NonSpace([Cap]);
      assert NonSpace([Cap]) == [Cap] + NonSpace([]);
    } else {
      var t := s[1..];
      SwapKeepsNonSpace(t);
      assert s == [s[0]] + t;
      assert SwapCapSpace(s) == [s[0]] + SwapCapSpace(t);
      NonSpaceConcat([s[0]], t);
      NonSpaceConcat([s[0]], SwapCapSpace(t));
    }
  }

  /** The detokenize loop state: the output so far, whether an odd half-space
      of the current run has been skipped, and whether a marker is pending. */
  datatype Detok = Detok(out: seq<CodePoint>, spaceSkipped: bool, capSeen: bool)

  const DetokStart: Detok := Detok([], false, false)

  /** One iteration of the detokenize loop: a space is emitted on every
      second one of a run; otherwise a pending marker upper-cases the code
      point, a marker becomes pending, and anything else is copied. */
  function DetokStep(u: Tables, st: Detok, c: CodePoint): (r: Detok)
    // output is only ever appended to, one code point at most
    ensures st.out <= r.out && |r.out| <= |st.out| + 1
    // a space emits exactly when the one before it was skipped
    ensures c == Space ==> (|r.out| > |st.out| <==> st.spaceSkipped)
    // any other code point emits unless it is a marker that becomes pending
    ensures c != Space ==> (|r.out| == |st.out| <==> c == Cap && !st.capSeen)
    // what is emitted: the space, the upper case of the code point after a
    // pending marker, or the code point itself
    ensures |r.out| > |st.out| ==>
              r.out[|st.out|] == (if c == Space then Space
                                  else if st.capSeen then u.toUpperCase(c) else c)
    ensures r.spaceSkipped <==> c == Space && !st.spaceSkipped
    ensures r.capSeen <==> (c == Space && st.capSeen) || (c == Cap && !st.capSeen)
  {
    if c == Space then
      Detok(if st.spaceSkipped then st.out + [Space] else st.out, !st.spaceSkipped, st.capSeen)
    else if st.capSeen then
      Detok(st.out + [u.toUpperCase(c)], false, false)
    else if c == Cap then
      Detok(st.out, false, true)
    else
      Detok(st.out + [c], false, false)
  }

  /** The detokenize loop run over s from state st. */
  function DetokFrom(u: Tables, st: Detok, s: seq<CodePoint>): Detok
    decreases |s|
  {
    if s == [] then st else DetokFrom(u, DetokStep(u, st, s[0]), s[1..])
  }

  lemma {:induction false} DetokFromConcat(u: Tables, st: Detok, a: seq<CodePoint>, b: seq<CodePoint>)
    ensures DetokFrom(u, st, a + b) == DetokFrom(u, DetokFrom(u, st, a), b)
    decreases |a|
  {
    if a == [] {
      assert a + b == b;
    } else {
      assert (a + b)[0] == a[0];
      assert (a + b)[1..] == a[1..] + b;
      DetokFromConcat(u, DetokStep(u, st, a[0]), a[1..], b);
    }
  }

  /** RevtokTokenizer.detokenize: the loop run over the joined tokens after
      the marker/space swap. It equals halving every maximal run of
      half-spaces and then resolving every marker. */
  function Detokenize(tokens: seq<seq<CodePoint>>, u: Tables): (r: seq<CodePoint>)
    ensures r == Uncap(u, false, HalveRuns(SwapCapSpace(Join(tokens))))
  {
    DetokFromIsTwoPasses(u, [], false, SwapCapSpace(Join(tokens)));
    DetokFrom(u, DetokStart, SwapCapSpace(Join(tokens))).out
  }

  // An independent description of detokenize as two passes: first every
  // run of half-spaces is halved, then every marker is resolved. The second
  // pass follows the Java loop, not the regular expression its comment cites:
  // that expression upper-cases whatever follows a marker, a space included,
  // while the loop keeps spaces and upper-cases the next code point that is
  // not a space.

  /** The number of half-spaces s starts with. */
  function LeadingSpaces(s: seq<CodePoint>): (n: nat)
    ensures n <= |s|
    ensures forall i :: 0 <= i < n ==> s[i] == Space
    ensures n < |s| ==> s[n] != Space
  {
    if s == [] || s[0] != Space then 0 else 1 + LeadingSpaces(s[1..])
  }

  /** Every maximal run of n half-spaces replaced by floor(n/2) of them. */
  function HalveRuns(s: seq<CodePoint>): seq<CodePoint>
    decreases |s|
  {
    if s == [] then []
    else if s[0] == Space then
      var n := LeadingSpaces(s);
      Spaces(n / 2) + HalveRuns(s[n..])
    else [s[0]] + HalveRuns(s[1..])
  }

  /** A marker read with none pending is dropped, and the next code point
      that is not a half-space is upper-cased, even when it is a second
      marker (that one is kept, upper-cased). Half-spaces pass through, and
      a marker at the very end is dropped. */
  function Uncap(u: Tables, pending: bool, s: seq<CodePoint>): seq<CodePoint>
    decreases |s|
  {
    if s == [] then []
    else if s[0] == Space then [Space] + Uncap(u, pending, s[1..])
    else if pending then [u.toUpperCase(s[0])] + Uncap(u, false, s[1..])
    else if s[0] == Cap then Uncap(u, true, s[1..])
    else [s[0]] + Uncap(u, false, s[1..])
  }

  /** One space through the loop: it toggles the skip flag and is emitted
      only when the one before it was skipped. */
  lemma SpaceThrough(u: Tables, o: seq<CodePoint>, ss: bool, cs: bool, rest: seq<CodePoint>)
    ensures DetokFrom(u, Detok(o, ss, cs), [Space] + rest)
            == DetokFrom(u, Detok(if ss then o + [Space] else o, !ss, cs), rest)
  {
    assert ([Space] + rest)[1..] == rest;
  }

  /** The emitted half of a run, counted from the state after its first space. */
  lemma HalfRunCount(o: seq<CodePoint>, ss: bool, n: nat)
    requires n > 0
    ensures var b := if ss then 1 else 0;
            var b' := if ss then 0 else 1;
            && (if ss then o + [Space] else o) + Spaces((n - 1 + b') / 2) == o + Spaces((n + b) / 2)
            && ((n - 1 + b') % 2 == 1 <==> (n + b) % 2 == 1)
  {
    if ss {
      SpacesAdd(1, (n - 1) / 2);
      assert [Space] == Spaces(1);
      Text.ConcatAssoc(o, [Space], Spaces((n - 1) / 2));
    } else {
      assert (n - 1 + 1) / 2 == n / 2;
    }
    if ss {
      assert n + 1 == (n - 1) + 2;
    }
  }

  lemma {:induction false} SpacesRun(u: Tables, o: seq<CodePoint>, ss: bool, cs: bool, n: nat, rest: seq<CodePoint>)
    ensures var b := if ss then 1 else 0;
            DetokFrom(u, Detok(o, ss, cs), Spaces(n) + rest)
            == DetokFrom(u, Detok(o + Spaces((n + b) / 2), (n + b) % 2 == 1, cs), rest)
    decreases n
  {
    if n == 0 {
      assert Spaces(0) + rest == rest;
      assert o + Spaces(0) == o;
    } else {
      assert Spaces(n) + rest == [Space] + (Spaces(n - 1) + rest);
      SpaceThrough(u, o, ss, cs, Spaces(n - 1) + rest);
      var o' := if ss then o + [Space] else o;
      var b := if ss then 1 else 0;
      var b' := if ss then 0 else 1;
      SpacesRun(u, o', !ss, cs, n - 1, rest);
      HalfRunCount(o, ss, n);
      assert Detok(o' + Spaces((n - 1 + b') / 2), (n - 1 + b') % 2 == 1, cs)
          == Detok(o + Spaces((n + b) / 2), (n + b) % 2 == 1, cs);
    }
  }

  lemma {:induction false} UncapSpaces(u: Tables, pending: bool, k: nat, x: seq<CodePoint>)
    ensures Uncap(u, pending, Spaces(k) + x) == Spaces(k) + Uncap(u, pending, x)
  {
    if k > 0 {
      var s := Spaces(k) + x;
      assert s[0] == Space && s[1..] == Spaces(k - 1) + x;
      UncapSpaces(u, pending, k - 1, x);
    } else {
      assert Spaces(k) + x == x;
    }
  }

  /** One non-space code point: the loop and the marker pass agree, and the
      loop's skipped-space flag does not matter. */
  lemma NonSpaceStep(u: Tables, o: seq<CodePoint>, ss: bool, cs: bool, c: CodePoint, t: seq<CodePoint>)
    requires c != Space
    ensures var st := DetokStep(u, Detok(o, ss, cs), c);
            && !st.spaceSkipped
            && st.out + Uncap(u, st.capSeen, t) == o + Uncap(u, cs, [c] + t)
  {
    var s := [c] + t;
    assert s[0] == c && s[1..] == t;
    if cs {
      assert Uncap(u, cs, s) == [u.toUpperCase(c)] + Uncap(u, false, t);
      assert DetokStep(u, Detok(o, ss, cs), c) == Detok(o + [u.toUpperCase(c)], false, false);
    } else if c == Cap {
      assert Uncap(u, cs, s) == Uncap(u, true, t);
      assert DetokStep(u, Detok(o, ss, cs), c) == Detok(o, false, true);
    } else {
      assert Uncap(u, cs, s) == [c] + Uncap(u, false, t);
      assert DetokStep(u, Detok(o, ss, cs), c) == Detok(o + [c], false, false);
    }
  }

  /** A maximal run of half-spaces followed by the rest: the loop emits half
      the run and goes on with the rest from a state with nothing skipped. */
  lemma RunThenRest(u: Tables, o: seq<CodePoint>, cs: bool, n: nat, rest: seq<CodePoint>)
    requires rest == [] || rest[0] != Space
    ensures rest == [] ==> DetokFrom(u, Detok(o, false, cs), Spaces(n) + rest).out == o + Spaces(n / 2)
    ensures rest != [] ==> DetokFrom(u, Detok(o, false, cs), Spaces(n) + rest)
                           == DetokFrom(u, Detok(o + Spaces(n / 2), false, cs), rest)
  {
    SpacesRun(u, o, false, cs, n, rest);
    var o' := o + Spaces(n / 2);
    if rest != [] {
      assert DetokFrom(u, Detok(o', n % 2 == 1, cs), rest)
          == DetokFrom(u, DetokStep(u, Detok(o', n % 2 == 1, cs), rest[0]), rest[1..]);
      assert DetokStep(u, Detok(o', n % 2 == 1, cs), rest[0]) == DetokStep(u, Detok(o', false, cs), rest[0]);
      assert DetokFrom(u, Detok(o', false, cs), rest)
          == DetokFrom(u, DetokStep(u, Detok(o', false, cs), rest[0]), rest[1..]);
    }
  }

  /** The two-pass view of a message that starts with a run of half-spaces. */
  lemma SpaceCase(u: Tables, o: seq<CodePoint>, cs: bool, s: seq<CodePoint>)
    requires s != [] && s[0] == Space
    ensures var n := LeadingSpaces(s);
            var o' := o + Spaces(n / 2);
            && 0 < n
            && (s[n..] == [] ==> DetokFrom(u, Detok(o, false, cs), s).out == o + Uncap(u, cs, HalveRuns(s)))
            && (s[n..] != [] ==> DetokFrom(u, Detok(o, false, cs), s) == DetokFrom(u, Detok(o', false, cs), s[n..]))
            && o + Uncap(u, cs, HalveRuns(s)) == o' + Uncap(u, cs, HalveRuns(s[n..]))
  {
    var n := LeadingSpaces(s);
    var rest := s[n..];
    assert s == Spaces(n) + rest;
    assert HalveRuns(s) == Spaces(n / 2) + HalveRuns(rest);
    RunThenRest(u, o, cs, n, rest);
    UncapSpaces(u, cs, n / 2, HalveRuns(rest));
  }

  /** The two-pass view of a message that starts with a code point other
      than a half-space. */
  lemma NonSpaceCase(u: Tables, o: seq<CodePoint>, cs: bool, s: seq<CodePoint>)
    requires s != [] && s[0] != Space
    ensures var st' := DetokStep(u, Detok(o, false, cs), s[0]);
            && DetokFrom(u, Detok(o, false, cs), s) == DetokFrom(u, Detok(st'.out, false, st'.capSeen), s[1..])
            && o + Uncap(u, cs, HalveRuns(s)) == st'.out + Uncap(u, st'.capSeen, HalveRuns(s[1..]))
  {
    var c := s[0];
    assert s == [c] + s[1..];
    assert HalveRuns(s) == [c] + HalveRuns(s[1..]);
    NonSpaceStep(u, o, false, cs, c, HalveRuns(s[1..]));
  }

  /** The detokenize loop, started with no half-space skipped, produces what
      halving every run and then resolving every marker produces. */
  lemma {:induction false} DetokFromIsTwoPasses(u: Tables, o: seq<CodePoint>, cs: bool, s: seq<CodePoint>)
    ensures DetokFrom(u, Detok(o, false, cs), s).out == o + Uncap(u, cs, HalveRuns(s))
    decreases |s|
  {
    if s == [] {
    } else if s[0] == Space {
      SpaceCase(u, o, cs, s);
      var n := LeadingSpaces(s);
      if s[n..] != [] {
        DetokFromIsTwoPasses(u, o + Spaces(n / 2), cs, s[n..]);
      }
    } else {
      NonSpaceCase(u, o, cs, s);
      var st' := DetokStep(u, Detok(o, false, cs), s[0]);
      DetokFromIsTwoPasses(u, st'.out, st'.capSeen, s[1..]);
    }
  }

  /** A maximal run of n half-spaces comes out as floor(n/2) half-spaces. */
  lemma HalveRunsOfRun(n: nat, c: CodePoint, r: seq<CodePoint>)
    requires c != Space
    ensures HalveRuns(Spaces(n)) == Spaces(n / 2)
    ensures HalveRuns(Spaces(n) + [c] + r) == Spaces(n / 2) + [c] + HalveRuns(r)
  {
    var s := Spaces(n) + [c] + r;
    if n == 0 {
      assert s == [c] + r;
      assert s[1..] == r;
    } else {
      LeadingRun(n, []);
      assert Spaces(n) + [] == Spaces(n);
      LeadingRun(n, [c] + r);
      assert s == Spaces(n) + ([c] + r);
      assert s[n..] == [c] + r;
      assert ([c] + r)[1..] == r;
      assert Spaces(n)[n..] == [];
    }
  }

  lemma LeadingRun(n: nat, rest: seq<CodePoint>)
    requires n > 0
    requires rest == [] || rest[0] != Space
    ensures LeadingSpaces(Spaces(n) + rest) == n
    decreases n
  {
    var s := Spaces(n) + rest;
    assert s[0] == Space;
    if n > 1 {
      assert s[1..] == Spaces(n - 1) + rest;
      LeadingRun(n - 1, rest);
    } else {
      assert s[1..] == rest;
    }
  }

  /** A marker with none pending is dropped and the next code point that is
      not a half-space, whichever it is, is upper-cased; half-spaces between
      them are kept. */
  lemma {:induction false} UncapMarker(u: Tables, k: nat, c: CodePoint, r: seq<CodePoint>)
    requires c != Space
    ensures Uncap(u, false, [Cap] + Spaces(k) + [c] + r)
            == Spaces(k) + [u.toUpperCase(c)] + Uncap(u, false, r)
  {
    var s := [Cap] + Spaces(k) + [c] + r;
    assert s[0] == Cap && s[1..] == Spaces(k) + ([c] + r);
    UncapSpaces(u, true, k, [c] + r);
    assert ([c] + r)[1..] == r;
  }

  lemma {:induction false} UncapCapFree(u: Tables, s: seq<CodePoint>)
    requires Cap !in s
    ensures Uncap(u, false, s) == s
    decreases |s|
  {
    if s != [] {
      assert s == [s[0]] + s[1..];
      UncapCapFree(u, s[1..]);
    }
  }

  lemma {:induction false} HalveRunsCapFree(s: seq<CodePoint>)
    requires Cap !in s
    ensures Cap !in HalveRuns(s)
    decreases |s|
  {
    if s != [] {
      if s[0] == Space {
        var n := LeadingSpaces(s);
        assert forall x :: x in s[n..] ==> x in s;
        HalveRunsCapFree(s[n..]);
      } else {
        assert forall x :: x in s[1..] ==> x in s;
        HalveRunsCapFree(s[1..]);
      }
    }
  }

  /** Without markers, detokenize only halves the runs of half-spaces. */
  lemma DetokenizeMarkerFree(tokens: seq<seq<CodePoint>>, u: Tables)
    requires Cap !in Join(tokens)
    ensures Detokenize(tokens, u) == HalveRuns(Join(tokens))
  {
    SwapCapFree(Join(tokens));
    HalveRunsCapFree(Join(tokens));
    UncapCapFree(u, HalveRuns(Join(tokens)));
  }
}
