/** What tokenize and detokenize promise about each other: detokenize undoes
    tokenize, tokenize keeps every code point that is not a space, and the
    splitPunctuation flag only splits runs of low rank. */
module RevtokRoundTrip {
  import opened Wrappers
  import opened Unicode
  import opened Text
  import opened RevtokTokenize
  import opened RevtokDetokenize

  /** The text one loop iteration adds detokenizes to the code point it
      read. */
  lemma PieceDecodes(u: Tables, m: seq<CodePoint>, c: CodePoint, piece: seq<CodePoint>)
    requires c != Cap
    requires piece == (if c == Space then [Space, Space] else [c]) || (c != Space && piece == [Space, c])
    ensures DetokFrom(u, Detok(m, false, false), piece) == Detok(m + [c], false, false)
  {
    if piece == [Space, Space] {
      assert piece[1..] == [Space];
      assert [Space][1..] == [];
      assert DetokStep(u, Detok(m, false, false), Space) == Detok(m, true, false);
      assert DetokStep(u, Detok(m, true, false), Space) == Detok(m + [c], false, false);
      assert DetokFrom(u, Detok(m + [c], false, false), []) == Detok(m + [c], false, false);
      assert DetokFrom(u, Detok(m, true, false), [Space]) == Detok(m + [c], false, false);
    } else if piece == [c] {
      assert [c][1..] == [];
      assert DetokFrom(u, Detok(m + [c], false, false), []) == Detok(m + [c], false, false);
    } else if piece == [Space, c] {
      assert piece[1..] == [c];
      assert [c][1..] == [];
      assert DetokStep(u, Detok(m, false, false), Space) == Detok(m, true, false);
      assert DetokStep(u, Detok(m, true, false), c) == Detok(m + [c], false, false);
      assert DetokFrom(u, Detok(m + [c], false, false), []) == Detok(m + [c], false, false);
      assert DetokFrom(u, Detok(m, true, false), [c]) == Detok(m + [c], false, false);
    }
  }

  lemma StepEncodes(u: Tables, split: bool, m: seq<CodePoint>, prev: Scanner, c: CodePoint, p: int)
    requires |prev.toks| > 0 && c != Cap
    requires DetokFrom(u, DetokStart, Join(prev.toks)) == Detok(m, false, false)
    requires Cap !in Join(prev.toks)
    ensures DetokFrom(u, DetokStart, Join(Step(split, prev, c, p).toks)) == Detok(m + [c], false, false)
    ensures Cap !in Join(Step(split, prev, c, p).toks)
  {
    var j := Join(prev.toks);
    var j' := Join(Step(split, prev, c, p).toks);
    var piece := j'[|j|..];
    assert j' == j + piece;
    assert piece == (if c == Space then [Space, Space] else [c]) || (c != Space && piece == [Space, c]);
    DetokFromConcat(u, DetokStart, j, piece);
    PieceDecodes(u, m, c, piece);
  }

  /** Detokenizing what the tokenize loop has joined so far gives back the
      message read so far, in a state with nothing pending. */
  lemma {:induction false} ScanEncodes(u: Tables, split: bool, m: seq<CodePoint>)
    requires Cap !in m
    ensures DetokFrom(u, DetokStart, Join(Scan(u, split, m).toks)) == Detok(m, false, false)
    ensures Cap !in Join(Scan(u, split, m).toks)
    decreases |m|
  {
    if m == [] {
      assert Join([[]]) == [] + Join([]);
    } else {
      var m' := m[..|m| - 1];
      var c := Last(m);
      assert m == m' + [c];
      assert c in m;
      assert forall x :: x in m' ==> x in m;
      ScanEncodes(u, split, m');
      StepEncodes(u, split, m', Scan(u, split, m'), c, CharacterPriority(u, c));
    }
  }

  /** The joined tokens are the joined loop deque, plus the closing
      half-space of a final token of positive rank. */
  lemma SegmentJoin(u: Tables, split: bool, m: seq<CodePoint>)
    ensures var st := Scan(u, split, m);
            Join(Segment(u, split, m))
            == Join(st.toks) + (if st.priority.Some? && st.priority.value > 0 then [Space] else [])
  {
    var st := Scan(u, split, m);
    TrimShape(m, st);
  }

  /** For a message without the capital marker, detokenize undoes tokenize
      whichever way punctuation is split. */
  lemma RoundTrip(m: seq<CodePoint>, splitPunctuation: bool, u: Tables)
    requires Cap !in m
    ensures Tokenize(m, false, splitPunctuation, u).Success?
    ensures Detokenize(Tokenize(m, false, splitPunctuation, u).value, u) == m
  {
    var st := Scan(u, splitPunctuation, m);
    var toks := Segment(u, splitPunctuation, m);
    ScanEncodes(u, splitPunctuation, m);
    SegmentJoin(u, splitPunctuation, m);
    var j := Join(st.toks);
    if st.priority.Some? && st.priority.value > 0 {
      assert Join(toks) == j + [Space];
      DetokFromConcat(u, DetokStart, j, [Space]);
      assert DetokFrom(u, Detok(m, false, false), [Space]) == Detok(m, true, false);
    } else {
      assert Join(toks) == j;
    }
    assert Cap !in Join(toks);
    SwapCapFree(Join(toks));
  }

  lemma {:induction false} ScanKeepsNonSpace(u: Tables, split: bool, m: seq<CodePoint>)
    ensures NonSpace(Join(Scan(u, split, m).toks)) == NonSpace(m)
    decreases |m|
  {
    if m == [] {
      assert Join([[]]) == [] + Join([]);
    } else {
      var m' := m[..|m| - 1];
      var c := Last(m);
      assert m == m' + [c];
      ScanKeepsNonSpace(u, split, m');
      var j := Join(Scan(u, split, m').toks);
      var piece := Join(Scan(u, split, m).toks)[|j|..];
      assert Join(Scan(u, split, m).toks) == j + piece;
      NonSpaceConcat(j, piece);
      NonSpaceConcat(m', [c]);
      assert NonSpace([c]) == (if c == Space then [] else [c]) + NonSpace([]);
      if c == Space {
        assert piece == [Space, Space];
        assert NonSpace(piece) == NonSpace([Space]);
      } else if piece == [Space, c] {
        assert NonSpace(piece) == NonSpace([c]);
      }
    }
  }

  /** The code points that are not spaces survive tokenize unchanged and in
      order. */
  lemma SegmentKeepsNonSpace(u: Tables, split: bool, m: seq<CodePoint>)
    ensures NonSpace(Join(Segment(u, split, m))) == NonSpace(m)
  {
    var st := Scan(u, split, m);
    ScanKeepsNonSpace(u, split, m);
    SegmentJoin(u, split, m);
    if st.priority.Some? && st.priority.value > 0 {
      NonSpaceConcat(Join(st.toks), [Space]);
      assert NonSpace([Space]) == [] + NonSpace([]);
    } else {
      assert Join(st.toks) + [] == Join(st.toks);
    }
  }

  /** Every code point of m is not a space and has rank p. */
  predicate UniformRun(u: Tables, m: seq<CodePoint>, p: int)
  {
    forall i :: 0 <= i < |m| ==> m[i] != Space && CharacterPriority(u, m[i]) == p
  }

  /** The deque a uniform run has after each of its code points. */
  function RunScanner(m: seq<CodePoint>, p: int): Scanner
  {
    Scanner([[], (if p > 0 then [Space] else []) + m], Some(p))
  }

  lemma RunStep(split: bool, m: seq<CodePoint>, c: CodePoint, p: int)
    requires c != Space && p != 0 && (p > 2 || !split)
    ensures Step(split, if m == [] then Start else RunScanner(m, p), c, p) == RunScanner(m + [c], p)
  {
    var pad: seq<CodePoint> := if p > 0 then [Space] else [];
    var prev := if m == [] then Start else RunScanner(m, p);
    StepToks(split, prev, c, p);
    if m == [] {
      var init: seq<seq<CodePoint>> := Start.toks[..0];
      assert init == [] && m + [c] == [c];
      if p > 0 {
        assert Step(split, prev, c, p).toks == init + [[], [Space, c]];
        assert pad + [c] == [Space, c];
      } else {
        assert Step(split, prev, c, p).toks == init + [[], [c]];
        assert pad + [c] == [c];
      }
    } else {
      ConcatAssoc(pad, m, [c]);
    }
  }

  lemma {:induction false} ScanUniformRun(u: Tables, split: bool, m: seq<CodePoint>, p: int)
    requires m != [] && UniformRun(u, m, p) && (p > 2 || !split)
    ensures Scan(u, split, m) == RunScanner(m, p)
    decreases |m|
  {
    var m' := m[..|m| - 1];
    var c := m[|m| - 1];
    assert m == m' + [c];
    assert c != Space && CharacterPriority(u, c) == p;
    if m' != [] {
      assert UniformRun(u, m', p) by {
        forall i | 0 <= i < |m'| ensures m'[i] != Space && CharacterPriority(u, m'[i]) == p {
          assert m'[i] == m[i];
        }
      }
      ScanUniformRun(u, split, m', p);
    }
    assert Scan(u, split, m) == Step(split, Scan(u, split, m'), c, p);
    RunStep(split, m', c, p);
  }

  /** A run of code points of one rank stays one token when the rank is
      above 2 or punctuation is not split: letters, numbers and symbols are
      padded with half-spaces, separators and control characters are not. */
  lemma UniformRunIsOneToken(u: Tables, split: bool, m: seq<CodePoint>, p: int)
    requires m != [] && UniformRun(u, m, p) && (p > 2 || !split)
    ensures Segment(u, split, m) == if p > 0 then [[Space] + m + [Space]] else [m]
  {
    ScanUniformRun(u, split, m, p);
    var st := Scan(u, split, m);
    TrimShape(m, st);
    var t := Trim(st.toks);
    assert t == [(if p > 0 then [Space] else []) + m];
    if p > 0 {
      assert st.priority == Some(p);
      assert Segment(u, split, m) == SealCurrentToken(t);
      assert SealCurrentToken(t) == [[Space] + m + [Space]];
    } else {
      assert [] + m == m;
      assert Segment(u, split, m) == t;
    }
  }

  /** The deque shape a split run has after each of its code points:
      an empty first token, then one token per code point. */
  predicate SplitShape(m: seq<CodePoint>, st: Scanner)
  {
    && |st.toks| == |m| + 1 && st.toks[0] == []
    && forall i :: 0 < i < |st.toks| ==> NonSpace(st.toks[i]) == [m[i - 1]]
  }

  lemma SplitStep(m: seq<CodePoint>, prev: Scanner, c: CodePoint, p: int)
    requires c != Space && p <= 2 && p != 0
    requires SplitShape(m, prev) && prev.priority == (if m == [] then Some(0) else Some(p))
    ensures SplitShape(m + [c], Step(true, prev, c, p))
  {
    var st := Step(true, prev, c, p);
    var m1 := m + [c];
    StepToks(true, prev, c, p);
    var n := |prev.toks|;
    var init, cur := prev.toks[..n - 1], prev.toks[n - 1];
    var cur' := if p <= 0 || m == [] then cur else cur + [Space];
    var last := if p > 0 && m == [] then [Space, c] else [c];
    assert st.toks == init + [cur', last];
    NonSpaceSealed(cur);
    assert NonSpace(cur') == NonSpace(cur);
    assert NonSpace([c]) == [c];
    assert NonSpace(last) == [c] by {
      if last != [c] { assert NonSpace([Space, c]) == NonSpace([c]); }
    }
    forall i | 0 < i < |st.toks|
      ensures NonSpace(st.toks[i]) == [m1[i - 1]]
    {
      if i < n - 1 {
        assert st.toks[i] == prev.toks[i] && m1[i - 1] == m[i - 1];
      } else if i == n - 1 {
        assert st.toks[i] == cur' && m1[i - 1] == m[i - 1];
      } else {
        assert st.toks[i] == last;
      }
    }
  }

  lemma {:induction false} ScanSplitRun(u: Tables, m: seq<CodePoint>, p: int)
    requires m != [] && UniformRun(u, m, p) && p <= 2
    ensures var st := Scan(u, true, m);
            && |st.toks| == |m| + 1 && st.toks[0] == [] && st.priority == Some(p)
            && forall i :: 0 < i < |st.toks| ==> NonSpace(st.toks[i]) == [m[i - 1]]
    decreases |m|
  {
    var m' := m[..|m| - 1];
    var c := m[|m| - 1];
    assert m == m' + [c];
    assert c != Space && CharacterPriority(u, c) == p;
    var prev := Scan(u, true, m');
    assert Scan(u, true, m) == Step(true, prev, c, p);
    if m' != [] {
      assert UniformRun(u, m', p) by {
        forall i | 0 <= i < |m'| ensures m'[i] != Space && CharacterPriority(u, m'[i]) == p {
          assert m'[i] == m[i];
        }
      }
      ScanSplitRun(u, m', p);
    }
    SplitStep(m', prev, c, p);
  }

  /** Closing the last token with a half-space keeps one non-space code
      point per token. */
  lemma SealKeepsOnePerToken(m: seq<CodePoint>, t: seq<seq<CodePoint>>)
    requires |t| == |m| > 0 && forall i :: 0 <= i < |m| ==> NonSpace(t[i]) == [m[i]]
    ensures var r := SealCurrentToken(t);
            |r| == |m| && forall i :: 0 <= i < |m| ==> NonSpace(r[i]) == [m[i]]
  {
    var r := SealCurrentToken(t);
    var last := |m| - 1;
    forall i | 0 <= i < |m|
      ensures NonSpace(r[i]) == [m[i]]
    {
      if i == last {
        assert r[i] == t[i] + [Space];
        NonSpaceSealed(t[i]);
      } else {
        var front: seq<seq<CodePoint>> := r[..last];
        var front': seq<seq<CodePoint>> := t[..last];
        assert front[i] == front'[i];
      }
    }
  }

  /** With splitPunctuation, a run of punctuation (rank 1) or of lower rank
      becomes one token per code point. */
  lemma SplitRunIsOneTokenEach(u: Tables, m: seq<CodePoint>, p: int)
    requires m != [] && UniformRun(u, m, p) && p <= 2
    ensures var toks := Segment(u, true, m);
            |toks| == |m| && forall i :: 0 <= i < |m| ==> NonSpace(toks[i]) == [m[i]]
  {
    ScanSplitRun(u, m, p);
    var st := Scan(u, true, m);
    var t := st.toks[1..];
    assert Trim(st.toks) == t;
    assert forall i :: 0 <= i < |m| ==> NonSpace(t[i]) == [m[i]] by {
      forall i | 0 <= i < |m| ensures NonSpace(t[i]) == [m[i]] {
        assert t[i] == st.toks[i + 1];
      }
    }
    if p > 0 {
      SealKeepsOnePerToken(m, t);
    }
  }

  /** No two adjacent code points other than half-spaces share a rank of 2
      or less: the only place where splitPunctuation acts. */
  predicate FlagFree(u: Tables, m: seq<CodePoint>)
  {
    forall i :: 0 < i < |m| && m[i - 1] != Space && m[i] != Space ==>
      CharacterPriority(u, m[i - 1]) != CharacterPriority(u, m[i]) || CharacterPriority(u, m[i]) > 2
  }

  /** After the loop, the priority is that of the last code point read:
      absent after a space, 0 before anything. */
  lemma ScanPriority(u: Tables, split: bool, m: seq<CodePoint>)
    ensures Scan(u, split, m).priority
            == if m == [] then Some(0)
               else if Last(m) == Space then None
               else Some(CharacterPriority(u, Last(m)))
  {
    if m != [] {
      var m', c := m[..|m| - 1], m[|m| - 1];
      assert Scan(u, split, m) == Step(split, Scan(u, split, m'), c, CharacterPriority(u, c));
    }
  }

  /** One step does not look at the flag unless the code point continues a
      run of its own rank of 2 or less. */
  lemma StepFlagFree(st: Scanner, c: CodePoint, p: int)
    requires |st.toks| > 0
    requires c == Space || st.priority != Some(p) || p > 2
    ensures Step(true, st, c, p) == Step(false, st, c, p)
  {
  }

  lemma FlagFreePrefix(u: Tables, m: seq<CodePoint>)
    requires FlagFree(u, m) && m != []
    ensures var m', c := m[..|m| - 1], m[|m| - 1];
            && FlagFree(u, m')
            && (c == Space || m' == [] || Last(m') == Space
                || CharacterPriority(u, Last(m')) != CharacterPriority(u, c) || CharacterPriority(u, c) > 2)
  {
    var m' := m[..|m| - 1];
    forall i | 0 < i < |m'| && m'[i - 1] != Space && m'[i] != Space
      ensures CharacterPriority(u, m'[i - 1]) != CharacterPriority(u, m'[i]) || CharacterPriority(u, m'[i]) > 2
    {
      assert m'[i - 1] == m[i - 1] && m'[i] == m[i];
    }
    if m' != [] {
      var k := |m'|;
      assert m[k - 1] == Last(m');
    }
  }

  lemma {:induction false} ScanFlagFree(u: Tables, m: seq<CodePoint>)
    requires FlagFree(u, m)
    ensures Scan(u, true, m) == Scan(u, false, m)
    decreases |m|
  {
    if m != [] {
      var m', c := m[..|m| - 1], m[|m| - 1];
      var p := CharacterPriority(u, c);
      FlagFreePrefix(u, m);
      ScanFlagFree(u, m');
      var prev := Scan(u, true, m');
      ScanPriority(u, true, m');
      StepFlagFree(prev, c, p);
      assert Scan(u, true, m) == Step(true, prev, c, p);
      assert Scan(u, false, m) == Step(false, prev, c, p);
    }
  }

  /** The flag changes nothing in a message where no two adjacent code points
      other than half-spaces share a rank of 2 or less: its only effect is to
      split such runs. */
  lemma TokenizeFlagFree(m: seq<CodePoint>, deCapitalize: bool, u: Tables)
    requires FlagFree(u, m)
    ensures Tokenize(m, deCapitalize, true, u) == Tokenize(m, deCapitalize, false, u)
  {
    ScanFlagFree(u, m);
    assert Segment(u, true, m) == Segment(u, false, m);
  }
}
