/** RevtokTokenizer.tokenize and decapital: a reversible tokenizer that splits
    a message into tokens and records every word boundary and every original
    space as half-spaces (U+0020) so that detokenize can undo it. */
module RevtokTokenize {
  import opened Wrappers
  import opened Unicode
  import opened Text

  /** The exception decapital raises when it reads past the end of a token. */
  datatype TokenizeError = IndexOutOfBounds

  // The four token-building helpers. The token deque is never empty when
  // they run: it starts as one empty token and only grows.

  /** Opens a new token holding one code point. */
  function StartNewToken(toks: seq<seq<CodePoint>>, c: CodePoint): (r: seq<seq<CodePoint>>)
    ensures |r| == |toks| + 1 && r[..|toks|] == toks && Last(r) == [c]
    ensures Join(r) == Join(toks) + [c]
  {
    JoinSnoc(toks, [c]);
    toks + [[c]]
  }

  /** Opens a new token holding one half-space. */
  function StartNewTokenWithSpace(toks: seq<seq<CodePoint>>): (r: seq<seq<CodePoint>>)
    ensures |r| == |toks| + 1 && r[..|toks|] == toks && Last(r) == [Space]
    ensures Join(r) == Join(toks) + [Space]
  {
    JoinSnoc(toks, [Space]);
    toks + [[Space]]
  }

  /** Extends the current (last) token by one code point. */
  function AppendToCurrentToken(toks: seq<seq<CodePoint>>, c: CodePoint): (r: seq<seq<CodePoint>>)
    requires |toks| > 0
    ensures |r| == |toks| && r[..|toks| - 1] == toks[..|toks| - 1]
    ensures Last(r) == Last(toks) + [c]
    ensures Join(r) == Join(toks) + [c]
  {
    var n := |toks| - 1;
    assert toks == toks[..n] + [toks[n]];
    JoinSnoc(toks[..n], toks[n]);
    JoinSnoc(toks[..n], toks[n] + [c]);
    toks[..n] + [toks[n] + [c]]
  }

  /** Closes the current token with a trailing half-space. */
  function SealCurrentToken(toks: seq<seq<CodePoint>>): (r: seq<seq<CodePoint>>)
    requires |toks| > 0
    ensures |r| == |toks| && r[..|toks| - 1] == toks[..|toks| - 1]
    ensures Last(r) == Last(toks) + [Space]
    ensures Join(r) == Join(toks) + [Space]
  {
    AppendToCurrentToken(toks, Space)
  }

  /** The loop state of tokenize: the token deque built so far and the
      current token's priority, which is absent right after a space. */
  datatype Scanner = Scanner(toks: seq<seq<CodePoint>>, priority: Option<int>)

  /** The state before the first code point: one empty token, priority 0. */
  const Start: Scanner := Scanner([[]], Some(0))

  /** One iteration of the tokenize loop on the code point c, whose rank p
      the loop has just computed. A space always adds two half-spaces to the
      text; any other code point is added after at most one. */
  function Step(splitPunctuation: bool, st: Scanner, c: CodePoint, p: int): (r: Scanner)
    requires |st.toks| > 0
    ensures |r.toks| >= |st.toks|
    ensures r.priority == if c == Space then None else Some(p)
    ensures c == Space ==> Join(r.toks) == Join(st.toks) + [Space, Space]
    ensures c != Space ==>
              Join(r.toks) == Join(st.toks) + [c] || Join(r.toks) == Join(st.toks) + [Space, c]
    // a code point of the current token's rank continues that token, unless
    // the flag splits runs of rank 2 or lower
    ensures c != Space && st.priority == Some(p) && (p > 2 || !splitPunctuation)
            ==> |r.toks| == |st.toks| && Last(r.toks) == Last(st.toks) + [c]
    ensures c != Space && st.priority == Some(p) && p <= 2 && splitPunctuation
            ==> |r.toks| == |st.toks| + 1 && Last(r.toks) == [c]
  {
    if c == Space then
      var sealed := SealCurrentToken(st.toks);
      Scanner(StartNewTokenWithSpace(sealed), None)
    else if st.priority.None? then
      Scanner(AppendToCurrentToken(st.toks, c), Some(p))
    else if p == st.priority.value && (p > 2 || !splitPunctuation) then
      Scanner(AppendToCurrentToken(st.toks, c), Some(p))
    else if p <= 0 && st.priority.value <= 0 then
      Scanner(StartNewToken(st.toks, c), Some(p))
    else if p <= st.priority.value then
      Scanner(StartNewToken(SealCurrentToken(st.toks), c), Some(p))
    else
      Scanner(AppendToCurrentToken(StartNewTokenWithSpace(st.toks), c), Some(p))
  }

  /** The shape tokenize's deque has after consuming m: apart from the
      first, no token is empty; apart from the first and the last, none is a
      lone half-space; the first is a lone half-space exactly when m starts
      with a space and is otherwise empty; the last is a lone half-space and
      the priority is absent exactly when m ends with a space. */
  ghost predicate Shaped(m: seq<CodePoint>, st: Scanner)
  {
    && |st.toks| > 0
    && (m == [] ==> st == Start)
    && (m != [] ==> |st.toks| >= 2 && st.toks[0] == (if m[0] == Space then [Space] else []))
    && (forall i :: 0 < i < |st.toks| ==> st.toks[i] != [])
    && (forall i :: 0 < i < |st.toks| - 1 ==> st.toks[i] != [Space])
    && (m != [] ==> (Last(st.toks) == [Space] <==> Last(m) == Space))
    && (st.priority.None? <==> m != [] && Last(m) == Space)
  }

  /** The deque after one step, as the unchanged earlier tokens followed by
      what the step makes of the current token. */
  lemma StepToks(splitPunctuation: bool, st: Scanner, c: CodePoint, p: int)
    requires |st.toks| > 0
    ensures var r := Step(splitPunctuation, st, c, p);
            var init, cur := st.toks[..|st.toks| - 1], st.toks[|st.toks| - 1];
            && (c == Space ==> r.toks == init + [cur + [Space], [Space]])
            && (c != Space && (st.priority.None? || (p == st.priority.value && (p > 2 || !splitPunctuation)))
                ==> r.toks == init + [cur + [c]])
            && (c != Space && st.priority.Some? && !(p == st.priority.value && (p > 2 || !splitPunctuation))
                ==> if p <= 0 && st.priority.value <= 0 then r.toks == init + [cur, [c]]
                    else if p <= st.priority.value then r.toks == init + [cur + [Space], [c]]
                    else r.toks == init + [cur, [Space, c]])
  {
    var n := |st.toks|;
    var init, cur := st.toks[..n - 1], st.toks[n - 1];
    assert st.toks == init + [cur];
    var r := Step(splitPunctuation, st, c, p);
    if c != Space && st.priority.Some? && !(p == st.priority.value && (p > 2 || !splitPunctuation))
       && !(p <= 0 && st.priority.value <= 0) && p > st.priority.value {
      var w := StartNewTokenWithSpace(st.toks);
      assert w[..n] == st.toks;
      assert Last(r.toks) == [Space, c];
      assert r.toks == w[..n] + [[Space, c]];
    }
  }

  /** A step that only extends the current token keeps the shape. */
  lemma ShapedAfterOne(m: seq<CodePoint>, st: Scanner, c: CodePoint, r: Scanner, t0: seq<CodePoint>)
    requires Shaped(m, st) && |st.toks| > 1 && c != Space
    requires r.toks == st.toks[..|st.toks| - 1] + [t0]
    requires t0 != [] && t0 != [Space] && r.priority.Some?
    ensures Shaped(m + [c], r)
  {
    var n := |st.toks|;
    var m' := m + [c];
    assert Last(m') == c && m'[0] == m[0];
    assert r.toks[0] == st.toks[..n - 1][0];
    assert forall i :: 0 < i < n - 1 ==> r.toks[i] == st.toks[i];
  }

  /** A step that leaves the current token as t0 and opens t1 keeps the
      shape. */
  lemma ShapedAfterTwo(m: seq<CodePoint>, st: Scanner, c: CodePoint, r: Scanner, t0: seq<CodePoint>, t1: seq<CodePoint>)
    requires Shaped(m, st)
    requires r.toks == st.toks[..|st.toks| - 1] + [t0, t1]
    requires |st.toks| == 1 ==> t0 == (if c == Space then [Space] else [])
    requires |st.toks| > 1 ==> t0 != [] && t0 != [Space]
    requires t1 != [] && (t1 == [Space] <==> c == Space)
    requires r.priority.None? <==> c == Space
    ensures Shaped(m + [c], r)
  {
    var n := |st.toks|;
    var m' := m + [c];
    assert Last(m') == c;
    assert m'[0] == (if m == [] then c else m[0]);
    if n > 1 {
      assert r.toks[0] == st.toks[..n - 1][0];
    }
    assert forall i :: 0 < i < n - 1 ==> r.toks[i] == st.toks[i];
  }

  lemma StepKeepsShape(splitPunctuation: bool, m: seq<CodePoint>, st: Scanner, c: CodePoint, p: int)
    requires Shaped(m, st) && p != 0
    ensures Shaped(m + [c], Step(splitPunctuation, st, c, p))
  {
    var r := Step(splitPunctuation, st, c, p);
    var n := |st.toks|;
    var init, cur := st.toks[..n - 1], st.toks[n - 1];
    StepToks(splitPunctuation, st, c, p);
    assert n == 1 ==> cur == [] && st.priority == Some(0);
    assert n > 1 ==> cur != [] && (cur == [Space] <==> st.priority.None?);
    if c == Space {
      ShapedAfterTwo(m, st, c, r, cur + [Space], [Space]);
    } else if st.priority.None? || (p == st.priority.value && (p > 2 || !splitPunctuation)) {
      ShapedAfterOne(m, st, c, r, cur + [c]);
    } else if p <= 0 && st.priority.value <= 0 {
      ShapedAfterTwo(m, st, c, r, cur, [c]);
    } else if p <= st.priority.value {
      ShapedAfterTwo(m, st, c, r, cur + [Space], [c]);
    } else {
      ShapedAfterTwo(m, st, c, r, cur, [Space, c]);
    }
  }

  /** The state after the tokenize loop has consumed the message m. */
  function Scan(u: Tables, splitPunctuation: bool, m: seq<CodePoint>): (st: Scanner)
    decreases |m|
    ensures Shaped(m, st)
  {
    if m == [] then Start
    else
      var m', c := m[..|m| - 1], m[|m| - 1];
      var prev := Scan(u, splitPunctuation, m');
      assert m == m' + [c];
      var p := CharacterPriority(u, c);
      StepKeepsShape(splitPunctuation, m', prev, c, p);
      Step(splitPunctuation, prev, c, p)
  }

  /** True when some token consists of a single half-space. */
  predicate HasLoneSpace(toks: seq<seq<CodePoint>>)
  {
    exists i :: 0 <= i < |toks| && toks[i] == [Space]
  }

  lemma HasLoneSpaceCons(toks: seq<seq<CodePoint>>)
    requires toks != []
    ensures HasLoneSpace(toks) <==> toks[0] == [Space] || HasLoneSpace(toks[1..])
  {
    if HasLoneSpace(toks) {
      var i :| 0 <= i < |toks| && toks[i] == [Space];
      if i > 0 { assert toks[1..][i - 1] == [Space]; }
    }
    if HasLoneSpace(toks[1..]) {
      var i :| 0 <= i < |toks[1..]| && toks[1..][i] == [Space];
      assert toks[i + 1] == [Space];
    }
  }

  /** The deque after dropping an empty first token. */
  function Trim(toks: seq<seq<CodePoint>>): seq<seq<CodePoint>>
    requires |toks| > 0
  {
    if toks[0] == [] then toks[1..] else toks
  }

  lemma TrimShape(m: seq<CodePoint>, st: Scanner)
    requires Shaped(m, st)
    ensures m == [] ==> Trim(st.toks) == []
    ensures m != [] ==> |Trim(st.toks)| > 0 && Last(Trim(st.toks)) == Last(st.toks)
    ensures forall i :: 0 <= i < |Trim(st.toks)| ==> Trim(st.toks)[i] != []
    ensures HasLoneSpace(Trim(st.toks)) <==> m != [] && (m[0] == Space || Last(m) == Space)
    ensures Join(Trim(st.toks)) == Join(st.toks)
  {
    var t := Trim(st.toks);
    if m != [] {
      if st.toks[0] == [] {
        assert t == st.toks[1..];
        assert forall i :: 0 <= i < |t| ==> t[i] == st.toks[i + 1];
        HasLoneSpaceCons(st.toks);
      } else {
        assert t == st.toks;
        HasLoneSpaceCons(st.toks);
      }
      if HasLoneSpace(t) {
        var i :| 0 <= i < |t| && t[i] == [Space];
        if st.toks[0] == [] {
          assert st.toks[i + 1] == [Space];
        }
      }
      if Last(m) == Space {
        assert t[|t| - 1] == Last(st.toks);
      }
      if m[0] == Space {
        assert t[0] == [Space];
      }
    }
  }

  lemma SealKeepsNoLoneSpace(toks: seq<seq<CodePoint>>)
    requires |toks| > 0 && Last(toks) != [] && Last(toks) != [Space]
    requires forall i :: 0 <= i < |toks| ==> toks[i] != []
    ensures HasLoneSpace(SealCurrentToken(toks)) <==> HasLoneSpace(toks)
    ensures forall i :: 0 <= i < |toks| ==> SealCurrentToken(toks)[i] != []
  {
    var r := SealCurrentToken(toks);
    var n := |toks|;
    assert forall i :: 0 <= i < n - 1 ==> r[i] == toks[i] by {
      forall i | 0 <= i < n - 1 ensures r[i] == toks[i] {
        assert r[..n - 1][i] == toks[..n - 1][i];
      }
    }
    assert r[n - 1] == toks[n - 1] + [Space];
    if HasLoneSpace(r) {
      var i :| 0 <= i < n && r[i] == [Space];
      assert i < n - 1;
    }
    if HasLoneSpace(toks) {
      var i :| 0 <= i < n && toks[i] == [Space];
      assert toks[n - 1] == [Space] || r[i] == [Space];
    }
  }

  /** The token lists tokenize builds before any de-capitalization: the loop,
      then dropping an empty first token, then closing a final token of
      positive rank with a half-space. */
  function Segment(u: Tables, splitPunctuation: bool, m: seq<CodePoint>): (toks: seq<seq<CodePoint>>)
    ensures m == [] ==> toks == []
    ensures forall i :: 0 <= i < |toks| ==> toks[i] != []
    ensures HasLoneSpace(toks) <==> m != [] && (m[0] == Space || Last(m) == Space)
  {
    var st := Scan(u, splitPunctuation, m);
    TrimShape(m, st);
    var trimmed := Trim(st.toks);
    if st.priority.Some? && st.priority.value > 0 then
      assert m != [] && Last(m) != Space;
      assert Last(trimmed) == Last(st.toks) != [Space];
      SealKeepsNoLoneSpace(trimmed);
      SealCurrentToken(trimmed)
    else
      trimmed
  }

  /** The first code point after an optional leading half-space. */
  function Body(tok: seq<CodePoint>): seq<CodePoint>
  {
    if tok != [] && tok[0] == Space then tok[1..] else tok
  }

  /** The leading half-space of a token, if it has one. */
  function Lead(tok: seq<CodePoint>): seq<CodePoint>
  {
    if tok != [] && tok[0] == Space then [Space] else []
  }

  /** decapital's test: the token's first real code point is upper case and
      the next one is absent or not upper case. */
  predicate Capitalized(u: Tables, body: seq<CodePoint>)
  {
    body != [] && u.isUpperCase(body[0]) && (|body| == 1 || !u.isUpperCase(body[1]))
  }

  /** decapital: a capitalized word is replaced by the marker, its leading
      half-space, its first letter lower-cased and the rest; any other token
      is kept. A lone half-space makes the source read past the end. */
  function Decapital(u: Tables, tok: seq<CodePoint>): (r: Result<seq<CodePoint>, TokenizeError>)
    ensures r.Failure? <==> tok == [Space]
    ensures r.Success? && !Capitalized(u, Body(tok)) ==> r.value == tok
    ensures r.Success? && Capitalized(u, Body(tok)) ==>
              r.value == [Cap] + Lead(tok) + [u.toLowerCase(Body(tok)[0])] + Body(tok)[1..]
  {
    if tok == [] then Success([])
    else
      var pre := tok[0] == Space;
      var rest := if pre then tok[1..] else tok;
      if rest == [] then Failure(IndexOutOfBounds)
      else if u.isUpperCase(rest[0]) && (|rest| == 1 || !u.isUpperCase(rest[1])) then
        Success([Cap] + (if pre then [Space] else []) + [u.toLowerCase(rest[0])] + rest[1..])
      else
        Success((if pre then [Space] else []) + rest)
  }

  /** decapital applied to every token in order; the first failure is
      rethrown. */
  function DecapitalAll(u: Tables, toks: seq<seq<CodePoint>>): (r: Result<seq<seq<CodePoint>>, TokenizeError>)
    ensures r.Success? <==> !HasLoneSpace(toks)
    ensures r.Success? ==>
              |r.value| == |toks|
              && forall i :: 0 <= i < |toks| ==> Decapital(u, toks[i]) == Success(r.value[i])
  {
    if toks == [] then Success([])
    else
      HasLoneSpaceCons(toks);
      match Decapital(u, toks[0])
      case Failure(e) => Failure(e)
      case Success(head) =>
        match DecapitalAll(u, toks[1..])
        case Failure(e) => Failure(e)
        case Success(tail) => Success([head] + tail)
  }

  /** RevtokTokenizer.tokenize on a message of code points. */
  function Tokenize(message: seq<CodePoint>, deCapitalize: bool, splitPunctuation: bool, u: Tables)
    : (r: Result<seq<seq<CodePoint>>, TokenizeError>)
    ensures message == [] ==> r == Success([])
    ensures !deCapitalize ==> r.Success? && forall i :: 0 <= i < |r.value| ==> r.value[i] != []
    ensures r.Failure? <==>
              deCapitalize && message != [] && (message[0] == Space || Last(message) == Space)
    ensures r.Success? ==> |r.value| == |Segment(u, splitPunctuation, message)|
  {
    var toks := Segment(u, splitPunctuation, message);
    if deCapitalize then DecapitalAll(u, toks) else Success(toks)
  }
}
