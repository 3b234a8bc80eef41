/** Implementation: a dependency list plus the closure that reads each
    dependency from a session, in order, and applies the formula to the
    values. */
module NifflerImplementation {
  import opened Wrappers
  import opened NifflerToken
  import opened NifflerSession

  /** The formula: the Python callable, taking the dependency values as
      positional arguments; it may raise. */
  type Formula = seq<Value> -> Result<Value, PyError>

  datatype Implementation = Implementation(dependencies: seq<Token>, formula: Formula)

  /** Every dependency has a value in the session. */
  predicate AllSet(s: Session, deps: seq<Token>)
  {
    forall i :: 0 <= i < |deps| ==> deps[i] in s.storage
  }

  /** [session.get(t) for t in dependencies]: the values in declared order,
      or the KeyError of the first dependency with no value. */
  function Gather(s: Session, deps: seq<Token>): (r: Result<seq<Value>, PyError>)
    ensures r.Success? <==> AllSet(s, deps)
    ensures r.Success? ==>
              |r.value| == |deps| && forall i :: 0 <= i < |deps| ==> r.value[i] == s.storage[deps[i]]
    ensures r.Failure? ==>
              exists k :: 0 <= k < |deps| && r.error == KeyError(deps[k]) && deps[k] !in s.storage
                          && AllSet(s, deps[..k])
  {
    if deps == [] then Success([])
    else
      match Get(s, deps[0])
      case Failure(e) =>
        assert deps[..0] == [];
        Failure(e)
      case Success(v) =>
        match Gather(s, deps[1..])
        case Failure(e) =>
          ghost var k :| 0 <= k < |deps[1..]| && e == KeyError(deps[1..][k]) && deps[1..][k] !in s.storage
                         && AllSet(s, deps[1..][..k]);
          assert deps[..k + 1] == [deps[0]] + deps[1..][..k];
          Failure(e)
        case Success(vs) => Success([v] + vs)
  }

  /** impl.func(session): the formula applied to the dependencies' values;
      a dependency with no value raises KeyError before the formula runs. */
  function Call(impl: Implementation, s: Session): (r: Result<Value, PyError>)
    ensures !AllSet(s, impl.dependencies) ==>
              exists k :: 0 <= k < |impl.dependencies| && r == Failure(KeyError(impl.dependencies[k]))
                          && impl.dependencies[k] !in s.storage && AllSet(s, impl.dependencies[..k])
    ensures AllSet(s, impl.dependencies) ==>
              exists args :: r == impl.formula(args) && |args| == |impl.dependencies|
                             && forall i :: 0 <= i < |args| ==> args[i] == s.storage[impl.dependencies[i]]
  {
    match Gather(s, impl.dependencies)
    case Failure(e) => Failure(e)
    case Success(args) => impl.formula(args)
  }

  /** When a dependency is missing the formula is never consulted: any two
      formulas over the same dependencies fail alike. */
  lemma MissingDependencyFailsBeforeFormula(deps: seq<Token>, f: Formula, g: Formula, s: Session)
    requires !AllSet(s, deps)
    ensures Call(Implementation(deps, f), s) == Call(Implementation(deps, g), s)
    ensures Call(Implementation(deps, f), s).Failure?
  {
  }

  /** The formula of the session test: v2 repeated v1 times. */
  function Repeat(args: seq<Value>): Result<Value, PyError>
  {
    if |args| != 2 then Failure(TypeError("expected two arguments"))
    else if !args[0].Int? then Failure(TypeError("range count must be an integer"))
    else
      var n := if args[0].i < 0 then 0 else args[0].i;
      Success(List(seq(n, _ => args[1])))
  }

  /** Dependencies [t1, t2] with t1 = 5 and t2 = "a", and a formula that
      repeats v2 v1 times, give ["a", "a", "a", "a", "a"]. */
  lemma RepeatExample()
    ensures var (t1, h1) := NewToken(Heap(0), "t1", "t1uuid", "t1", "t1", "int");
            var (t2, _) := NewToken(h1, "t2", "t2uuid", "t2", "t2", "str");
            var s := Set(Set(NewSession(), t1, Int(5)), t2, Str("a"));
            Call(Implementation([t1, t2], Repeat), s)
            == Success(List([Str("a"), Str("a"), Str("a"), Str("a"), Str("a")]))
  {
    var (t1, h1) := NewToken(Heap(0), "t1", "t1uuid", "t1", "t1", "int");
    var (t2, _) := NewToken(h1, "t2", "t2uuid", "t2", "t2", "str");
    var s := Set(Set(NewSession(), t1, Int(5)), t2, Str("a"));
    assert t1 != t2;
    assert Get(s, t1) == Success(Int(5)) && Get(s, t2) == Success(Str("a"));
    assert AllSet(s, [t1, t2]);
    var g := Gather(s, [t1, t2]);
    assert g.Success? && |g.value| == 2;
    assert g.value[0] == Int(5) && g.value[1] == Str("a");
    assert g.value == [Int(5), Str("a")];
    var five := seq(5, _ => Str("a"));
    assert five == [Str("a"), Str("a"), Str("a"), Str("a"), Str("a")];
  }
}
