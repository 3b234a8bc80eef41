/** NifflerSession: the values computed so far, as a dictionary from token
    to value. */
module NifflerSession {
  import opened Wrappers
  import opened NifflerToken

  /** The Python values a session holds and formulas exchange. */
  datatype Value =
    | NoneValue
    | Int(i: int)
    | Str(s: string)
    | List(items: seq<Value>)

  /** The exceptions the session and the implementation closure raise. */
  datatype PyError =
    | KeyError(key: Token)
    | TypeError(message: string)

  datatype Session = Session(storage: map<Token, Value>)

  /** NifflerSession.get: the stored value, or KeyError for a token never
      set. */
  function Get(s: Session, t: Token): (r: Result<Value, PyError>)
    ensures r.Success? <==> t in s.storage
    ensures r.Success? ==> r.value == s.storage[t]
    ensures r.Failure? ==> r.error == KeyError(t)
  {
    if t in s.storage then Success(s.storage[t]) else Failure(KeyError(t))
  }

  /** NifflerSession(): a session holding no tokens. */
  function NewSession(): (s: Session)
    ensures forall t :: Get(s, t) == Failure(KeyError(t))
  {
    Session(map[])
  }

  /** NifflerSession.set: t now maps to v and every other token is
      unaffected. */
  function Set(s: Session, t: Token, v: Value): (r: Session)
    ensures Get(r, t) == Success(v)
    ensures forall k :: k != t ==> Get(r, k) == Get(s, k)
  {
    Session(s.storage[t := v])
  }

  /** Setting a token twice keeps the second value. */
  lemma SetTwiceKeepsLast(s: Session, t: Token, v: Value, w: Value)
    ensures forall k :: Get(Set(Set(s, t, v), t, w), k) == Get(Set(s, t, w), k)
  {
  }
}
