/** The Python Token record. Token defines no equality of its own, so two
    tokens are the same dictionary key only when they are the same object;
    the model carries that object identity as an explicit field handed out
    by an allocation counter. */
module NifflerToken {

  /** Where fresh object identities come from. */
  datatype Heap = Heap(next: nat)

  datatype Token = Token(
    identity: nat,
    codeName: string,
    uuid: string,
    summaryName: string,
    description: string,
    typeName: string)

  /** Token(code_name, uuid, summary_name, description, type_name): a new
      object holding its five arguments unchanged. */
  function NewToken(h: Heap, codeName: string, uuid: string, summaryName: string,
                    description: string, typeName: string): (r: (Token, Heap))
    ensures r.0.codeName == codeName && r.0.uuid == uuid && r.0.summaryName == summaryName
    ensures r.0.description == description && r.0.typeName == typeName
    ensures forall t: Token :: t.identity < h.next ==> t != r.0
    ensures h.next < r.1.next
  {
    (Token(h.next, codeName, uuid, summaryName, description, typeName), Heap(h.next + 1))
  }

  /** Two tokens constructed one after the other are different keys even
      when every argument is the same. */
  lemma EqualArgumentsDistinctTokens(h: Heap, codeName: string, uuid: string, summaryName: string,
                                     description: string, typeName: string)
    ensures var (t1, h1) := NewToken(h, codeName, uuid, summaryName, description, typeName);
            var (t2, _) := NewToken(h1, codeName, uuid, summaryName, description, typeName);
            t1 != t2
  {
  }
}
