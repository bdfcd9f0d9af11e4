/** Small facts about string concatenation, stated over arbitrary strings. */
module Strings {
  lemma EmptyAppend(a: string)
    ensures "" + a == a
  {
  }

  lemma AppendEmpty(a: string)
    ensures a + "" == a
  {
  }

  lemma AppendAssoc(a: string, b: string, c: string)
    ensures a + (b + c) == a + b + c
  {
  }

  /** Two strings that differ at one position stay different inside the same context. */
  lemma DifferentInContext(front: string, a: string, b: string, back: string, k: nat)
    requires k < |a| && k < |b| && a[k] != b[k]
    ensures front + a + back != front + b + back
  {
    assert (front + a + back)[|front| + k] == a[k];
    assert (front + b + back)[|front| + k] == b[k];
  }
}
