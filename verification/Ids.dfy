/** What all tables share: row ids that are never used up, and digests of generated secrets. */
module Ids {
  /** SHA-256 of a raw token, taken to be injective. */
  datatype Digest = Digest(raw: string)

  lemma {:induction false} UnusedId(used: set<nat>)
    ensures exists x: nat :: x !in used
  {
    var top: nat := 0;
    var rest := used;
    while rest != {}
      invariant forall x :: x in used && x !in rest ==> x <= top
      decreases rest
    {
      var x :| x in rest;
      rest := rest - {x};
      top := if x > top then x else top;
    }
    assert top + 1 !in used;
  }

  /** The all-zero id stays unused as well. */
  lemma FreshId(used: set<nat>)
    ensures exists x: nat :: x != 0 && x !in used
  {
    UnusedId(used + {0});
    var x: nat :| x !in used + {0};
    assert x != 0 && x !in used;
  }
}
