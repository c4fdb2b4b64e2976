/** Result types shared by the modules of this project. */
module Common {
  datatype Option<+T> = None | Some(value: T)

  datatype Result<+T, +E> = Ok(value: T) | Err(error: E)

  predicate Among(ids: set<int>, id: int) {
    id in ids
  }

  lemma SomeId(ids: set<int>)
    requires ids != {}
    ensures exists id :: Among(ids, id)
  {
    if forall id :: !Among(ids, id) {
      forall id ensures id !in ids { assert !Among(ids, id); }
    }
  }

  /** Any id of the set, as ranging over a Go map picks one. */
  method AnyOf(ids: set<int>) returns (id: int)
    requires ids != {}
    ensures id in ids
  {
    SomeId(ids);
    id :| Among(ids, id);
  }

  /** An id beyond all that are taken. */
  lemma FreshIds(ids: set<nat>) returns (n: nat)
    ensures forall i :: i in ids ==> i < n
  {
    n := 0;
    var rest := ids;
    while rest != {}
      invariant forall i :: i in ids && i !in rest ==> i < n
      decreases rest
    {
      SomeId(rest);
      var i: int :| Among(rest, i);
      if i >= n { n := i + 1; }
      rest := rest - {i};
    }
  }
}
