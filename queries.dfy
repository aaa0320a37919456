/** Which document a query's `docs[0]` is. Without an explicit order, Firestore returns
    the documents matching a query in ascending order of their ids, compared character
    by character. */
module Queries {
  import opened JsValues

  /** The least id of a non-empty set of ids. */
  ghost function FirstId(ids: set<string>): (r: string)
    requires ids != {}
    ensures r in ids && forall x :: x in ids ==> StrLe(r, x)
  {
    var x :| x in ids;
    StrLeReflexive(x);
    if ids == {x} then x
    else
      var m := FirstId(ids - {x});
      StrLeTotal(x, m);
      LowerBoundThrough(x, m, ids - {x});
      if StrLe(x, m) then x else m
  }

  lemma LowerBoundThrough(x: string, m: string, ids: set<string>)
    requires forall y :: y in ids ==> StrLe(m, y)
    ensures StrLe(x, m) ==> forall y :: y in ids ==> StrLe(x, y)
  {
    if StrLe(x, m) {
      forall y | y in ids ensures StrLe(x, y) {
        StrLeTransitive(x, m, y);
      }
    }
  }

  /** An id no greater than every id of the set is its first one. */
  lemma FirstIdUnique(ids: set<string>, k: string)
    requires k in ids && forall x :: x in ids ==> StrLe(k, x)
    ensures FirstId(ids) == k
  {
    StrLeAntisymmetric(k, FirstId(ids));
  }

  /** Finds the first id by one pass over the set. */
  method FindFirstId(ids: set<string>) returns (r: string)
    requires ids != {}
    ensures r == FirstId(ids)
  {
    var rest := ids;
    r :| r in rest;
    StrLeReflexive(r);
    rest := rest - {r};
    while rest != {}
      invariant rest <= ids && r in ids
      invariant forall x :: x in ids && x !in rest ==> StrLe(r, x)
      decreases rest
    {
      var x :| x in rest;
      StrLeTotal(x, r);
      StrLeReflexive(x);
      if !StrLe(r, x) {
        LowerBoundThrough(x, r, ids - rest);
        r := x;
      }
      rest := rest - {x};
    }
    FirstIdUnique(ids, r);
  }
}
