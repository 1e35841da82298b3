/** The `Set` updates the pages use to expand, collapse and select. */
module Sets {

  /** `has(x) ? delete(x) : add(x)` on a copy of `s`. */
  function Toggle<T(!new)>(s: set<T>, x: T): (r: set<T>)
    ensures x in r <==> x !in s
    ensures forall y :: y != x ==> (y in r <==> y in s)
  {
    if x in s then s - {x} else s + {x}
  }

  /** Toggling the same element twice restores the set. */
  lemma ToggleTwice<T(!new)>(s: set<T>, x: T)
    ensures Toggle(Toggle(s, x), x) == s
  {
    var once := Toggle(s, x);
    var twice := Toggle(once, x);
    assert forall y :: y in twice <==> y in s;
  }
}
