/**
 * The single-slot lazy cache of ComplexLogistic/Memoize.swift. The Swift
 * constructor closure is a total function of no arguments here; Dafny's `->`
 * arrow reads no state, so every call of it yields the same value.
 */
module Memoization {
  import opened Wrappers

  class Memoize<T> {
    /** The function that produces the value on first use. */
    const construct: () -> T
    /** The cached value, absent until the first `Get`. */
    var cached: Option<T>
    /** How many times `construct` has been run. */
    ghost var runs: nat

    /**
     * The cache is empty exactly when the constructor has never run, it has
     * run at most once, and a cached value is the constructor's value.
     */
    ghost predicate Valid()
      reads this
    {
      runs <= 1
      && (cached.None? <==> runs == 0)
      && (cached.Some? ==> cached.value == construct())
    }

    /** Stores the constructor and leaves the cache empty. */
    constructor (aConstructor: () -> T)
      ensures Valid()
      ensures construct == aConstructor
      ensures cached == None && runs == 0
    {
      construct := aConstructor;
      cached := None;
      runs := 0;
    }

    /**
     * Returns the cached value, running the constructor and storing its
     * value only when the cache is still empty.
     */
    method Get() returns (r: T)
      requires Valid()
      modifies this
      ensures Valid()
      ensures r == construct()
      ensures cached == Some(r)
      ensures runs == 1
      ensures old(cached).Some? ==> r == old(cached).value && runs == old(runs)
      ensures old(cached).None? ==> runs == old(runs) + 1
    {
      if cached.Some? {
        return cached.value;
      }
      cached := Some(construct());
      runs := runs + 1;
      r := cached.value;
    }
  }

  /** Two calls of `Get` return the same value and run the constructor at most once in all. */
  method GetTwice<T>(m: Memoize<T>) returns (first: T, second: T)
    requires m.Valid()
    modifies m
    ensures m.Valid()
    ensures first == second == m.construct()
    ensures m.runs == 1 && m.runs <= old(m.runs) + 1
    ensures m.cached == Some(first)
  {
    first := m.Get();
    second := m.Get();
  }
}
