/**
 * The last-in-first-out history stack of ComplexLogistic/Stack.swift:
 * a wrapper around an array that is only ever appended to, truncated at
 * its end, or emptied.
 */
module Stacks {

  class Stack<T> {
    /** The stack's contents, bottom first; the top is the last element. */
    var items: seq<T>

    /** A new stack holds no items. */
    constructor ()
      ensures items == []
      ensures IsEmpty()
    {
      items := [];
    }

    /** True exactly when the stack holds no items; reads but never changes the stack. */
    function IsEmpty(): (empty: bool)
      reads this
      ensures empty <==> |items| == 0
    {
      items == []
    }

    /** Appends `item` on top; every item already there stays where it was. */
    method Push(item: T)
      modifies this
      ensures items == old(items) + [item]
      ensures |items| == |old(items)| + 1
    {
      items := items + [item];
    }

    /**
     * Removes and returns the top item. Swift's `removeLast` traps on an
     * empty array, so callers must not pop an empty stack.
     */
    method Pop() returns (item: T)
      requires items != []
      modifies this
      ensures item == old(items)[|old(items)| - 1]
      ensures items == old(items)[..|old(items)| - 1]
    {
      item := items[|items| - 1];
      items := items[..|items| - 1];
    }

    /** Drops every item. */
    method Clear()
      modifies this
      ensures items == []
      ensures IsEmpty()
    {
      items := [];
    }
  }

  /** Pushing and then popping gives back the pushed item and the stack as it was. */
  method PushThenPop<T>(s: Stack<T>, x: T) returns (y: T)
    modifies s
    ensures y == x
    ensures s.items == old(s.items)
  {
    s.Push(x);
    y := s.Pop();
  }
}
