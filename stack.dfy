/**
 * The last-in-first-out container of the demo: `Stack<T>`, an array of items
 * that `push` and `pop` change in place at its end.
 *
 * Contents are written bottom first, so the top of the stack is the LAST
 * element of the sequence, as in `Stack`'s `items` array.
 */
module Stacks {
  import opened Wrappers

  /** The top of a stack with contents `s`: its last element, or absent when `s` is empty. */
  function Top<T>(s: seq<T>): (r: Option<T>)
    ensures r.None? <==> s == []
    ensures r.Some? ==> r.value == s[|s| - 1]
  {
    if s == [] then None else Some(s[|s| - 1])
  }

  /**
   * The effect of one `pop` on contents `s`: the value removed and the
   * contents left. Popping an empty stack gives absent and leaves it empty;
   * otherwise pushing the popped value back restores `s`.
   */
  function PopStep<T>(s: seq<T>): (r: (Option<T>, seq<T>))
    ensures r.0 == Top(s)
    ensures s == [] ==> r.1 == []
    ensures s != [] ==> r.1 + [r.0.value] == s
  {
    if s == [] then (None, []) else (Some(s[|s| - 1]), s[..|s| - 1])
  }

  /** `n` pops in a row on contents `s`: the values returned, in order, and the contents left. */
  function PopMany<T>(s: seq<T>, n: nat): (r: (seq<Option<T>>, seq<T>))
    ensures |r.0| == n
  {
    if n == 0 then ([], s)
    else
      var (x, rest) := PopStep(s);
      var (xs, left) := PopMany(rest, n - 1);
      ([x] + xs, left)
  }

  /** Popping right after pushing `x` returns `x` and gives back the earlier contents. */
  lemma PopUndoesPush<T>(s: seq<T>, x: T)
    ensures PopStep(s + [x]) == (Some(x), s)
  {
  }

  /**
   * LIFO order: after pushing `xs` onto contents `s`, popping `|xs|` times
   * returns the pushed values newest first and leaves exactly `s`.
   */
  lemma {:induction false} PopsReversePushes<T>(s: seq<T>, xs: seq<T>)
    ensures PopMany(s + xs, |xs|).1 == s
    ensures forall i :: 0 <= i < |xs| ==> PopMany(s + xs, |xs|).0[i] == Some(xs[|xs| - 1 - i])
  {
    if xs != [] {
      var init, last := xs[..|xs| - 1], xs[|xs| - 1];
      assert xs == init + [last];
      assert s + xs == (s + init) + [last];
      PopUndoesPush(s + init, last);
      PopsReversePushes(s, init);
      var r := PopMany(s + xs, |xs|);
      var r' := PopMany(s + init, |init|);
      assert r.0 == [Some(last)] + r'.0 && r.1 == r'.1;
    }
  }

  /**
   * Pushing `xs` onto an empty stack and popping it `|xs|` times returns the
   * values in reverse order; one more pop then returns absent on an empty stack.
   */
  lemma DrainedStackIsEmpty<T>(xs: seq<T>)
    ensures forall i :: 0 <= i < |xs| ==> PopMany(xs, |xs|).0[i] == Some(xs[|xs| - 1 - i])
    ensures PopMany(xs, |xs|).1 == []
    ensures PopStep(PopMany(xs, |xs|).1) == (None, [])
  {
    PopsReversePushes([], xs);
    assert [] + xs == xs;
  }

  /** `Stack<T>`: the items, bottom first, in a field that `Push` and `Pop` reassign. */
  class Stack<T> {
    var items: seq<T>
    /** Number of pushes so far, and of pops that removed an element. */
    ghost var pushes: nat
    ghost var pops: nat

    /** The size is always the number of elements pushed minus the number popped. */
    ghost predicate Valid()
      reads this
    {
      |items| + pops == pushes
    }

    constructor ()
      ensures Valid()
      ensures items == [] && pushes == 0 && pops == 0
    {
      items := [];
      pushes, pops := 0, 0;
    }

    /** Appends `item` as the new top; the elements below it are unchanged. */
    method Push(item: T)
      requires Valid()
      modifies this
      ensures Valid()
      ensures items == old(items) + [item]
      ensures PopStep(items) == (Some(item), old(items))
      ensures pushes == old(pushes) + 1 && pops == old(pops)
    {
      PopUndoesPush(items, item);
      items := items + [item];
      pushes := pushes + 1;
    }

    /** Removes and returns the top element; on an empty stack returns absent and changes nothing. */
    method Pop() returns (item: Option<T>)
      requires Valid()
      modifies this
      ensures Valid()
      ensures (item, items) == PopStep(old(items))
      ensures pushes == old(pushes)
      ensures pops == old(pops) + (if item.Some? then 1 else 0)
    {
      if items == [] {
        item := None;
      } else {
        item := Some(items[|items| - 1]);
        items := items[..|items| - 1];
        pops := pops + 1;
      }
    }

    /** The element `Pop` would return, without removing it. */
    method Peek() returns (item: Option<T>)
      ensures item == PopStep(items).0
      ensures item.Some? ==> item.value == items[|items| - 1]
      ensures item.None? <==> items == []
    {
      if items == [] {
        item := None;
      } else {
        item := Some(items[|items| - 1]);
      }
    }

    method IsEmpty() returns (empty: bool)
      ensures empty <==> items == []
      ensures empty <==> Top(items).None?
    {
      empty := |items| == 0;
    }

    method Size() returns (n: nat)
      requires Valid()
      ensures n == |items| && n == pushes - pops
    {
      n := |items|;
    }
  }
}
