/**
 * The occupant list of a square, seen as a value: `List.add` appends at the
 * end, and `List.remove(Object)` deletes the first element that is the same
 * reference as its argument, leaving the order of the rest alone.
 */
module Occupants {

  /** The position of the first occurrence of `x` in `s`. */
  function FirstIndex<T(==)>(s: seq<T>, x: T): (i: nat)
    requires x in s
    ensures i < |s| && s[i] == x
    ensures forall j :: 0 <= j < i ==> s[j] != x
  {
    if s[0] == x then 0 else 1 + FirstIndex(s[1..], x)
  }

  /**
   * `s` with its first occurrence of `x` deleted; `s` itself when `x` does
   * not occur. Exactly one element goes, and only when `x` was there.
   */
  function RemoveFirst<T(==)>(s: seq<T>, x: T): (r: seq<T>)
    ensures |r| == if x in s then |s| - 1 else |s|
    ensures forall y :: y in r ==> y in s
  {
    if s == [] then []
    else if s[0] == x then s[1..]
    else [s[0]] + RemoveFirst(s[1..], x)
  }

  /** Removing a character that is not there changes nothing. */
  lemma {:induction false} RemoveFirstAbsent<T>(s: seq<T>, x: T)
    requires x !in s
    ensures RemoveFirst(s, x) == s
  {
    if s != [] {
      RemoveFirstAbsent(s[1..], x);
    }
  }

  /**
   * Removing a character that is there cuts out exactly its first
   * occurrence: everything before it and everything after it stays, in order.
   */
  lemma {:induction false} RemoveFirstSplice<T>(s: seq<T>, x: T)
    requires x in s
    ensures RemoveFirst(s, x) == s[..FirstIndex(s, x)] + s[FirstIndex(s, x) + 1..]
  {
    if s[0] != x {
      RemoveFirstSplice(s[1..], x);
      assert s[1..][..FirstIndex(s[1..], x)] == s[1..FirstIndex(s, x)];
      assert s[1..][FirstIndex(s[1..], x) + 1..] == s[FirstIndex(s, x) + 1..];
    }
  }

  /** As a bag, removal takes away one copy of `x` and nothing else. */
  lemma {:induction false} RemoveFirstMultiset<T>(s: seq<T>, x: T)
    ensures multiset(RemoveFirst(s, x)) == multiset(s) - multiset{x}
  {
    if s != [] {
      assert s == [s[0]] + s[1..];
      if s[0] != x {
        RemoveFirstMultiset(s[1..], x);
      }
    }
  }

  /**
   * Adding a character and then removing it: when it was not already there
   * the list is back to what it was; otherwise the earlier occurrence goes
   * and the new one stays on top.
   */
  lemma {:induction false} RemoveFirstAfterAppend<T>(s: seq<T>, x: T)
    ensures RemoveFirst(s + [x], x) == if x in s then RemoveFirst(s, x) + [x] else s
  {
    if s == [] {
      assert [] + [x] == [x];
    } else {
      assert (s + [x])[1..] == s[1..] + [x];
      if s[0] != x {
        RemoveFirstAfterAppend(s[1..], x);
        assert s == [s[0]] + s[1..];
      }
    }
  }
}
