/** The vector operations shared by the executors, and what they mean on sequences. */
module Sequences {

  predicate NoDuplicates<T(==)>(s: seq<T>) {
    forall i, j :: 0 <= i < j < |s| ==> s[i] != s[j]
  }

  /** The sequence without its first occurrence of `item`; unchanged if there is none. */
  function RemoveFirst<T(==)>(s: seq<T>, item: T): seq<T> {
    if s == [] then [] else if s[0] == item then s[1..] else [s[0]] + RemoveFirst(s[1..], item)
  }

  /** The elements of `s` that satisfy `keep`, in order. */
  function Filter<T>(keep: T -> bool, s: seq<T>): seq<T> {
    if s == [] then [] else (if keep(s[0]) then [s[0]] else []) + Filter(keep, s[1..])
  }

  /** The linear scan that erases the first match of an item from a vector. */
  method RemoveVectorItem<T(==)>(list: seq<T>, item: T) returns (rest: seq<T>)
    ensures rest == RemoveFirst(list, item)
  {
    var i := 0;
    while i < |list| && list[i] != item
      invariant 0 <= i <= |list|
      invariant RemoveFirst(list, item) == list[..i] + RemoveFirst(list[i..], item)
    {
      assert list[i..] == [list[i]] + list[i + 1..];
      assert list[..i + 1] == list[..i] + [list[i]];
      i := i + 1;
    }
    if i < |list| {
      rest := list[..i] + list[i + 1..];
    } else {
      rest := list;
    }
  }

  lemma HeadNotInTail<T>(s: seq<T>)
    requires s != [] && NoDuplicates(s)
    ensures s[0] !in s[1..] && NoDuplicates(s[1..])
  {
    forall j | 0 <= j < |s[1..]| ensures s[1..][j] != s[0] {
      assert s[1..][j] == s[j + 1];
    }
  }

  /** On a duplicate-free vector, erasing an item removes that item and nothing else. */
  lemma {:induction false} RemoveFirstRemovesExactly<T>(s: seq<T>, item: T)
    requires NoDuplicates(s)
    ensures NoDuplicates(RemoveFirst(s, item))
    ensures forall x :: x in RemoveFirst(s, item) <==> x in s && x != item
  {
    if s == [] {
    } else {
      HeadNotInTail(s);
      RemoveFirstRemovesExactly(s[1..], item);
      assert s == [s[0]] + s[1..];
    }
  }

  lemma {:induction false} RemoveFirstAppended<T>(s: seq<T>, item: T)
    requires item !in s
    ensures RemoveFirst(s + [item], item) == s
  {
    if s == [] {
      assert s + [item] == [item];
    } else {
      assert (s + [item])[1..] == s[1..] + [item];
      RemoveFirstAppended(s[1..], item);
    }
  }

  lemma {:induction false} FilterKeeps<T>(keep: T -> bool, s: seq<T>)
    ensures forall x :: x in Filter(keep, s) <==> x in s && keep(x)
    ensures NoDuplicates(s) ==> NoDuplicates(Filter(keep, s))
  {
    if s == [] {
    } else {
      FilterKeeps(keep, s[1..]);
      assert s == [s[0]] + s[1..];
      if NoDuplicates(s) {
        HeadNotInTail(s);
      }
    }
  }

  lemma {:induction false} FilterAll<T>(keep: T -> bool, s: seq<T>)
    requires forall x :: x in s ==> keep(x)
    ensures Filter(keep, s) == s
  {
    if s == [] {
    } else {
      FilterAll(keep, s[1..]);
    }
  }
}
