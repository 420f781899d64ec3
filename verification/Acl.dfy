/** Partitioning a list of record ids in place, as the role commands do: known ids
    stay, unknown ids move to a second list. */
module Acl {
  function Kept(ids: seq<string>, known: set<string>): seq<string> {
    if ids == [] then []
    else (if ids[0] in known then [ids[0]] else []) + Kept(ids[1..], known)
  }

  function Removed(ids: seq<string>, known: set<string>): seq<string> {
    if ids == [] then []
    else (if ids[0] in known then [] else [ids[0]]) + Removed(ids[1..], known)
  }

  /** The two lists split the ids by presence and lose none. */
  lemma {:induction false} Partitions(ids: seq<string>, known: set<string>)
    ensures multiset(Kept(ids, known)) + multiset(Removed(ids, known)) == multiset(ids)
    ensures forall r :: r in Kept(ids, known) ==> r in known
    ensures forall r :: r in Removed(ids, known) ==> r !in known
  {
    if ids != [] {
      Partitions(ids[1..], known);
      assert ids == [ids[0]] + ids[1..];
    }
  }

  lemma NoneLeft(known: set<string>)
    ensures Kept([], known) == [] && Removed([], known) == []
  {
  }

  /** One turn of the erasing loop, by what it does to the rest of the list. */
  lemma OneMore(rest: seq<string>, known: set<string>)
    requires rest != []
    ensures Kept(rest, known) == (if rest[0] in known then [rest[0]] else []) + Kept(rest[1..], known)
    ensures Removed(rest, known) == (if rest[0] in known then [] else [rest[0]]) + Removed(rest[1..], known)
  {
  }

  /** The two lists keep the ids in the order they came in: part by part. */
  lemma {:induction false} InOrder(a: seq<string>, b: seq<string>, known: set<string>)
    ensures Kept(a + b, known) == Kept(a, known) + Kept(b, known)
    ensures Removed(a + b, known) == Removed(a, known) + Removed(b, known)
  {
    hide Kept, Removed;
    NoneLeft(known);
    if a == [] {
      assert a + b == b;
    } else {
      assert (a + b)[1..] == a[1..] + b;
      OneMore(a, known);
      OneMore(a + b, known);
      InOrder(a[1..], b, known);
    }
  }

  class IdLists {
    var resourceIds: seq<string>
    var removedIds: seq<string>

    constructor (ids: seq<string>)
      ensures resourceIds == ids && removedIds == []
    {
      resourceIds, removedIds := ids, [];
    }

    /** Erases while iterating: the iterator stays put after an erase. */
    method RemoveUnknown(known: set<string>)
      modifies this
      ensures resourceIds == Kept(old(resourceIds), known)
      ensures removedIds == old(removedIds) + Removed(old(resourceIds), known)
    {
      hide Kept, Removed;
      NoneLeft(known);
      assert resourceIds[0..] == resourceIds;
      var i := 0;
      while i != |resourceIds|
        invariant 0 <= i <= |resourceIds|
        invariant resourceIds[..i] + Kept(resourceIds[i..], known) == Kept(old(resourceIds), known)
        invariant removedIds + Removed(resourceIds[i..], known) == old(removedIds) + Removed(old(resourceIds), known)
        decreases |resourceIds| - i
      {
        ghost var rest := resourceIds[i..];
        OneMore(rest, known);
        if resourceIds[i] !in known {
          removedIds := removedIds + [resourceIds[i]];
          resourceIds := resourceIds[..i] + resourceIds[i + 1..];
          assert resourceIds[i..] == rest[1..];
        } else {
          assert resourceIds[..i + 1] == resourceIds[..i] + [rest[0]];
          assert resourceIds[i + 1..] == rest[1..];
          i := i + 1;
        }
      }
      assert resourceIds[i..] == [] && resourceIds[..i] == resourceIds;
    }
  }
}
