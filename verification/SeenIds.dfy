/** The list of server identifiers already displayed (src/id.c, `is_message_duplicate`). */
module SeenIds {
  import opened Base

  /** The list after one call: unchanged for a duplicate, longer by one otherwise. */
  function Remember(seen: seq<Id>, id: Id): seq<Id> {
    if id in seen then seen else seen + [id]
  }

  ghost predicate Distinct(s: seq<Id>) {
    forall i, j :: 0 <= i < j < |s| ==> s[i] != s[j]
  }

  /** The list after a whole stream of calls, starting from nothing. */
  function RememberAll(ids: seq<Id>): seq<Id> {
    if ids == [] then [] else Remember(RememberAll(ids[..|ids| - 1]), ids[|ids| - 1])
  }

  lemma RememberAllOne(ids: seq<Id>, id: Id)
    ensures RememberAll(ids + [id]) == Remember(RememberAll(ids), id)
  {
    assert (ids + [id])[..|ids|] == ids;
  }

  /** The stream with every element dropped that already occurred before it. */
  function FirstOccurrences(ids: seq<Id>): seq<Id> {
    if ids == [] then []
    else
      var before, last := ids[..|ids| - 1], ids[|ids| - 1];
      FirstOccurrences(before) + if last in before then [] else [last]
  }

  /** The list is the stream's set of identifiers, once each, in order of first arrival. */
  lemma {:induction false} RememberAllIsFirstOccurrences(ids: seq<Id>)
    ensures RememberAll(ids) == FirstOccurrences(ids)
    ensures Distinct(RememberAll(ids))
    ensures forall x :: x in RememberAll(ids) <==> x in ids
  {
    if ids != [] {
      var before, last := ids[..|ids| - 1], ids[|ids| - 1];
      RememberAllIsFirstOccurrences(before);
      assert ids == before + [last];
    }
  }

  lemma RememberKeepsDistinct(seen: seq<Id>, id: Id)
    requires Distinct(seen)
    ensures Distinct(Remember(seen, id))
  {
  }

  /** Pigeonhole: a list of distinct numbers below n has at most n elements. */
  lemma {:induction false} Pigeonhole(s: seq<Id>, n: nat)
    requires Distinct(s) && forall i :: 0 <= i < |s| ==> s[i] < n
    ensures |s| <= n
  {
    if s != [] {
      assert 0 <= s[0] < n;
      if i :| 0 <= i < |s| && s[i] == n - 1 {
        var rest := s[..i] + s[i + 1..];
        assert forall j :: 0 <= j < |rest| ==> rest[j] == s[if j < i then j else j + 1];
        Pigeonhole(rest, n - 1);
      } else {
        Pigeonhole(s, n - 1);
      }
    }
  }

  /** The globals `seen_ids`, `seen_count` and `seen_ids_array_size`. */
  class SeenTable {
    var ids: array<Id>
    var count: nat
    /** Elements moved by all calls of `realloc` so far. */
    ghost var copied: nat

    ghost function View(): seq<Id>
      reads this, ids
      requires count <= ids.Length
    {
      ids[..count]
    }

    ghost predicate Valid()
      reads this, ids
    {
      && count <= ids.Length
      && Distinct(View())
      && count <= 0x1_0000
      && IsCapacity(ids.Length) && ids.Length <= 102400
      && (ids.Length == 100 || ids.Length < 2 * count)
      && copied + 100 == ids.Length
    }

    constructor ()
      ensures Valid() && View() == [] && fresh(ids) && ids.Length == 100
    {
      ids := new Id[INITIAL_CAPACITY];
      count, copied := 0, 0;
      new;
      InitialIsCapacity();
    }

    /** `is_message_duplicate`. */
    method IsDuplicate(id: Id) returns (duplicate: bool)
      requires Valid()
      modifies this, ids
      ensures Valid()
      ensures duplicate <==> id in old(View())
      ensures View() == Remember(old(View()), id)
      ensures ids == old(ids) || fresh(ids)
    {
      for i := 0 to count
        invariant forall k :: 0 <= k < i ==> ids[k] != id
      {
        if ids[i] == id {
          return true;
        }
      }
      ghost var before := View();
      RememberKeepsDistinct(before, id);
      Pigeonhole(before + [id], 0x1_0000);
      if count < ids.Length {
        ids[count] := id;
        count := count + 1;
      } else {
        CapacityGap(ids.Length);
        DoubledIsCapacity(ids.Length);
        var grown := new Id[2 * ids.Length];
        for i := 0 to count
          invariant unchanged(this) && unchanged(ids)
          invariant forall k :: 0 <= k < i ==> grown[k] == ids[k]
        {
          grown[i] := ids[i];
        }
        copied := copied + count;
        ids := grown;
        ids[count] := id;
        count := count + 1;
      }
      assert View() == before + [id];
      return false;
    }
  }
}
