/**
 * The confirmation array of the UDP variant (src/id.c, `add_confirmed_msg_id`, and the two scans of
 * `send_network_msg_udp`): slot j is meant to hold j once the server has confirmed message j.
 * The sender advances the index, the listener fills the slot and grows the array.
 */
module ConfirmedIds {
  import opened Base

  /** The filler `-1` after conversion to `uint16_t`. It is also the legal identifier 65535. */
  const SENTINEL: Id := 0xFFFF

  datatype Table = Table(slots: seq<Id>, index: nat)

  /** What a linear scan of `slots[0..index)` runs into first. */
  datatype Scan = Found | Absent | OutOfBounds

  function InitialTable(): Table {
    Table(seq(INITIAL_CAPACITY, _ => SENTINEL), 0)
  }

  function Search(t: Table, id: Id): Scan {
    if exists i :: 0 <= i < t.index && i < |t.slots| && t.slots[i] == id then Found
    else if t.index <= |t.slots| then Absent
    else OutOfBounds
  }

  /** The sender takes the next identifier. */
  function Advance(t: Table): Table {
    t.(index := t.index + 1)
  }

  /** The listener records a CONFIRM. `None` stands for a read or a write outside the array. */
  function Record(t: Table, id: Id): Option<Table> {
    match Search(t, id)
    case Found => Some(t)
    case OutOfBounds => None
    case Absent =>
      if t.index == 0 then None
      else
        var grown := if t.index >= |t.slots| then t.slots + seq(|t.slots|, _ => SENTINEL) else t.slots;
        if t.index <= |grown| then Some(t.(slots := grown[t.index - 1 := id])) else None
  }

  /** `id` is the identifier of one of the messages counted so far. */
  ghost predicate Issued(t: Table, id: Id) {
    exists k: nat :: k < t.index && ToId(k) == id
  }

  /** The slot of the message sent last is filled, or no slot is waited for. */
  predicate Settled(t: Table) {
    t.index == 0 || t.index > SENTINEL || (t.index <= |t.slots| && t.slots[t.index - 1] == t.index - 1)
  }

  /** Every slot before the last one used holds its own number; every slot after it is untouched. */
  ghost predicate SlotsInOrder(t: Table) {
    && (forall j :: 0 <= j < t.index - 1 && j <= SENTINEL && j < |t.slots| ==> t.slots[j] == j)
    && (0 < t.index <= SENTINEL && t.index <= |t.slots| ==> t.slots[t.index - 1] in {t.index - 1, SENTINEL})
    && (forall j :: t.index <= j < |t.slots| ==> t.slots[j] == SENTINEL)
    && (forall j :: SENTINEL <= j < |t.slots| ==> t.slots[j] == SENTINEL)
  }

  ghost predicate CapacityInStep(t: Table) {
    && IsCapacity(|t.slots|)
    && |t.slots| <= LARGEST_CAPACITY
    && (|t.slots| == INITIAL_CAPACITY || |t.slots| <= 2 * t.index)
    && (t.index <= SENTINEL + 1 ==> t.index <= |t.slots|)
    && (t.index > SENTINEL + 1 ==> |t.slots| == LARGEST_CAPACITY)
    && (0 < t.index <= SENTINEL && Settled(t) ==> t.index < |t.slots|)
  }

  /** The invariant that sender and listener keep together. */
  ghost predicate Shape(t: Table) {
    CapacityInStep(t) && SlotsInOrder(t)
  }

  lemma InitialShape()
    ensures Shape(InitialTable()) && Settled(InitialTable())
    ensures InitialTable().index == 0 && |InitialTable().slots| == 100
    ensures forall j :: 0 <= j < 100 ==> InitialTable().slots[j] == 65535
  {
    InitialIsCapacity();
  }

  lemma AdvanceKeepsShape(t: Table)
    requires Shape(t) && Settled(t)
    ensures Shape(Advance(t))
  {
    CapacityGap(|t.slots|);
  }

  /** An issued identifier is recorded already, or it is the one waited for. */
  lemma FoundOrLast(t: Table, id: Id)
    requires Shape(t) && Issued(t, id)
    ensures Search(t, id) == Found || (Search(t, id) == Absent && 0 < t.index <= SENTINEL && id == t.index - 1)
    ensures Search(t, id) == Found && id == ToId(t.index - 1) ==> Settled(t)
  {
    CapacityGap(|t.slots|);
    var k: nat :| k < t.index && ToId(k) == id;
    if t.index > SENTINEL {
      assert t.slots[id] == id;
    } else if k < t.index - 1 {
      assert t.slots[k] == k;
    }
  }

  lemma FillKeepsShape(t: Table)
    requires Shape(t) && 0 < t.index <= SENTINEL && Search(t, t.index - 1) == Absent
    ensures var r := Record(t, t.index - 1); r.Some? && r.value.index == t.index && Shape(r.value) && Settled(r.value)
  {
    CapacityGap(|t.slots|);
    if t.index >= |t.slots| {
      DoubledIsCapacity(|t.slots|);
    }
  }

  lemma RecordKeepsShape(t: Table, id: Id)
    requires Shape(t) && Issued(t, id)
    ensures var r := Record(t, id); r.Some? && r.value.index == t.index && Shape(r.value)
    ensures Settled(t) ==> Settled(Record(t, id).value)
    ensures id == ToId(t.index - 1) ==> Settled(Record(t, id).value)
    ensures Record(t, id).value == t || (t.index <= SENTINEL && id == t.index - 1 && Settled(Record(t, id).value))
  {
    FoundOrLast(t, id);
    if Search(t, id) == Absent {
      FillKeepsShape(t);
    }
  }

  /** The scan for the current message succeeds exactly when its slot is filled, or its id is 65535 or repeated. */
  lemma ScanMeansSettled(t: Table)
    requires Shape(t) && t.index > 0
    ensures Search(t, ToId(t.index - 1)) == if Settled(t) then Found else Absent
  {
    CapacityGap(|t.slots|);
    var id := ToId(t.index - 1);
    if t.index > SENTINEL {
      assert t.slots[id] == id;
    } else {
      assert id == t.index - 1;
      if t.slots[t.index - 1] == id {
        assert Search(t, id) == Found;
      }
    }
  }

  /** A late duplicate of a confirmation that was already recorded changes nothing. */
  lemma LateConfirmIgnored(t: Table, j: nat)
    requires Shape(t) && j < t.index && j <= SENTINEL
    requires j < t.index - 1 || Settled(t)
    ensures Record(t, j) == Some(t)
  {
    CapacityGap(|t.slots|);
    assert t.slots[j] == j;
  }

  /** The index stays within the array exactly up to 102400 messages; the early exit of the scan hides the rest. */
  lemma IndexWithinCapacity(t: Table, id: Id)
    requires Shape(t)
    ensures t.index <= |t.slots| <==> t.index <= LARGEST_CAPACITY
    ensures Issued(t, id) ==> Search(t, id) != OutOfBounds
  {
    CapacityGap(|t.slots|);
    if t.index > SENTINEL + 1 {
      assert t.slots[id] == id;
    }
  }

  /** The globals `confirmed_msg_ids`, `confirmed_msg_ids_index` and `confirmed_msg_array_size`. */
  class ConfirmTable {
    var slots: array<Id>
    var index: nat

    ghost function View(): Table
      reads this, slots
    {
      Table(slots[..], index)
    }

    constructor ()
      ensures View() == InitialTable() && fresh(slots)
      ensures index == 0 && slots.Length == 100 && forall j :: 0 <= j < 100 ==> slots[j] == 65535
    {
      var a := new Id[INITIAL_CAPACITY];
      for i := 0 to INITIAL_CAPACITY
        invariant fresh(a) && a.Length == INITIAL_CAPACITY
        invariant forall k :: 0 <= k < i ==> a[k] == SENTINEL
      {
        a[i] := SENTINEL;
      }
      slots, index := a, 0;
    }

    method Next()
      modifies this`index
      ensures View() == Advance(old(View()))
    {
      index := index + 1;
    }

    /** The scan `for (i = 0; i < confirmed_msg_ids_index; i++)`. */
    method Contains(id: Id) returns (found: bool)
      requires Search(View(), id) != OutOfBounds
      ensures found <==> Search(View(), id) == Found
    {
      var i := 0;
      while i < index
        invariant i <= index && i <= slots.Length
        invariant forall k :: 0 <= k < i ==> slots[k] != id
      {
        if slots[i] == id {
          return true;
        }
        i := i + 1;
      }
      return false;
    }

    /** `add_confirmed_msg_id`. */
    method Add(id: Id)
      requires Record(View(), id).Some?
      modifies this, slots
      ensures View() == Record(old(View()), id).value
      ensures slots == old(slots) || fresh(slots)
    {
      var already := Contains(id);
      if already {
        return;
      }
      if index >= slots.Length {
        var size := 2 * slots.Length;
        var grown := new Id[size];
        for i := 0 to slots.Length
          invariant unchanged(this) && unchanged(slots)
          invariant forall k :: 0 <= k < i ==> grown[k] == slots[k]
        {
          grown[i] := slots[i];
        }
        for i := index to size
          invariant unchanged(this) && unchanged(slots)
          invariant forall k :: 0 <= k < slots.Length ==> grown[k] == slots[k]
          invariant forall k :: index <= k < i ==> grown[k] == SENTINEL
        {
          grown[i] := SENTINEL;
        }
        assert grown[..] == slots[..] + seq(slots.Length, _ => SENTINEL);
        slots := grown;
      }
      slots[index - 1] := id;
    }
  }
}
