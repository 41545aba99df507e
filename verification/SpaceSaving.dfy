/** Space-Saving heavy hitters: what a bounded summary still knows about the whole stream it has seen. */
module SpaceSaving {
  import Numbers
  import opened Wrappers

  type Key = string

  /** A monitored key, its count, and how far the count may exceed the truth. */
  datatype Slot = Slot(key: Key, count: nat, error: nat)

  function Total(slots: seq<Slot>): nat {
    if slots == [] then 0 else Total(slots[..|slots| - 1]) + slots[|slots| - 1].count
  }

  ghost predicate Monitored(slots: seq<Slot>, key: Key) {
    exists i :: 0 <= i < |slots| && slots[i].key == key
  }

  ghost predicate DistinctKeys(slots: seq<Slot>) {
    forall i, j :: 0 <= i < j < |slots| ==> slots[i].key != slots[j].key
  }

  ghost function Freq(stream: seq<Key>, key: Key): nat { multiset(stream)[key] }

  /** A slot brackets its key's true count. */
  ghost predicate Brackets(slot: Slot, stream: seq<Key>) {
    slot.count - slot.error <= Freq(stream, slot.key) <= slot.count
  }

  /** What an unmonitored key may have occurred at most. */
  ghost predicate Dominated(slots: seq<Slot>, capacity: real, stream: seq<Key>, key: Key) {
    && (forall i :: 0 <= i < |slots| ==> Freq(stream, key) <= slots[i].count)
    && (|slots| as real < capacity ==> Freq(stream, key) == 0)
  }

  /** No recorded error exceeds any count, and there is none while slots are free. */
  ghost predicate Tight(slots: seq<Slot>, capacity: real) {
    && (forall i, j :: 0 <= i < |slots| && 0 <= j < |slots| ==> slots[i].error <= slots[j].count)
    && (|slots| as real < capacity ==> forall i :: 0 <= i < |slots| ==> slots[i].error == 0)
  }

  /** The summary's invariant over the whole stream. */
  ghost predicate Summarises(slots: seq<Slot>, capacity: real, stream: seq<Key>) {
    && DistinctKeys(slots) && Total(slots) == |stream| && |slots| as real < capacity + 1.0 && Tight(slots, capacity)
    && (forall i :: 0 <= i < |slots| ==> Brackets(slots[i], stream))
    && (forall key :: !Monitored(slots, key) ==> Dominated(slots, capacity, stream, key))
  }

  // ---------------------------------------------------------------- totals

  lemma {:induction false} TotalReplace(slots: seq<Slot>, i: nat, slot: Slot)
    requires i < |slots|
    ensures Total(slots[i := slot]) + slots[i].count == Total(slots) + slot.count
  {
    var n := |slots| - 1;
    if i < n {
      TotalReplace(slots[..n], i, slot);
      assert slots[i := slot][..n] == slots[..n][i := slot];
    } else {
      assert slots[i := slot][..n] == slots[..n];
    }
  }

  lemma TotalAppend(slots: seq<Slot>, slot: Slot)
    ensures Total(slots + [slot]) == Total(slots) + slot.count
  {
    assert (slots + [slot])[..|slots|] == slots;
  }

  function Without(slots: seq<Slot>, i: nat): seq<Slot>
    requires i < |slots|
  {
    slots[..i] + slots[i + 1..]
  }

  lemma {:induction false} TotalWithout(slots: seq<Slot>, i: nat)
    requires i < |slots|
    ensures Total(Without(slots, i)) + slots[i].count == Total(slots)
  {
    var n := |slots| - 1;
    if i < n {
      TotalWithout(slots[..n], i);
      assert Without(slots, i)[..n - 1] == Without(slots[..n], i);
    } else {
      assert Without(slots, i) == slots[..n];
    }
  }

  lemma {:induction false} TotalAtLeast(slots: seq<Slot>, low: nat)
    requires forall i :: 0 <= i < |slots| ==> slots[i].count >= low
    ensures Total(slots) >= |slots| * low
  {
    if slots != [] { TotalAtLeast(slots[..|slots| - 1], low); }
  }

  // ---------------------------------------------------------------- the update

  /** The first slot of least count. */
  ghost predicate FirstLeast(slots: seq<Slot>, m: nat) {
    && m < |slots|
    && (forall i :: 0 <= i < |slots| ==> slots[m].count <= slots[i].count)
    && (forall i :: 0 <= i < m ==> slots[m].count < slots[i].count)
  }

  /** The three branches of observe. */
  ghost predicate Observed(slots: seq<Slot>, capacity: real, key: Key, after: seq<Slot>) {
    if Monitored(slots, key) then
      exists i :: 0 <= i < |slots| && slots[i].key == key && after == Counted(slots, i)
    else if |slots| as real < capacity then
      after == slots + [Slot(key, 1, 0)]
    else
      exists m :: FirstLeast(slots, m) && after == Taken(slots, m, key)
  }

  function Counted(slots: seq<Slot>, i: nat): seq<Slot>
    requires i < |slots|
  {
    slots[i := slots[i].(count := slots[i].count + 1)]
  }

  /** The least slot is evicted; the new key inherits its count as error and goes to the end of the insertion order. */
  function Taken(slots: seq<Slot>, m: nat, key: Key): seq<Slot>
    requires m < |slots|
  {
    Without(slots, m) + [Slot(key, slots[m].count + 1, slots[m].count)]
  }

  lemma FreqStep(stream: seq<Key>, key: Key, other: Key)
    ensures Freq(stream + [key], other) == Freq(stream, other) + (if other == key then 1 else 0)
  {
    assert multiset(stream + [key]) == multiset(stream) + multiset{key};
  }

  lemma KeysKept(slots: seq<Slot>, after: seq<Slot>, other: Key)
    requires |slots| <= |after| && forall j :: 0 <= j < |slots| ==> after[j].key == slots[j].key
    ensures Monitored(slots, other) ==> Monitored(after, other)
  {
    if j :| 0 <= j < |slots| && slots[j].key == other { assert after[j].key == other; }
  }

  /** Unmonitored keys stay dominated when no count falls, no slot is lost and the observed key is monitored. */
  lemma DominatedKeeps(slots: seq<Slot>, after: seq<Slot>, capacity: real, stream: seq<Key>, key: Key, other: Key)
    requires |slots| <= |after| && (forall j :: 0 <= j < |slots| ==> after[j].key == slots[j].key)
    requires forall j :: 0 <= j < |slots| ==> after[j].count >= slots[j].count
    requires !Monitored(slots, other) ==> Dominated(slots, capacity, stream, other)
    requires Monitored(after, key) && !Monitored(after, other) && (|slots| < |after| ==> Freq(stream, other) == 0)
    ensures Dominated(after, capacity, stream + [key], other)
  {
    FreqStep(stream, key, other);
    KeysKept(slots, after, other);
  }

  lemma CountedBrackets(slots: seq<Slot>, stream: seq<Key>, key: Key, i: nat, j: nat)
    requires DistinctKeys(slots) && i < |slots| && slots[i].key == key && j < |slots| && Brackets(slots[j], stream)
    ensures Brackets(Counted(slots, i)[j], stream + [key])
  {
    FreqStep(stream, key, slots[j].key);
  }

  lemma CountedTight(slots: seq<Slot>, capacity: real, i: nat)
    requires Tight(slots, capacity) && DistinctKeys(slots) && i < |slots|
    ensures Tight(Counted(slots, i), capacity) && DistinctKeys(Counted(slots, i))
  {
  }

  lemma MonitoredStays(slots: seq<Slot>, capacity: real, stream: seq<Key>, key: Key, i: nat)
    requires Summarises(slots, capacity, stream) && i < |slots| && slots[i].key == key
    ensures Summarises(Counted(slots, i), capacity, stream + [key])
  {
    var after := Counted(slots, i);
    TotalReplace(slots, i, after[i]);
    CountedTight(slots, capacity, i);
    assert after[i].key == key;
    forall j | 0 <= j < |after| ensures Brackets(after[j], stream + [key]) {
      CountedBrackets(slots, stream, key, i, j);
    }
    forall other | !Monitored(after, other) ensures Dominated(after, capacity, stream + [key], other) {
      DominatedKeeps(slots, after, capacity, stream, key, other);
    }
  }

  lemma RoomTaken(slots: seq<Slot>, capacity: real, stream: seq<Key>, key: Key)
    requires Summarises(slots, capacity, stream) && !Monitored(slots, key) && |slots| as real < capacity
    ensures Summarises(slots + [Slot(key, 1, 0)], capacity, stream + [key])
  {
    var after := slots + [Slot(key, 1, 0)];
    TotalAppend(slots, Slot(key, 1, 0));
    assert Dominated(slots, capacity, stream, key);
    assert after[|slots|].key == key;
    forall j | 0 <= j < |after| ensures Brackets(after[j], stream + [key]) {
      FreqStep(stream, key, after[j].key);
      if j < |slots| { assert Brackets(slots[j], stream); }
    }
    forall other | !Monitored(after, other) ensures Dominated(after, capacity, stream + [key], other) {
      KeysKept(slots, after, other);
      assert Dominated(slots, capacity, stream, other);
      DominatedKeeps(slots, after, capacity, stream, key, other);
    }
  }

  lemma TakenAt(slots: seq<Slot>, m: nat, key: Key, j: nat) returns (i: nat)
    requires m < |slots| && j < |slots| - 1
    ensures i < |slots| && i != m && Taken(slots, m, key)[j] == slots[i] && i == if j < m then j else j + 1
  {
    i := if j < m then j else j + 1;
  }

  lemma TakenDistinct(slots: seq<Slot>, m: nat, key: Key)
    requires DistinctKeys(slots) && m < |slots| && !Monitored(slots, key)
    ensures DistinctKeys(Taken(slots, m, key))
  {
    var after := Taken(slots, m, key);
    forall i, j | 0 <= i < j < |after| ensures after[i].key != after[j].key {
      var a := TakenAt(slots, m, key, i);
      if j < |after| - 1 {
        var b := TakenAt(slots, m, key, j);
        assert slots[a].key != slots[b].key;
      }
    }
  }

  lemma TakenTight(slots: seq<Slot>, capacity: real, m: nat, key: Key)
    requires Tight(slots, capacity) && FirstLeast(slots, m) && |slots| as real >= capacity
    ensures Tight(Taken(slots, m, key), capacity)
  {
    var after := Taken(slots, m, key);
    forall i, j | 0 <= i < |after| && 0 <= j < |after| ensures after[i].error <= after[j].count {
      if i < |slots| - 1 { var a := TakenAt(slots, m, key, i); }
      if j < |slots| - 1 { var b := TakenAt(slots, m, key, j); }
    }
  }

  lemma SlotTaken(slots: seq<Slot>, capacity: real, stream: seq<Key>, key: Key, m: nat)
    requires Summarises(slots, capacity, stream) && !Monitored(slots, key) && |slots| as real >= capacity && FirstLeast(slots, m)
    ensures Summarises(Taken(slots, m, key), capacity, stream + [key])
  {
    var after := Taken(slots, m, key);
    var least := slots[m];
    TotalWithout(slots, m);
    TotalAppend(Without(slots, m), Slot(key, least.count + 1, least.count));
    TakenDistinct(slots, m, key);
    TakenTight(slots, capacity, m, key);
    assert Dominated(slots, capacity, stream, key);
    forall j | 0 <= j < |after| ensures Brackets(after[j], stream + [key]) {
      FreqStep(stream, key, after[j].key);
      if j < |slots| - 1 {
        var i := TakenAt(slots, m, key, j);
        assert Brackets(slots[i], stream);
      }
    }
    forall other | !Monitored(after, other) ensures Dominated(after, capacity, stream + [key], other) {
      FreqStep(stream, key, other);
      EvictedStaysLow(slots, capacity, stream, key, m, other);
      forall j | 0 <= j < |after| ensures Freq(stream, other) <= after[j].count {
        if j < |slots| - 1 { var i := TakenAt(slots, m, key, j); }
      }
    }
  }

  lemma TakenKeeps(slots: seq<Slot>, m: nat, key: Key, i: nat)
    requires m < |slots| && i < |slots| && i != m
    ensures Monitored(Taken(slots, m, key), slots[i].key)
  {
    assert Taken(slots, m, key)[if i < m then i else i - 1] == slots[i];
  }

  /** A key outside the new summary occurred at most as often as the evicted slot's count. */
  lemma EvictedStaysLow(slots: seq<Slot>, capacity: real, stream: seq<Key>, key: Key, m: nat, other: Key)
    requires Summarises(slots, capacity, stream) && FirstLeast(slots, m) && !Monitored(Taken(slots, m, key), other)
    ensures other != key && Freq(stream, other) <= slots[m].count
  {
    assert Taken(slots, m, key)[|slots| - 1].key == key;
    if Monitored(slots, other) {
      var i :| 0 <= i < |slots| && slots[i].key == other;
      assert i == m by { if i != m { TakenKeeps(slots, m, key, i); } }
      assert Brackets(slots[m], stream);
    } else {
      assert Dominated(slots, capacity, stream, other);
    }
  }

  /** Every observation keeps the invariant. */
  lemma ObserveKeeps(slots: seq<Slot>, capacity: real, stream: seq<Key>, key: Key, after: seq<Slot>)
    requires Summarises(slots, capacity, stream) && Observed(slots, capacity, key, after)
    ensures Summarises(after, capacity, stream + [key])
  {
    if Monitored(slots, key) {
      var i :| 0 <= i < |slots| && slots[i].key == key && after == Counted(slots, i);
      MonitoredStays(slots, capacity, stream, key, i);
    } else if |slots| as real < capacity {
      RoomTaken(slots, capacity, stream, key);
    } else {
      var m :| FirstLeast(slots, m) && after == Taken(slots, m, key);
      SlotTaken(slots, capacity, stream, key, m);
    }
  }

  // ---------------------------------------------------------------- what a summary guarantees

  /** A number of occurrences that is at most the stream's share of one slot. */
  ghost predicate AtMostShare(x: nat, capacity: real, n: nat) { x as real * capacity <= n as real }

  lemma LeastShare(x: nat, low: nat, size: nat, n: nat, capacity: real)
    requires x <= low && n >= size * low && size as real >= capacity && capacity >= 1.0
    ensures AtMostShare(x, capacity, n)
  {
    var l, s := low as real, size as real;
    assert (size * low) as real == s * l;
    Numbers.MulMono(x as real, l, capacity);
    Numbers.MulMono(capacity, s, l);
  }

  /** A key more frequent than its share N/capacity of the stream is always monitored. */
  lemma HeavyIsMonitored(slots: seq<Slot>, capacity: real, stream: seq<Key>, key: Key)
    requires Summarises(slots, capacity, stream) && capacity >= 1.0
    requires !AtMostShare(Freq(stream, key), capacity, |stream|)
    ensures Monitored(slots, key)
  {
    if !Monitored(slots, key) {
      assert Dominated(slots, capacity, stream, key);
      var low := Freq(stream, key);
      if |slots| as real >= capacity {
        TotalAtLeast(slots, low);
        LeastShare(low, low, |slots|, |stream|, capacity);
      } else {
        NoneIsShare(low, capacity, |stream|);
      }
    }
  }

  lemma NoneIsShare(x: nat, capacity: real, n: nat)
    requires x == 0
    ensures AtMostShare(x, capacity, n)
  {
    assert 0.0 * capacity == 0.0;
  }

  /** How far a slot's count exceeds the truth. */
  ghost function Excess(slot: Slot, stream: seq<Key>): nat
    requires Brackets(slot, stream)
  {
    slot.count - Freq(stream, slot.key)
  }

  lemma ExcessSmall(slots: seq<Slot>, capacity: real, stream: seq<Key>, i: nat, over: nat)
    requires Summarises(slots, capacity, stream) && capacity >= 1.0 && i < |slots| && over <= slots[i].error
    ensures AtMostShare(over, capacity, |stream|)
  {
    var low := slots[i].error;
    if |slots| as real >= capacity {
      TotalAtLeast(slots, low);
      LeastShare(over, low, |slots|, |stream|, capacity);
    } else {
      NoneIsShare(over, capacity, |stream|);
    }
  }

  /** A count never under-reports its key, and over-reports it by at most N/capacity. */
  lemma CountIsClose(slots: seq<Slot>, capacity: real, stream: seq<Key>, i: nat)
    requires Summarises(slots, capacity, stream) && capacity >= 1.0 && i < |slots|
    ensures Brackets(slots[i], stream) && AtMostShare(Excess(slots[i], stream), capacity, |stream|)
  {
    assert Brackets(slots[i], stream);
    ExcessSmall(slots, capacity, stream, i, Excess(slots[i], stream));
  }

  // ---------------------------------------------------------------- the operations

  method Find(slots: seq<Slot>, key: Key) returns (at: Option<nat>)
    ensures at.Some? <==> Monitored(slots, key)
    ensures at.Some? ==> at.value < |slots| && slots[at.value].key == key
  {
    for i := 0 to |slots|
      invariant forall j :: 0 <= j < i ==> slots[j].key != key
    {
      if slots[i].key == key { return Some(i); }
    }
    return None;
  }

  method MinSlot(slots: seq<Slot>) returns (m: nat)
    requires slots != []
    ensures FirstLeast(slots, m)
  {
    m := 0;
    for i := 1 to |slots|
      invariant m < i
      invariant forall j :: 0 <= j < i ==> slots[m].count <= slots[j].count
      invariant forall j :: 0 <= j < m ==> slots[m].count < slots[j].count
    {
      if slots[i].count < slots[m].count { m := i; }
    }
  }

  /** observe, on the slots in their insertion order: the next state keeps the invariant over the longer stream. */
  method Observe(slots: seq<Slot>, capacity: real, key: Key, ghost stream: seq<Key>) returns (after: seq<Slot>)
    requires capacity >= 1.0 && Summarises(slots, capacity, stream)
    ensures Observed(slots, capacity, key, after)
    ensures Summarises(after, capacity, stream + [key])
  {
    var at := Find(slots, key);
    if at.Some? {
      after := Counted(slots, at.value);
    } else if |slots| as real < capacity {
      after := slots + [Slot(key, 1, 0)];
    } else {
      var m := MinSlot(slots);
      after := Taken(slots, m, key);
    }
    ObserveKeeps(slots, capacity, stream, key, after);
  }

  class StreamSummary {
    const capacity: real
    var slots: seq<Slot>
    ghost var stream: seq<Key>

    ghost predicate Valid()
      reads this
    {
      capacity >= 1.0 && Summarises(slots, capacity, stream)
    }

    constructor (capacity: real)
      requires capacity >= 1.0
      ensures Valid() && stream == [] && slots == [] && this.capacity == capacity
    {
      this.capacity := capacity;
      slots := [];
      stream := [];
    }

    method Note(key: Key)
      requires Valid()
      modifies this
      ensures Valid() && stream == old(stream) + [key]
      ensures Observed(old(slots), capacity, key, slots)
    {
      slots := Observe(slots, capacity, key, stream);
      stream := stream + [key];
    }

    method Clear()
      requires Valid()
      modifies this
      ensures Valid() && stream == [] && slots == []
    {
      slots := [];
      stream := [];
    }
  }
}
