/** top(): a summary's keys by descending count, and what such a list knows about the stream behind it. */
module HeavyHitters {
  import opened SpaceSaving

  datatype HeavyHitter = HeavyHitter(key: Key, count: nat)

  /** JavaScript's order on strings: by code unit, a proper prefix first. */
  predicate KeyBefore(a: Key, b: Key) {
    if b == [] then false else if a == [] then true else a[0] < b[0] || (a[0] == b[0] && KeyBefore(a[1..], b[1..]))
  }

  /** Larger counts first, ties by key. */
  predicate Before(a: HeavyHitter, b: HeavyHitter) {
    a.count > b.count || (a.count == b.count && KeyBefore(a.key, b.key))
  }

  ghost predicate InOrder(top: seq<HeavyHitter>) {
    forall i, j :: 0 <= i < j < |top| ==> Before(top[i], top[j])
  }

  /** The strings agree up to a position where the first one ends or has the smaller code unit. */
  ghost predicate Smaller(a: Key, b: Key) { exists i: nat :: SmallerAt(a, b, i) }

  ghost predicate SmallerAt(a: Key, b: Key, i: nat) {
    i <= |a| && i < |b| && a[..i] == b[..i] && (i == |a| || a[i] < b[i])
  }

  lemma {:induction false} KeyBeforeIsSmaller(a: Key, b: Key)
    ensures KeyBefore(a, b) ==> Smaller(a, b)
  {
    if KeyBefore(a, b) {
      if a == [] || a[0] < b[0] {
        assert SmallerAt(a, b, 0);
      } else {
        KeyBeforeIsSmaller(a[1..], b[1..]);
        var i: nat :| SmallerAt(a[1..], b[1..], i);
        assert a == [a[0]] + a[1..] && b == [b[0]] + b[1..];
        assert a[..i + 1] == [a[0]] + a[1..][..i] && b[..i + 1] == [b[0]] + b[1..][..i];
        assert SmallerAt(a, b, i + 1);
      }
    }
  }

  /** Counts fall along the list, and among equal counts the keys rise. */
  ghost predicate Ranked(top: seq<HeavyHitter>) {
    forall i, j :: 0 <= i < j < |top| ==>
      top[i].count > top[j].count || (top[i].count == top[j].count && Smaller(top[i].key, top[j].key))
  }

  lemma OrderRanks(top: seq<HeavyHitter>)
    requires InOrder(top)
    ensures Ranked(top)
  {
    forall i, j | 0 <= i < j < |top|
      ensures top[i].count > top[j].count || (top[i].count == top[j].count && Smaller(top[i].key, top[j].key))
    {
      assert Before(top[i], top[j]);
      KeyBeforeIsSmaller(top[i].key, top[j].key);
    }
  }

  lemma {:induction false} KeysDiffer(a: Key, b: Key)
    ensures a != b ==> KeyBefore(a, b) || KeyBefore(b, a)
    ensures !(KeyBefore(a, b) && KeyBefore(b, a))
  {
    if a != [] && b != [] && a[0] == b[0] {
      KeysDiffer(a[1..], b[1..]);
      assert a == [a[0]] + a[1..] && b == [b[0]] + b[1..];
    }
  }

  lemma {:induction false} KeysOrder(a: Key, b: Key, c: Key)
    requires KeyBefore(a, b) && KeyBefore(b, c)
    ensures KeyBefore(a, c)
  {
    if a != [] && a[0] == b[0] && b[0] == c[0] { KeysOrder(a[1..], b[1..], c[1..]); }
  }

  lemma BeforeOrders(a: HeavyHitter, b: HeavyHitter, c: HeavyHitter)
    requires Before(a, b) && Before(b, c)
    ensures Before(a, c)
  {
    if a.count == b.count == c.count { KeysOrder(a.key, b.key, c.key); }
  }

  function Insert(h: HeavyHitter, top: seq<HeavyHitter>): seq<HeavyHitter> {
    if top == [] || Before(h, top[0]) then [h] + top else [top[0]] + Insert(h, top[1..])
  }

  lemma {:induction false} InsertLists(h: HeavyHitter, top: seq<HeavyHitter>)
    ensures |Insert(h, top)| == |top| + 1 && forall x :: x in Insert(h, top) <==> x == h || x in top
  {
    if top != [] && !Before(h, top[0]) {
      InsertLists(h, top[1..]);
      assert top == [top[0]] + top[1..];
    }
  }

  lemma {:induction false} InsertRanks(h: HeavyHitter, top: seq<HeavyHitter>)
    requires InOrder(top) && forall x :: x in top ==> x.key != h.key
    ensures InOrder(Insert(h, top))
  {
    if top != [] {
      if Before(h, top[0]) {
        forall j | 0 <= j < |top| ensures Before(h, top[j]) { if j > 0 { BeforeOrders(h, top[0], top[j]); } }
      } else {
        KeysDiffer(h.key, top[0].key);
        InsertRanks(h, top[1..]);
        InsertLists(h, top[1..]);
        LeadsAll(top[0], Insert(h, top[1..]), h, top);
      }
    }
  }

  lemma LeadsAll(first: HeavyHitter, rest: seq<HeavyHitter>, h: HeavyHitter, top: seq<HeavyHitter>)
    requires top != [] && first == top[0] && InOrder(top) && Before(first, h) && InOrder(rest)
    requires forall x :: x in rest <==> x == h || x in top[1..]
    ensures InOrder([first] + rest)
  {
    forall x | x in rest ensures Before(first, x) {
      if x != h {
        var j :| 0 <= j < |top[1..]| && top[1..][j] == x;
        assert top[j + 1] == x;
      }
    }
    forall i, j | 0 <= i < j < |[first] + rest| ensures Before(([first] + rest)[i], ([first] + rest)[j]) {
      if i == 0 { assert rest[j - 1] in rest; }
    }
  }

  ghost predicate Lists(top: seq<HeavyHitter>, slots: seq<Slot>, n: nat)
    requires n <= |slots|
  {
    |top| == n && forall x :: x in top <==> exists i :: 0 <= i < n && x == HeavyHitter(slots[i].key, slots[i].count)
  }

  /** top() */
  method Top(slots: seq<Slot>) returns (top: seq<HeavyHitter>)
    requires DistinctKeys(slots)
    ensures Ranked(top) && Lists(top, slots, |slots|)
  {
    top := [];
    for n := 0 to |slots|
      invariant InOrder(top) && Lists(top, slots, n)
    {
      var h := HeavyHitter(slots[n].key, slots[n].count);
      forall x | x in top ensures x.key != h.key {
        var i :| 0 <= i < n && x == HeavyHitter(slots[i].key, slots[i].count);
      }
      InsertRanks(h, top);
      InsertLists(h, top);
      top := Insert(h, top);
    }
    OrderRanks(top);
  }

  // ---------------------------------------------------------------- what the list knows

  ghost predicate Listed(top: seq<HeavyHitter>, key: Key) { exists h :: h in top && h.key == key }

  /** No count under-reports its key, or over-reports it by more than one slot's share of the stream. */
  ghost predicate Close(h: HeavyHitter, capacity: real, stream: seq<Key>) {
    Freq(stream, h.key) <= h.count && AtMostShare(h.count - Freq(stream, h.key), capacity, |stream|)
  }

  /** A ranking of the stream's keys with close counts, in which no key above its share is missing. */
  ghost predicate Ranks(top: seq<HeavyHitter>, capacity: real, stream: seq<Key>) {
    && Ranked(top) && |top| as real < capacity + 1.0
    && (forall h :: h in top ==> Close(h, capacity, stream))
    && (forall key :: !AtMostShare(Freq(stream, key), capacity, |stream|) ==> Listed(top, key))
  }

  lemma TopRanks(top: seq<HeavyHitter>, slots: seq<Slot>, capacity: real, stream: seq<Key>)
    requires capacity >= 1.0 && Summarises(slots, capacity, stream) && Ranked(top) && Lists(top, slots, |slots|)
    ensures Ranks(top, capacity, stream)
  {
    forall h | h in top ensures Close(h, capacity, stream) {
      var i :| 0 <= i < |slots| && h == HeavyHitter(slots[i].key, slots[i].count);
      CountIsClose(slots, capacity, stream, i);
    }
    forall key | !AtMostShare(Freq(stream, key), capacity, |stream|) ensures Listed(top, key) {
      HeavyIsMonitored(slots, capacity, stream, key);
      var i :| 0 <= i < |slots| && slots[i].key == key;
      assert HeavyHitter(slots[i].key, slots[i].count) in top;
    }
  }

  /** top() ranks the keys of the whole stream. */
  method TopOf(slots: seq<Slot>, capacity: real, ghost stream: seq<Key>) returns (top: seq<HeavyHitter>)
    requires capacity >= 1.0 && Summarises(slots, capacity, stream)
    ensures Ranks(top, capacity, stream)
  {
    top := Top(slots);
    TopRanks(top, slots, capacity, stream);
  }
}
