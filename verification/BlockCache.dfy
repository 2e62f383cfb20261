/** The decoded-block cache (`block_cache.rs`): least recently used first, bounded by entries and by bytes. */
module BlockCache {
  import opened Common

  type Bytes = seq<byte>

  /** A blob path, a block index and the block's content tag. */
  datatype BlockKey = BlockKey(path: string, index: nat, tag: nat)

  datatype Slot = Slot(key: BlockKey, block: Bytes)

  predicate Distinct(slots: seq<Slot>) {
    forall i, j :: 0 <= i < j < |slots| ==> slots[i].key != slots[j].key
  }

  function Total(slots: seq<Slot>): nat {
    if slots == [] then 0 else |slots[0].block| + Total(slots[1..])
  }

  predicate Has(slots: seq<Slot>, k: BlockKey) {
    exists i :: 0 <= i < |slots| && slots[i].key == k
  }

  function Without(slots: seq<Slot>, k: BlockKey): (r: seq<Slot>)
    ensures forall s :: s in r <==> s in slots && s.key != k
  {
    if slots == [] then [] else (if slots[0].key == k then [] else [slots[0]]) + Without(slots[1..], k)
  }

  predicate Fits(slots: seq<Slot>, capacity: nat, maxBytes: nat) {
    |slots| <= capacity && Total(slots) <= maxBytes
  }

  /** Dropping the least recently used slots until both bounds hold. */
  function Trimmed(slots: seq<Slot>, capacity: nat, maxBytes: nat): seq<Slot> {
    if slots == [] || Fits(slots, capacity, maxBytes) then slots else Trimmed(slots[1..], capacity, maxBytes)
  }

  // ---------------------------------------------------------------- what trimming keeps

  lemma {:induction false} TotalAppend(a: seq<Slot>, b: seq<Slot>)
    ensures Total(a + b) == Total(a) + Total(b)
  {
    if a == [] {
      assert a + b == b;
    } else {
      assert (a + b)[1..] == a[1..] + b;
      TotalAppend(a[1..], b);
    }
  }

  /** The held slots are a suffix: whatever was evicted was used longer ago, and nothing more was evicted. */
  lemma {:induction false} TrimmedIsSuffix(slots: seq<Slot>, capacity: nat, maxBytes: nat) returns (n: nat)
    ensures n <= |slots| && Trimmed(slots, capacity, maxBytes) == slots[n..]
    ensures Fits(slots[n..], capacity, maxBytes)
    ensures n > 0 ==> !Fits(slots[n - 1..], capacity, maxBytes)
  {
    if slots == [] || Fits(slots, capacity, maxBytes) {
      n := 0;
      assert slots[0..] == slots;
    } else {
      var m := TrimmedIsSuffix(slots[1..], capacity, maxBytes);
      n := m + 1;
      assert slots[1..][m..] == slots[n..];
      if m > 0 { assert slots[1..][m - 1..] == slots[n - 1..]; } else { assert slots[n - 1..] == slots; }
    }
  }

  /** A block within the byte budget survives its own insertion. */
  lemma LastSurvives(slots: seq<Slot>, capacity: nat, maxBytes: nat)
    requires slots != [] && capacity > 0 && |slots[|slots| - 1].block| <= maxBytes
    ensures var t := Trimmed(slots, capacity, maxBytes); t != [] && t[|t| - 1] == slots[|slots| - 1]
  {
    var n := TrimmedIsSuffix(slots, capacity, maxBytes);
    var last := slots[|slots| - 1..];
    assert last[1..] == [] && Fits(last, capacity, maxBytes);
  }

  lemma {:induction false} WithoutTotals(slots: seq<Slot>, k: BlockKey, i: nat)
    requires Distinct(slots) && i < |slots| && slots[i].key == k
    ensures |Without(slots, k)| == |slots| - 1
    ensures Total(Without(slots, k)) == Total(slots) - |slots[i].block|
  {
    assert forall j :: 0 <= j < |slots| - 1 ==> slots[1..][j] == slots[j + 1];
    if i == 0 {
      WithoutAbsent(slots[1..], k);
      assert Without(slots, k) == slots[1..];
    } else {
      assert slots[0].key != slots[i].key;
      WithoutTotals(slots[1..], k, i - 1);
      assert Without(slots, k) == [slots[0]] + Without(slots[1..], k);
      assert ([slots[0]] + Without(slots[1..], k))[1..] == Without(slots[1..], k);
    }
  }

  /** Taking a slot out leaves the others in their order. */
  lemma {:induction false} WithoutAt(slots: seq<Slot>, k: BlockKey, i: nat)
    requires Distinct(slots) && i < |slots| && slots[i].key == k
    ensures Without(slots, k) == slots[..i] + slots[i + 1..]
    decreases i
  {
    var rest := slots[1..];
    RestDistinct(slots);
    if i == 0 {
      assert !Has(rest, k);
      WithoutAbsent(rest, k);
    } else {
      assert rest[i - 1] == slots[i] && slots[0].key != slots[i].key;
      WithoutAt(rest, k, i - 1);
      FrontThenRest(slots, i);
    }
  }

  lemma RestDistinct(slots: seq<Slot>)
    requires Distinct(slots) && slots != []
    ensures Distinct(slots[1..]) && !Has(slots[1..], slots[0].key)
  {
    assert forall j :: 0 <= j < |slots| - 1 ==> slots[1..][j] == slots[j + 1];
  }

  lemma FrontThenRest(slots: seq<Slot>, i: nat)
    requires 0 < i < |slots|
    ensures [slots[0]] + (slots[1..][..i - 1] + slots[1..][i..]) == slots[..i] + slots[i + 1..]
  {
  }

  lemma {:induction false} WithoutAbsent(slots: seq<Slot>, k: BlockKey)
    requires !Has(slots, k)
    ensures Without(slots, k) == slots
  {
    if slots != [] {
      assert slots[0].key != k;
      assert forall i :: 0 <= i < |slots| - 1 ==> slots[1..][i] == slots[i + 1];
      WithoutAbsent(slots[1..], k);
      assert slots == [slots[0]] + slots[1..];
    }
  }

  lemma {:induction false} WithoutDistinct(slots: seq<Slot>, k: BlockKey)
    requires Distinct(slots)
    ensures Distinct(Without(slots, k)) && !Has(Without(slots, k), k)
  {
    if slots != [] {
      var rest := Without(slots[1..], k);
      assert forall i :: 0 <= i < |slots| - 1 ==> slots[1..][i] == slots[i + 1];
      WithoutDistinct(slots[1..], k);
      forall i | 0 <= i < |rest| ensures rest[i].key != slots[0].key {
        assert rest[i] in rest;
      }
    }
  }

  /** Every held block is the last one accepted under its key. */
  ghost predicate Known(slots: seq<Slot>, latest: map<BlockKey, Bytes>) {
    forall s :: s in slots ==> s.key in latest && latest[s.key] == s.block
  }

  /** One slot has become the most recently used; the others keep their order. */
  predicate UsedNow(before: seq<Slot>, i: int, slot: Slot, after: seq<Slot>) {
    0 <= i < |before| && before[i] == slot && after == before[..i] + before[i + 1..] + [slot]
  }

  function SaturatingSub(a: nat, b: nat): nat {
    if a < b then 0 else a - b
  }

  // ---------------------------------------------------------------- the cache

  class Cache {
    var slots: seq<Slot>          // least recently used first
    var bytes: nat
    const capacity: nat
    const maxBytes: nat
    ghost var latest: map<BlockKey, Bytes>  // the last block accepted under each key

    ghost predicate Valid()
      reads this
    {
      && Distinct(slots) && bytes == Total(slots) && Fits(slots, capacity, maxBytes)
      && capacity > 0 && maxBytes > 0
      && Known(slots, latest)
    }

    constructor (entries: nat, budget: nat)
      requires entries > 0 && budget > 0
      ensures Valid() && slots == [] && latest == map[] && capacity == entries && maxBytes == budget
    {
      slots, bytes, latest := [], 0, map[];
      capacity, maxBytes := entries, budget;
    }

    method Find(k: BlockKey) returns (at: Option<nat>)
      ensures at.None? ==> !Has(slots, k)
      ensures at.Some? ==> at.value < |slots| && slots[at.value].key == k
    {
      var i := 0;
      while i < |slots|
        invariant 0 <= i <= |slots|
        invariant forall j :: 0 <= j < i ==> slots[j].key != k
      {
        if slots[i].key == k { return Some(i); }
        i := i + 1;
      }
      return None;
    }

    /** A hit is the last block accepted under the key, and makes it the most recently used. */
    method Get(k: BlockKey) returns (r: Option<Bytes>)
      requires Valid()
      modifies this`slots
      ensures Valid()
      ensures r.None? ==> !old(Has(slots, k)) && slots == old(slots)
      ensures r.Some? ==> k in latest && r.value == latest[k]
      ensures r.Some? ==> exists i :: UsedNow(old(slots), i, Slot(k, r.value), slots)
    {
      var at := Find(k);
      if at.None? { return None; }
      var slot := slots[at.value];
      Refreshed(slots, at.value, slot, capacity, maxBytes);
      WithoutAt(slots, k, at.value);
      assert UsedNow(slots, at.value, slot, Without(slots, k) + [slot]);
      slots := Without(slots, k) + [slot];
      return Some(slot.block);
    }

    /**
     * A block over the budget is not kept and changes nothing. Any other is the most recently used slot
     * afterwards, and only least recently used slots make room for it.
     */
    method Insert(k: BlockKey, block: Bytes)
      requires Valid()
      modifies this`slots, this`bytes, this`latest
      ensures Valid()
      ensures |block| > maxBytes ==> slots == old(slots) && latest == old(latest)
      ensures |block| <= maxBytes ==> latest == old(latest)[k := block]
      ensures |block| <= maxBytes ==> slots == Trimmed(Without(old(slots), k) + [Slot(k, block)], capacity, maxBytes)
      ensures |block| <= maxBytes ==> slots != [] && slots[|slots| - 1] == Slot(k, block)
    {
      if |block| > maxBytes { return; }
      LastSurvives(Without(slots, k) + [Slot(k, block)], capacity, maxBytes);
      Put(k, block);
      latest := latest[k := block];
      Evict();
    }

    /** Replaces or adds the block as the most recently used one, keeping `bytes` the exact total. */
    method Put(k: BlockKey, block: Bytes)
      requires Distinct(slots) && bytes == Total(slots)
      modifies this`slots, this`bytes
      ensures slots == Without(old(slots), k) + [Slot(k, block)]
      ensures Distinct(slots) && bytes == Total(slots)
    {
      var at := Find(k);
      if at.Some? {
        WithoutTotals(slots, k, at.value);
        bytes := SaturatingSub(bytes, |slots[at.value].block|);
      } else {
        WithoutAbsent(slots, k);
      }
      var added := Slot(k, block);
      Appended(slots, k, added);
      slots := Without(slots, k) + [added];
      bytes := bytes + |block|;
    }

    /** The eviction loop; `bytes` follows what is held, so the saturating subtraction never saturates. */
    method Evict()
      requires Distinct(slots) && bytes == Total(slots)
      modifies this`slots, this`bytes
      ensures slots == Trimmed(old(slots), capacity, maxBytes) && bytes == Total(slots)
      ensures Distinct(slots) && Fits(slots, capacity, maxBytes) && forall s :: s in slots ==> s in old(slots)
    {
      while |slots| > 0 && (bytes > maxBytes || |slots| > capacity)
        invariant Distinct(slots) && bytes == Total(slots)
        invariant Trimmed(slots, capacity, maxBytes) == Trimmed(old(slots), capacity, maxBytes)
        invariant forall s :: s in slots ==> s in old(slots)
      {
        bytes := SaturatingSub(bytes, |slots[0].block|);
        slots := slots[1..];
      }
    }
  }

  lemma Appended(slots: seq<Slot>, k: BlockKey, added: Slot)
    requires Distinct(slots) && added.key == k
    ensures Distinct(Without(slots, k) + [added])
    ensures Total(Without(slots, k) + [added]) == Total(Without(slots, k)) + |added.block|
  {
    var kept := Without(slots, k);
    WithoutDistinct(slots, k);
    TotalAppend(kept, [added]);
    assert [added][1..] == [];
    forall i | 0 <= i < |kept| ensures kept[i].key != k { assert kept[i] in kept; }
  }

  lemma Refreshed(slots: seq<Slot>, i: nat, slot: Slot, capacity: nat, maxBytes: nat)
    requires Distinct(slots) && i < |slots| && slots[i] == slot && Fits(slots, capacity, maxBytes)
    ensures var r := Without(slots, slot.key) + [slot];
      Distinct(r) && Total(r) == Total(slots) && Fits(r, capacity, maxBytes) && forall s :: s in r ==> s in slots
  {
    WithoutTotals(slots, slot.key, i);
    Appended(slots, slot.key, slot);
  }
}
