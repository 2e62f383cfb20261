/**
 * The dedup block table and block files (`blocks.rs`): reference counts, the time a count reached zero, file
 * modification times, and the three statements that change them.
 */
module Blocks {
  import opened Common

  type Hash = nat

  datatype Row = Row(size: nat, refcount: nat, releasedAt: Option<nat>)

  /** One entry of a dedup manifest: a block and the length it decodes to. */
  datatype Entry = Entry(hash: Hash, size: nat)

  const NANOS := 1_000_000_000

  predicate Same<T(==)>(a: map<Hash, T>, b: map<Hash, T>, h: Hash) {
    (h in a <==> h in b) && (h in a && h in b ==> a[h] == b[h])
  }

  function Refs(rows: map<Hash, Row>, h: Hash): nat {
    if h in rows then rows[h].refcount else 0
  }

  /** The upsert of `inc_refs`: a first reference inserts the row, a later one clears the release time. */
  function Counted(rows: map<Hash, Row>, e: Entry): map<Hash, Row> {
    if e.hash in rows then rows[e.hash := Row(rows[e.hash].size, rows[e.hash].refcount + 1, None)]
    else rows[e.hash := Row(e.size, 1, None)]
  }

  /** The update of `dec_refs`: only a positive count moves, and reaching zero stamps the row. */
  function Released(rows: map<Hash, Row>, e: Entry, now: nat): map<Hash, Row> {
    if Refs(rows, e.hash) == 0 then rows
    else
      var row := rows[e.hash];
      rows[e.hash := Row(row.size, row.refcount - 1, if row.refcount <= 1 then Some(now) else row.releasedAt)]
  }

  function CountedAll(rows: map<Hash, Row>, entries: seq<Entry>): map<Hash, Row> {
    if entries == [] then rows
    else Counted(CountedAll(rows, entries[..|entries| - 1]), entries[|entries| - 1])
  }

  function ReleasedAll(rows: map<Hash, Row>, entries: seq<Entry>, now: nat): map<Hash, Row> {
    if entries == [] then rows
    else Released(ReleasedAll(rows, entries[..|entries| - 1], now), entries[|entries| - 1], now)
  }

  /** The references a manifest holds, with multiplicity. */
  function Holds(entries: seq<Entry>): multiset<Hash> {
    if entries == [] then multiset{}
    else Holds(entries[..|entries| - 1]) + multiset{entries[|entries| - 1].hash}
  }

  lemma {:induction false} HoldsAppend(a: seq<Entry>, b: seq<Entry>)
    ensures Holds(a + b) == Holds(a) + Holds(b)
    decreases |b|
  {
    if b == [] {
      assert a + b == a;
    } else {
      assert (a + b)[..|a + b| - 1] == a + b[..|b| - 1];
      HoldsAppend(a, b[..|b| - 1]);
    }
  }

  /** Counting a manifest adds exactly its multiplicity to every block. */
  lemma {:induction false} CountingAdds(rows: map<Hash, Row>, entries: seq<Entry>, h: Hash)
    ensures Refs(CountedAll(rows, entries), h) == Refs(rows, h) + Holds(entries)[h]
  {
    if entries != [] {
      CountingAdds(rows, entries[..|entries| - 1], h);
    }
  }

  /** A count less so many, never below zero. */
  function Less(count: nat, n: nat): nat {
    if count > n then count - n else 0
  }

  /** Releasing a manifest takes away exactly its multiplicity, never going below zero. */
  lemma {:induction false} ReleasingSubtracts(rows: map<Hash, Row>, entries: seq<Entry>, now: nat, h: Hash)
    ensures var left := Refs(rows, h) - Holds(entries)[h];
      Refs(ReleasedAll(rows, entries, now), h) == if left >= 0 then left else 0
  {
    if entries != [] {
      ReleasingSubtracts(rows, entries[..|entries| - 1], now, h);
    }
  }

  /** A row after some of its references were released at `now`: reaching zero stamps it, and nothing else changes. */
  predicate ReleasedRow(before: Row, after: Row, now: nat) {
    && after.size == before.size && after.refcount <= before.refcount
    && (before.refcount > 0 && after.refcount == 0 ==> after.releasedAt == Some(now))
    && (before.refcount == 0 || after.refcount > 0 ==> after.releasedAt == before.releasedAt)
  }

  lemma {:induction false} ReleasingStamps(rows: map<Hash, Row>, entries: seq<Entry>, now: nat)
    ensures var r := ReleasedAll(rows, entries, now);
      r.Keys == rows.Keys && forall h :: h in rows ==> ReleasedRow(rows[h], r[h], now)
  {
    if entries != [] {
      ReleasingStamps(rows, entries[..|entries| - 1], now);
    }
  }

  /** Counting clears the stamp of every block it counts, inserts missing rows and touches no other. */
  lemma {:induction false} CountingRevives(rows: map<Hash, Row>, entries: seq<Entry>, h: Hash)
    ensures var r := CountedAll(rows, entries);
      && (h in r <==> h in rows || h in Holds(entries))
      && (h in rows ==> r[h].size == rows[h].size)
      && (h in Holds(entries) ==> r[h].releasedAt == None)
      && (h !in Holds(entries) && h in rows ==> r[h] == rows[h])
      && (h in r && h !in rows ==> exists i :: 0 <= i < |entries| && entries[i] == Entry(h, r[h].size))
  {
    if entries != [] {
      var front, last := entries[..|entries| - 1], entries[|entries| - 1];
      CountingRevives(rows, front, h);
      var r := CountedAll(rows, front);
      if h in r && h !in rows {
        var i :| 0 <= i < |front| && front[i] == Entry(h, r[h].size);
        assert entries[i] == front[i];
      } else if h == last.hash && h !in rows {
        assert entries[|entries| - 1] == Entry(h, last.size);
      }
    }
  }

  lemma {:induction false} CountingOutcome(rows: map<Hash, Row>, entries: seq<Entry>)
    ensures var r := CountedAll(rows, entries);
      && (forall h :: Refs(r, h) == Refs(rows, h) + Holds(entries)[h])
      && (forall h :: h in Holds(entries) ==> h in r && r[h].releasedAt == None)
      && (forall h :: h in rows ==> h in r && r[h].size == rows[h].size)
      && (forall h :: h !in Holds(entries) ==> Same(r, rows, h))
  {
    var r := CountedAll(rows, entries);
    forall h ensures Refs(r, h) == Refs(rows, h) + Holds(entries)[h] { CountingAdds(rows, entries, h); }
    forall h ensures (h in Holds(entries) ==> h in r && r[h].releasedAt == None)
                     && (h in rows ==> h in r && r[h].size == rows[h].size) && (h !in Holds(entries) ==> Same(r, rows, h))
    {
      CountingRevives(rows, entries, h);
    }
  }

  lemma {:induction false} ReleasingOutcome(rows: map<Hash, Row>, entries: seq<Entry>, now: nat)
    ensures var r := ReleasedAll(rows, entries, now);
      && r.Keys == rows.Keys
      && (forall h :: Refs(r, h) == Less(Refs(rows, h), Holds(entries)[h]))
      && (forall h :: h in r ==> ReleasedRow(rows[h], r[h], now))
  {
    ReleasingStamps(rows, entries, now);
    forall h ensures Refs(ReleasedAll(rows, entries, now), h) == Less(Refs(rows, h), Holds(entries)[h]) {
      ReleasingSubtracts(rows, entries, now, h);
    }
  }

  // ---------------------------------------------------------------- collecting

  function Seconds(nanos: nat): nat { nanos / NANOS }

  /** The row condition of the GC query. */
  predicate Collectable(rows: map<Hash, Row>, h: Hash, cutoff: int) {
    h in rows && rows[h].refcount == 0 && rows[h].releasedAt.Some? && rows[h].releasedAt.value < cutoff
  }

  function CutoffTime(cutoff: int): int {
    (if cutoff < 0 then 0 else cutoff) * NANOS
  }

  /** Some upload shared the block after the pass's cutoff. */
  predicate SharedSince(files: map<Hash, nat>, h: Hash, cutoff: int) {
    h in files && files[h] > CutoffTime(cutoff)
  }

  /** `DELETE ... WHERE hash = ? AND refcount <= 0`. */
  function RowDropped(rows: map<Hash, Row>, h: Hash): map<Hash, Row> {
    if Refs(rows, h) == 0 then rows - {h} else rows
  }

  /** One turn of the collection loop with nothing running beside it. */
  function CollectOne(rows: map<Hash, Row>, files: map<Hash, nat>, h: Hash, cutoff: int, stuck: set<Hash>)
    : (map<Hash, Row>, map<Hash, nat>, nat)
  {
    if SharedSince(files, h, cutoff) || (h in stuck && h in files) then (rows, files, 0)
    else (RowDropped(rows, h), files - {h}, 1)
  }

  function CollectAll(rows: map<Hash, Row>, files: map<Hash, nat>, hashes: seq<Hash>, cutoff: int, stuck: set<Hash>)
    : (map<Hash, Row>, map<Hash, nat>, nat)
  {
    if hashes == [] then (rows, files, 0)
    else
      var (r, f, n) := CollectAll(rows, files, hashes[..|hashes| - 1], cutoff, stuck);
      var (r', f', one) := CollectOne(r, f, hashes[|hashes| - 1], cutoff, stuck);
      (r', f', n + one)
  }

  /** The listed blocks a pass removes: not shared since the cutoff, and with a file that can go or is gone. */
  function Removable(files: map<Hash, nat>, hashes: seq<Hash>, cutoff: int, stuck: set<Hash>): set<Hash> {
    set h | h in hashes && !SharedSince(files, h, cutoff) && !(h in stuck && h in files)
  }

  /**
   * A pass alone removes exactly the removable blocks it listed. A referenced block, one shared since the cutoff, one
   * whose file resists and one it did not list keep their rows and files.
   */
  lemma {:induction false} CollectAllSpares(rows: map<Hash, Row>, files: map<Hash, nat>, hashes: seq<Hash>,
                                            cutoff: int, stuck: set<Hash>, h: Hash)
    requires forall i :: 0 <= i < |hashes| ==> Refs(rows, hashes[i]) == 0
    ensures var (r, f, n) := CollectAll(rows, files, hashes, cutoff, stuck);
      if h in Removable(files, hashes, cutoff, stuck) then h !in r && h !in f
      else Same(r, rows, h) && Same(f, files, h)
  {
    if hashes != [] {
      var front := hashes[..|hashes| - 1];
      CollectAllSpares(rows, files, front, cutoff, stuck, h);
    }
  }

  /** A pass counts each block it removed once. */
  lemma {:induction false} CollectAllCounts(rows: map<Hash, Row>, files: map<Hash, nat>, hashes: seq<Hash>,
                                            cutoff: int, stuck: set<Hash>)
    requires forall i :: 0 <= i < |hashes| ==> Refs(rows, hashes[i]) == 0
    requires forall i, j :: 0 <= i < j < |hashes| ==> hashes[i] != hashes[j]
    ensures CollectAll(rows, files, hashes, cutoff, stuck).2 == |Removable(files, hashes, cutoff, stuck)|
  {
    if hashes == [] {
      assert Removable(files, hashes, cutoff, stuck) == {};
    } else {
      var front, last := hashes[..|hashes| - 1], hashes[|hashes| - 1];
      CollectAllCounts(rows, files, front, cutoff, stuck);
      CollectAllSpares(rows, files, front, cutoff, stuck, last);
      assert last !in front;
      RemovableLast(files, hashes, cutoff, stuck);
    }
  }

  lemma {:induction false} RemovableLast(files: map<Hash, nat>, hashes: seq<Hash>, cutoff: int, stuck: set<Hash>)
    requires hashes != [] && hashes[|hashes| - 1] !in hashes[..|hashes| - 1]
    ensures var front, last := hashes[..|hashes| - 1], hashes[|hashes| - 1];
      |Removable(files, hashes, cutoff, stuck)| == |Removable(files, front, cutoff, stuck)|
        + if !SharedSince(files, last, cutoff) && !(last in stuck && last in files) then 1 else 0
  {
    var front, last := hashes[..|hashes| - 1], hashes[|hashes| - 1];
    var one := if !SharedSince(files, last, cutoff) && !(last in stuck && last in files) then {last} else {};
    assert Removable(files, hashes, cutoff, stuck) == Removable(files, front, cutoff, stuck) + one by {
      assert forall h :: h in hashes <==> h in front || h == last by { assert hashes == front + [last]; }
    }
  }

  /** What the query lists: distinct collectable blocks, up to `limit`, and all of them when there are fewer. */
  ghost predicate Lists(listed: seq<Hash>, rows: map<Hash, Row>, cutoff: int, limit: nat) {
    && (forall i :: 0 <= i < |listed| ==> Collectable(rows, listed[i], cutoff))
    && (forall i, j :: 0 <= i < j < |listed| ==> listed[i] != listed[j])
    && |listed| <= limit && (|listed| < limit ==> forall h :: Collectable(rows, h, cutoff) ==> h in listed)
  }

  /**
   * A block whose last references were released is listed by the first pass after its grace that reaches the end
   * of the list, and unless an upload shared it, its file and row are then gone.
   */
  lemma {:induction false} ReleasedIsCollected(rows: map<Hash, Row>, files: map<Hash, nat>, entries: seq<Entry>, now: nat,
                                               h: Hash, cutoff: int, listed: seq<Hash>, limit: nat, stuck: set<Hash>)
    requires 0 < Refs(rows, h) <= Holds(entries)[h] && now < cutoff
    requires Lists(listed, ReleasedAll(rows, entries, now), cutoff, limit) && |listed| < limit
    requires !SharedSince(files, h, cutoff) && h !in stuck
    ensures var (r, f, n) := CollectAll(ReleasedAll(rows, entries, now), files, listed, cutoff, stuck);
      h in listed && h !in r && h !in f
  {
    ReleasingSubtracts(rows, entries, now, h);
    ReleasingStamps(rows, entries, now);
    CollectAllSpares(ReleasedAll(rows, entries, now), files, listed, cutoff, stuck, h);
  }

  /** The table and the block directory of one node. */
  class BlockStore {
    var rows: map<Hash, Row>
    var files: map<Hash, nat>        // modification times
    var blocks: map<Hash, Content>   // what reading a block back gives; a damaged file gives nothing

    /** Reading a block back: only bytes that a file holds and that read well. */
    function ReadBlock(h: Hash): Option<Content>
      reads this`files, this`blocks
    {
      if h in files && h in blocks then Some(blocks[h]) else None
    }

    /**
     * Writes a block or shares the stored one after comparing bytes. Whoever is told the hash reads their own
     * chunk back; a block already stored, readable or not, keeps its bytes.
     */
    method StoreBlock(h: Hash, chunk: Content, now: nat) returns (shared: Option<Hash>)
      modifies this`files, this`blocks
      ensures shared.Some? ==> shared.value == h && ReadBlock(h) == Some(chunk) && files[h] == now
      ensures shared.None? <==> h in old(files) && old(ReadBlock(h)) != Some(chunk)
      ensures forall k :: k in old(files) ==> ReadBlock(k) == old(ReadBlock(k))
      ensures files == if shared.Some? then old(files)[h := now] else old(files)
    {
      if h in files {
        if h !in blocks || blocks[h] != chunk { return None; }
        files := files[h := now];
        return Some(h);
      }
      files, blocks := files[h := now], blocks[h := chunk];
      return Some(h);
    }

    /** `budget` statements succeed before the database fails; what was counted stays counted. */
    method IncRefs(entries: seq<Entry>, budget: nat) returns (ok: bool)
      modifies this`rows
      ensures ok <==> budget >= |entries|
      ensures rows == CountedAll(old(rows), entries[..if ok then |entries| else budget])
      ensures ok ==> forall h :: Refs(rows, h) == Refs(old(rows), h) + Holds(entries)[h]
      ensures ok ==> forall h :: h in Holds(entries) ==> h in rows && rows[h].releasedAt == None
      ensures forall h :: h in old(rows) ==> h in rows && rows[h].size == old(rows)[h].size
      ensures ok ==> forall h :: h !in Holds(entries) ==> Same(rows, old(rows), h)
    {
      CountingOutcome(rows, entries[..if budget < |entries| then budget else |entries|]);
      assert entries[..|entries|] == entries;
      var i := 0;
      while i < |entries|
        invariant 0 <= i <= |entries| && i <= budget
        invariant rows == CountedAll(old(rows), entries[..i])
      {
        if i == budget { return false; }
        assert entries[..i + 1][..i] == entries[..i];
        rows := Counted(rows, entries[i]);
        i := i + 1;
      }
      return true;
    }

    method DecRefs(entries: seq<Entry>, now: nat, budget: nat) returns (ok: bool)
      modifies this`rows
      ensures ok <==> budget >= |entries|
      ensures rows == ReleasedAll(old(rows), entries[..if ok then |entries| else budget], now)
      ensures rows.Keys == old(rows).Keys
      ensures ok ==> forall h :: Refs(rows, h) == Less(Refs(old(rows), h), Holds(entries)[h])
      ensures forall h :: h in rows ==> ReleasedRow(old(rows)[h], rows[h], now)
      ensures forall h, cutoff: int :: Refs(old(rows), h) > 0 && Refs(rows, h) == 0 && now < cutoff ==>
        Collectable(rows, h, cutoff)
    {
      ReleasingOutcome(rows, entries[..if budget < |entries| then budget else |entries|], now);
      assert entries[..|entries|] == entries;
      var i := 0;
      while i < |entries|
        invariant 0 <= i <= |entries| && i <= budget
        invariant rows == ReleasedAll(old(rows), entries[..i], now)
      {
        if i == budget { return false; }
        assert entries[..i + 1][..i] == entries[..i];
        rows := Released(rows, entries[i], now);
        i := i + 1;
      }
      return true;
    }

    /** The loop of `gc_released_blocks` over what its query listed; `stuck` files cannot be removed. */
    method CollectReleased(listed: seq<Hash>, cutoff: int, stuck: set<Hash>) returns (removed: nat)
      requires forall i :: 0 <= i < |listed| ==> Collectable(rows, listed[i], cutoff)
      modifies this`rows, this`files
      ensures (rows, files, removed) == CollectAll(old(rows), old(files), listed, cutoff, stuck)
      ensures forall h :: h in Removable(old(files), listed, cutoff, stuck) ==> h !in rows && h !in files
      ensures forall h :: h !in Removable(old(files), listed, cutoff, stuck) ==>
        Same(rows, old(rows), h) && Same(files, old(files), h)
      ensures (forall i, j :: 0 <= i < j < |listed| ==> listed[i] != listed[j]) ==>
        removed == |Removable(old(files), listed, cutoff, stuck)|
    {
      if forall i, j :: 0 <= i < j < |listed| ==> listed[i] != listed[j] {
        CollectAllCounts(rows, files, listed, cutoff, stuck);
      }
      removed := 0;
      var i := 0;
      while i < |listed|
        invariant 0 <= i <= |listed|
        invariant (rows, files, removed) == CollectAll(old(rows), old(files), listed[..i], cutoff, stuck)
      {
        var h := listed[i];
        assert listed[..i + 1][..i] == listed[..i];
        if !SharedSince(files, h, cutoff) && (h !in stuck || h !in files) {
          files := files - {h};
          rows := RowDropped(rows, h);
          removed := removed + 1;
        }
        i := i + 1;
      }
      assert listed[..i] == listed;
      forall h ensures if h in Removable(old(files), listed, cutoff, stuck) then h !in rows && h !in files
                       else Same(rows, old(rows), h) && Same(files, old(files), h)
      {
        CollectAllSpares(old(rows), old(files), listed, cutoff, stuck, h);
      }
    }
  }
}
