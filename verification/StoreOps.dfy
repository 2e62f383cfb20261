/**
 * The locked sections that change rows and files in place (`engine.rs`, `maintenance.rs`, `reconcile.rs`), each
 * shown to carry out one of the plans the concurrent model allows for it.
 */
module StoreOps {
  import opened Common
  import opened ObjectStore

  const BULK_DELETE_CHUNK := 64

  /** The cells after a plan, seen key by key. */
  ghost predicate CarriedOut(before: map<Key, Cell>, ops: seq<Op>, after: map<Key, Cell>) {
    forall k :: At(after, k) == ApplyAll(At(before, k), k, ops)
  }

  ghost predicate Does(before: map<Key, Cell>, i: Intent, after: map<Key, Cell>) {
    exists ops :: IsPlan(before, i, ops) && CarriedOut(before, ops, after)
  }

  lemma {:induction false} ApplyAllThen(c: Cell, k: Key, ops: seq<Op>, more: seq<Op>)
    ensures ApplyAll(c, k, ops + more) == ApplyAll(ApplyAll(c, k, ops), k, more)
    decreases |ops|
  {
    if ops == [] {
      assert ops + more == more;
    } else {
      assert (ops + more)[1..] == ops[1..] + more;
      ApplyAllThen(Apply(c, k, ops[0]), k, ops[1..], more);
    }
  }

  /** The removals that succeed, as the plan records them. */
  function Removals(k: Key, stuckPrimary: bool, stuckFallback: bool): seq<Op> {
    (if stuckPrimary then [] else [ClearPrimary(k)]) + (if stuckFallback then [] else [ClearFallback(k)])
  }

  function Removed(c: Cell, stuckPrimary: bool, stuckFallback: bool): Cell {
    c.(primary := if stuckPrimary then c.primary else None, fallback := if stuckFallback then c.fallback else None)
  }

  lemma RemovalsRemove(c: Cell, k: Key, j: Key, stuckPrimary: bool, stuckFallback: bool)
    ensures Drops(Removals(k, stuckPrimary, stuckFallback), {k})
    ensures ApplyAll(c, j, Removals(k, stuckPrimary, stuckFallback)) ==
            if j == k then Removed(c, stuckPrimary, stuckFallback) else c
  {
    ApplyAll2(c, j, ClearPrimary(k), ClearFallback(k));
    ApplyAll2(c, j, ClearFallback(k), ClearFallback(k));
  }

  /** A deleted key: its row gone or soft-deleted, its files gone or kept. Deleting it again changes nothing. */
  function Deleted(c: Cell, at: Option<int>, dropFiles: bool): (d: Cell)
    ensures !d.row.Active?
  {
    var row := if at.None? then Absent else if c.row.Active? then SoftDeleted(at.value) else c.row;
    if dropFiles then Cell(None, None, row) else c.(row := row)
  }

  function Members(keys: seq<Key>): set<Key> {
    set k | k in keys
  }

  /** The removals of a chunk's files, as the plan records them. */
  function ChunkRemovals(keys: seq<Key>, resists: set<Key>): seq<Op> {
    if keys == [] then []
    else Removals(keys[0], keys[0] in resists, keys[0] in resists) + ChunkRemovals(keys[1..], resists)
  }

  lemma {:induction false} ChunkRemovalsRemove(c: Cell, k: Key, keys: seq<Key>, resists: set<Key>)
    ensures ApplyAll(c, k, ChunkRemovals(keys, resists)) ==
            if k in keys && k !in resists then Removed(c, false, false) else c
    decreases |keys|
  {
    if keys != [] {
      var stuck := keys[0] in resists;
      var d := ApplyAll(c, k, Removals(keys[0], stuck, stuck));
      ApplyAllThen(c, k, Removals(keys[0], stuck, stuck), ChunkRemovals(keys[1..], resists));
      RemovalsRemove(c, keys[0], k, stuck, stuck);
      ChunkRemovalsRemove(d, k, keys[1..], resists);
    }
  }

  lemma {:induction false} ChunkRemovalsDrop(keys: seq<Key>, resists: set<Key>, all: set<Key>)
    requires forall k :: k in keys ==> k in all
    ensures Drops(ChunkRemovals(keys, resists), all)
    decreases |keys|
  {
    if keys != [] {
      ChunkRemovalsDrop(keys[1..], resists, all);
      RemovalsRemove(Empty, keys[0], keys[0], keys[0] in resists, keys[0] in resists);
    }
  }

  lemma {:induction false} ChunkCell(c: Cell, k: Key, keys: seq<Key>, at: Option<int>, resists: set<Key>)
    ensures ApplyAll(c, k, [Deactivate(Members(keys), at)] + ChunkRemovals(keys, resists)) ==
            if k in keys then Deleted(c, at, k !in resists) else c
  {
    var first := Deactivate(Members(keys), at);
    ApplyAllThen(c, k, [first], ChunkRemovals(keys, resists));
    ApplyAll2(c, k, first, first);
    ChunkRemovalsRemove(Apply(c, k, first), k, keys, resists);
  }

  /** What a chunk does to its keys is a plan the concurrent model allows for their bulk delete. */
  lemma {:induction false} ChunkIsAllowed(before: map<Key, Cell>, keys: seq<Key>, at: Option<int>, resists: set<Key>,
                                          after: map<Key, Cell>)
    requires forall k :: k in keys ==> At(after, k) == Deleted(At(before, k), at, k !in resists)
    requires forall k :: k !in keys ==> At(after, k) == At(before, k)
    ensures Does(before, Delete(Members(keys), at), after)
  {
    var all := Members(keys);
    var first, rest := Deactivate(all, at), ChunkRemovals(keys, resists);
    ChunkRemovalsDrop(keys, resists, all);
    forall k ensures At(after, k) == ApplyAll(At(before, k), k, [first] + rest) {
      ChunkCell(At(before, k), k, keys, at, resists);
    }
    assert ([first] + rest)[1..] == rest;
    assert IsPlan(before, Delete(all, at), [first] + rest) && CarriedOut(before, [first] + rest, after);
  }

  /** Of the first `i` keys, those of failing chunks are reported failed and all others deleted, in their order. */
  predicate Reported(pending: seq<Key>, i: nat, failing: set<nat>, deleted: seq<Key>, failed: seq<Key>)
    requires i <= |pending|
  {
    && (forall n :: 0 <= n < i ==>
          if n / BULK_DELETE_CHUNK in failing then pending[n] in failed else pending[n] in deleted)
    && (failing == {} ==> deleted == pending[..i])
  }

  lemma ReportedNext(pending: seq<Key>, i: nat, end: nat, chunk: nat, failing: set<nat>, deleted: seq<Key>,
                     failed: seq<Key>)
    requires i <= end <= |pending| && i == BULK_DELETE_CHUNK * chunk && end <= i + BULK_DELETE_CHUNK
    requires Reported(pending, i, failing, deleted, failed)
    ensures chunk in failing ==> Reported(pending, end, failing, deleted, failed + pending[i..end])
    ensures chunk !in failing ==> Reported(pending, end, failing, deleted + pending[i..end], failed)
  {
    ChunkMembers(pending, i, end, chunk);
    assert pending[..end] == pending[..i] + pending[i..end];
  }

  lemma ChunkMembers(pending: seq<Key>, i: nat, end: nat, chunk: nat)
    requires i <= end <= |pending| && i == BULK_DELETE_CHUNK * chunk && end <= i + BULK_DELETE_CHUNK
    ensures forall n :: i <= n < end ==> n / BULK_DELETE_CHUNK == chunk && pending[n] in pending[i..end]
  {
    forall n | i <= n < end ensures n / BULK_DELETE_CHUNK == chunk && pending[n] in pending[i..end] {
      assert pending[i..end][n - i] == pending[n];
    }
  }

  /**
   * What a delete leaves of a key: no row after a hard delete, a stamped one after a soft delete of a live object, an
   * older stamp kept; and with its files dropped nothing to read.
   */
  lemma DeletedMeans(c: Cell, at: Option<int>, dropFiles: bool)
    ensures var d := Deleted(c, at, dropFiles);
      && (at.None? ==> d.row == Absent) && (at.Some? && c.row.Active? ==> d.row == SoftDeleted(at.value))
      && (at.Some? && !c.row.Active? ==> d.row == c.row)
      && (dropFiles ==> Visible(d).None?) && (!dropFiles ==> d == c.(row := d.row))
  {
  }

  predicate Expired(c: Cell, cutoff: int) {
    c.row.SoftDeleted? && c.row.at < cutoff
  }

  /** What becomes of a file to be dropped: it goes, it resists removal, or the release of its references fails. */
  datatype Removal = Goes | Resists | ReleaseFails

  /** A drop takes the current name first; a release that fails ends it there. */
  function Ends(file: Option<FileId>, removal: Removal): bool {
    file.Some? && removal.ReleaseFails?
  }

  predicate DropSucceeds(c: Cell, primary: Removal, fallback: Removal) {
    !Ends(c.primary, primary) && !Ends(c.fallback, fallback)
  }

  function Dropped(c: Cell, primary: Removal, fallback: Removal): Cell {
    Removed(c, !primary.Goes?, Ends(c.primary, primary) || !fallback.Goes?)
  }

  /** A purged key: an expired row goes, and its files are dropped unless they went at the delete. */
  function Purged(c: Cell, cutoff: int, dropped: bool, primary: Removal, fallback: Removal): Cell {
    if !Expired(c, cutoff) then c
    else if dropped then c.(row := Absent) else Dropped(c.(row := Absent), primary, fallback)
  }

  function CountExpired(cells: map<Key, Cell>, keys: seq<Key>, cutoff: int): nat {
    if keys == [] then 0
    else CountExpired(cells, keys[..|keys| - 1], cutoff) + if Expired(At(cells, keys[|keys| - 1]), cutoff) then 1 else 0
  }

  /** Purging one key is a plan the concurrent model allows, whatever its row turned into since it was listed. */
  lemma PurgeIsAllowed(before: map<Key, Cell>, k: Key, cutoff: int, dropped: bool, primary: Removal,
                       fallback: Removal, after: map<Key, Cell>)
    requires At(after, k) == Purged(At(before, k), cutoff, dropped, primary, fallback)
    requires forall j :: j != k ==> At(after, j) == At(before, j)
    ensures Does(before, Purge(k, cutoff), after)
  {
    var c := At(before, k);
    if Expired(c, cutoff) {
      var keepPrimary := dropped || !primary.Goes?;
      var keepFallback := dropped || Ends(c.primary, primary) || !fallback.Goes?;
      var first, rest := Deactivate({k}, None), Removals(k, keepPrimary, keepFallback);
      forall j ensures At(after, j) == ApplyAll(At(before, j), j, [first] + rest) {
        ApplyAllThen(At(before, j), j, [first], rest);
        ApplyAll2(At(before, j), j, first, first);
        RemovalsRemove(Apply(At(before, j), j, first), k, j, keepPrimary, keepFallback);
      }
      RemovalsRemove(c, k, k, keepPrimary, keepFallback);
      assert ([first] + rest)[1..] == rest;
      assert IsPlan(before, Purge(k, cutoff), [first] + rest) && CarriedOut(before, [first] + rest, after);
    } else {
      assert IsPlan(before, Purge(k, cutoff), []) && CarriedOut(before, [], after);
    }
  }

  class Engine {
    var cells: map<Key, Cell>

    /** Drops the files of a key whose row is already gone; files that resist removal stay. */
    method DropBlob(k: Key, stuckPrimary: bool, stuckFallback: bool)
      modifies this
      ensures forall j :: At(cells, j) == ApplyAll(old(At(cells, j)), j, Removals(k, stuckPrimary, stuckFallback))
    {
      var c := At(cells, k);
      if c.primary.Some? && !stuckPrimary { c := c.(primary := None); }
      if c.fallback.Some? && !stuckFallback { c := c.(fallback := None); }
      cells := cells[k := c];
      forall j ensures At(cells, j) == ApplyAll(old(At(cells, j)), j, Removals(k, stuckPrimary, stuckFallback)) {
        RemovalsRemove(old(At(cells, j)), k, j, stuckPrimary, stuckFallback);
      }
    }

    /** A single delete under the key lock: the row first, then the bytes. */
    method DeleteLocked(k: Key, ttl: int, dropBlob: bool, now: int, commits: bool, stuckPrimary: bool, stuckFallback: bool)
      returns (ok: bool)
      modifies this
      ensures Does(old(cells), Delete({k}, if ttl <= 0 then None else Some(now)), cells)
      ensures ok && old(At(cells, k)).row.Active? ==>
        At(cells, k) == Removed(Deleted(old(At(cells, k)), if ttl <= 0 then None else Some(now), false),
                                stuckPrimary || (ttl > 0 && !dropBlob), stuckFallback || (ttl > 0 && !dropBlob))
      ensures ok && old(At(cells, k)).row.Active? ==> At(cells, k).row == if ttl <= 0 then Absent else SoftDeleted(now)
      ensures ok && old(At(cells, k)).row.Active? && (ttl <= 0 || dropBlob) && !stuckPrimary && !stuckFallback ==>
        Visible(At(cells, k)).None?
      ensures forall j :: j != k ==> At(cells, j) == old(At(cells, j))
      ensures !ok || !old(At(cells, k)).row.Active? ==> cells == old(cells)
      ensures ok <==> commits || !old(At(cells, k)).row.Active?
    {
      ghost var i := Delete({k}, if ttl <= 0 then None else Some(now));
      assert IsPlan(cells, i, []) && CarriedOut(cells, [], cells);
      var c := At(cells, k);
      if !c.row.Active? { return true; }
      if !commits { return false; }
      ghost var first := Deactivate({k}, if ttl <= 0 then None else Some(now));
      cells := cells[k := c.(row := if ttl <= 0 then Absent else SoftDeleted(now))];
      ghost var mid := cells;
      assert forall j :: At(mid, j) == Apply(old(At(cells, j)), j, first);
      ghost var ops := [first];
      if ttl <= 0 || dropBlob {
        DropBlob(k, stuckPrimary, stuckFallback);
        ops := [first] + Removals(k, stuckPrimary, stuckFallback);
        forall j ensures ApplyAll(At(mid, j), j, Removals(k, stuckPrimary, stuckFallback)) ==
                         if j == k then Removed(At(mid, j), stuckPrimary, stuckFallback) else At(mid, j)
        {
          RemovalsRemove(At(mid, j), k, j, stuckPrimary, stuckFallback);
        }
      }
      forall j ensures At(cells, j) == ApplyAll(old(At(cells, j)), j, ops) {
        ApplyAll2(old(At(cells, j)), j, first, first);
        ApplyAllThen(old(At(cells, j)), j, [first], ops[1..]);
        assert ops == [first] + ops[1..];
      }
      assert CarriedOut(old(cells), ops, cells);
      DropsKeepRow(At(mid, k), k, ops[1..], {k});
      return true;
    }

    /** Drops the files of a key one after the other; a release that fails ends it with an error. */
    method DropFiles(k: Key, primary: Removal, fallback: Removal) returns (ok: bool)
      modifies this
      ensures At(cells, k) == Dropped(old(At(cells, k)), primary, fallback)
      ensures forall j :: j != k ==> At(cells, j) == old(At(cells, j))
      ensures ok <==> DropSucceeds(old(At(cells, k)), primary, fallback)
      ensures At(cells, k).row == old(At(cells, k)).row
      ensures At(cells, k).primary == if primary.Goes? then None else old(At(cells, k)).primary
      ensures At(cells, k).fallback == if fallback.Goes? && !(old(At(cells, k)).primary.Some? && primary.ReleaseFails?)
                                       then None else old(At(cells, k)).fallback
    {
      var c := At(cells, k);
      if c.primary.Some? {
        if primary.ReleaseFails? { return false; }
        if primary.Goes? { c := c.(primary := None); }
        cells := cells[k := c];
      }
      if c.fallback.Some? {
        if fallback.ReleaseFails? { return false; }
        if fallback.Goes? { c := c.(fallback := None); }
        cells := cells[k := c];
      }
      return true;
    }

    /**
     * One key of the purge, looked at again under its lock. A row statement that fails changes nothing; a release
     * that fails ends the purge with the row gone.
     */
    method PurgeOne(k: Key, cutoff: int, dropped: bool, rowFails: bool, primary: Removal, fallback: Removal)
      returns (went: bool, ok: bool)
      modifies this
      ensures Does(old(cells), Purge(k, cutoff), cells)
      ensures rowFails ==> !ok && !went && cells == old(cells)
      ensures !rowFails ==> (went <==> Expired(old(At(cells, k)), cutoff))
      ensures went ==> old(At(cells, k)).row.SoftDeleted? && old(At(cells, k)).row.at < cutoff
      ensures !rowFails && old(At(cells, k)).row.SoftDeleted? && old(At(cells, k)).row.at < cutoff ==> went
      ensures !rowFails ==> (ok <==> !went || dropped || DropSucceeds(old(At(cells, k)), primary, fallback))
      ensures !rowFails ==> At(cells, k) == Purged(old(At(cells, k)), cutoff, dropped, primary, fallback)
      ensures went ==> At(cells, k).row == Absent
      ensures went && !dropped && primary.Goes? && fallback.Goes? ==> ok && At(cells, k) == Empty
      ensures went && dropped ==> At(cells, k) == old(At(cells, k)).(row := Absent)
      ensures !went ==> At(cells, k) == old(At(cells, k))
      ensures forall j :: j != k ==> At(cells, j) == old(At(cells, j))
    {
      if rowFails {
        assert IsPlan(cells, Purge(k, cutoff), []) && CarriedOut(cells, [], cells);
        return false, false;
      }
      went, ok := Expired(At(cells, k), cutoff), true;
      if went {
        cells := cells[k := At(cells, k).(row := Absent)];
        if !dropped { ok := DropFiles(k, primary, fallback); }
      }
      PurgeIsAllowed(old(cells), k, cutoff, dropped, primary, fallback, cells);
    }

    /**
     * The purge loop over what was listed. A row statement or a release that fails ends it: `done` keys are
     * purged, the next one is left as `PurgeOne` leaves it, and the rest are untouched.
     */
    method PurgeSoftDeleted(listed: seq<Key>, cutoff: int, dropped: bool, rowFails: set<Key>,
                            primary: Key -> Removal, fallback: Key -> Removal)
      returns (purged: nat, done: nat)
      requires forall i, j :: 0 <= i < j < |listed| ==> listed[i] != listed[j]
      modifies this
      ensures done <= |listed| && purged == CountExpired(old(cells), listed[..done], cutoff)
      ensures forall k :: k in listed[..done] ==> k !in rowFails
      ensures forall k :: k in listed[..done] ==>
        At(cells, k) == Purged(old(At(cells, k)), cutoff, dropped, primary(k), fallback(k))
      ensures done < |listed| ==> var k := listed[done]; var c := old(At(cells, k));
        if k in rowFails then At(cells, k) == c
        else Expired(c, cutoff) && !dropped && !DropSucceeds(c, primary(k), fallback(k))
             && At(cells, k) == Purged(c, cutoff, dropped, primary(k), fallback(k))
      ensures forall k :: k !in listed[..done] && (done < |listed| ==> k != listed[done]) ==>
        At(cells, k) == old(At(cells, k))
    {
      purged, done := 0, 0;
      while done < |listed|
        invariant done <= |listed| && purged == CountExpired(old(cells), listed[..done], cutoff)
        invariant forall k :: k in listed[..done] ==> k !in rowFails
        invariant forall k :: k in listed[..done] ==>
          At(cells, k) == Purged(old(At(cells, k)), cutoff, dropped, primary(k), fallback(k))
        invariant forall k :: k !in listed[..done] ==> At(cells, k) == old(At(cells, k))
        decreases |listed| - done
      {
        var k := listed[done];
        assert listed[..done + 1][..done] == listed[..done] && listed[..done + 1] == listed[..done] + [k];
        assert k !in listed[..done];
        var went, ok := PurgeOne(k, cutoff, dropped, k in rowFails, primary(k), fallback(k));
        if !ok { return; }
        if went { purged := purged + 1; }
        done := done + 1;
      }
    }

    /**
     * Deletes orphaned files only if, under the lock, the key has no live row. A row count or a release that
     * fails is an error.
     */
    method RemoveOrphan(k: Key, countFails: bool, primary: Removal, fallback: Removal) returns (removed: bool, ok: bool)
      modifies this
      ensures Does(old(cells), CollectOrphan(k), cells)
      ensures countFails || old(At(cells, k)).row.Active? ==> !removed && cells == old(cells)
      ensures !countFails && !old(At(cells, k)).row.Active? ==>
        At(cells, k) == Dropped(old(At(cells, k)), primary, fallback)
      ensures ok <==> !countFails && (old(At(cells, k)).row.Active? || DropSucceeds(old(At(cells, k)), primary, fallback))
      ensures ok ==> (removed <==> !old(At(cells, k)).row.Active? && old(Visible(At(cells, k))).Some?)
      ensures ok && !old(At(cells, k)).row.Active? && primary.Goes? && fallback.Goes? ==> Visible(At(cells, k)).None?
      ensures At(cells, k).row == old(At(cells, k)).row
    {
      assert IsPlan(cells, CollectOrphan(k), []) && CarriedOut(cells, [], cells);
      var c := At(cells, k);
      if countFails { return false, false; }
      if c.row.Active? { return false, true; }
      ok := DropFiles(k, primary, fallback);
      removed := ok && Visible(c).Some?;
      ghost var keepFallback := Ends(c.primary, primary) || !fallback.Goes?;
      ghost var ops := Removals(k, !primary.Goes?, keepFallback);
      forall j ensures At(cells, j) == ApplyAll(old(At(cells, j)), j, ops) {
        RemovalsRemove(old(At(cells, j)), k, j, !primary.Goes?, keepFallback);
      }
      RemovalsRemove(c, k, k, !primary.Goes?, keepFallback);
      assert IsPlan(old(cells), CollectOrphan(k), ops) && CarriedOut(old(cells), ops, cells);
    }

    /** Reconciliation drops a live row whose files are gone, looked at again under the lock. */
    method RemoveStaleRow(k: Key) returns (removed: bool)
      modifies this
      ensures Does(old(cells), ObjectStore.DropStaleRow(k), cells)
      ensures removed <==> old(At(cells, k)).row.Active? && old(Visible(At(cells, k))).None?
      ensures removed ==> At(cells, k) == Empty
      ensures !removed ==> cells == old(cells)
      ensures forall j :: j != k ==> At(cells, j) == old(At(cells, j))
    {
      assert IsPlan(cells, ObjectStore.DropStaleRow(k), []) && CarriedOut(cells, [], cells);
      var c := At(cells, k);
      removed := Visible(c).None? && c.row.Active?;
      if removed {
        cells := cells[k := c.(row := Absent)];
        ghost var ops := [Deactivate({k}, None)];
        forall j ensures At(cells, j) == ApplyAll(old(At(cells, j)), j, ops) {
          ApplyAll2(old(At(cells, j)), j, ops[0], ops[0]);
        }
        assert IsPlan(old(cells), ObjectStore.DropStaleRow(k), ops) && CarriedOut(old(cells), ops, cells);
      }
    }

    /** Swaps maintenance output in only when the file at the stamped name is still the stamped one. */
    method ReplaceIfUnchanged(i: Intent, renames: bool, stuck: bool) returns (replaced: bool)
      requires i.Maintain? && (i.fromPrimary ==> i.toPrimary)
      modifies this
      ensures Does(old(cells), i, cells)
      ensures replaced <==> renames && old(FileAt(At(cells, i.key), i.fromPrimary)) == Some(i.stamp)
      ensures !replaced ==> cells == old(cells)
      ensures replaced ==> FileAt(At(cells, i.key), i.toPrimary) == Some(i.file)
      ensures replaced && i.toPrimary ==>
        At(cells, i.key).fallback == if i.fromPrimary || stuck then old(At(cells, i.key)).fallback else None
      ensures forall j :: j != i.key ==> At(cells, j) == old(At(cells, j))
    {
      assert IsPlan(cells, i, []) && CarriedOut(cells, [], cells);
      var c := At(cells, i.key);
      if FileAt(c, i.fromPrimary) != Some(i.stamp) || !renames { return false; }
      ghost var ops;
      if i.toPrimary {
        c := c.(primary := Some(i.file));
        ops := [SetPrimary(i.key, i.file)];
        if !i.fromPrimary && !stuck {
          c := c.(fallback := None);
          ops := [SetPrimary(i.key, i.file), ClearFallback(i.key)];
        }
      } else {
        c := c.(fallback := Some(i.file));
        ops := [SetFallback(i.key, i.file)];
      }
      cells := cells[i.key := c];
      forall j ensures At(cells, j) == ApplyAll(old(At(cells, j)), j, ops) {
        ApplyAll2(old(At(cells, j)), j, ops[0], ClearFallback(i.key));
      }
      assert IsPlan(old(cells), i, ops) && CarriedOut(old(cells), ops, cells);
      return true;
    }

    /**
     * A bulk delete, a chunk of keys at a time. A chunk whose metadata update fails is reported and changes
     * nothing; the other chunks go on. Files go with a hard delete, or with a soft one set to drop them.
     */
    method DeleteObjects(pending: seq<Key>, at: Option<int>, dropBlob: bool, failing: set<nat>, resists: set<Key>)
      returns (deleted: seq<Key>, failed: seq<Key>)
      modifies this
      ensures multiset(deleted) + multiset(failed) == multiset(pending)
      ensures Reported(pending, |pending|, failing, deleted, failed)
      ensures forall k :: k in deleted ==>
        At(cells, k) == Deleted(old(At(cells, k)), at, (at.None? || dropBlob) && k !in resists)
      ensures forall k :: k !in deleted ==> At(cells, k) == old(At(cells, k))
    {
      deleted, failed := [], [];
      var i, chunk := 0, 0;
      while i < |pending|
        invariant 0 <= i <= |pending|
        invariant multiset(deleted) + multiset(failed) == multiset(pending[..i])
        invariant i == |pending| || i == BULK_DELETE_CHUNK * chunk
        invariant Reported(pending, i, failing, deleted, failed)
        invariant forall k :: k in deleted ==>
          At(cells, k) == Deleted(old(At(cells, k)), at, (at.None? || dropBlob) && k !in resists)
        invariant forall k :: k !in deleted ==> At(cells, k) == old(At(cells, k))
      {
        var end := if i + BULK_DELETE_CHUNK < |pending| then i + BULK_DELETE_CHUNK else |pending|;
        var keys := pending[i..end];
        assert pending[..end] == pending[..i] + keys;
        ReportedNext(pending, i, end, chunk, failing, deleted, failed);
        if chunk in failing {
          failed := failed + keys;
        } else {
          DeleteChunk(keys, at, dropBlob, resists);
          deleted := deleted + keys;
        }
        i, chunk := end, chunk + 1;
      }
      assert pending[..i] == pending;
    }

    /** One chunk: one transaction over its rows, then its files. */
    method DeleteChunk(keys: seq<Key>, at: Option<int>, dropBlob: bool, resists: set<Key>)
      modifies this
      ensures Does(old(cells), Delete(Members(keys), at), cells)
      ensures forall k :: k in keys ==>
        At(cells, k) == Deleted(old(At(cells, k)), at, (at.None? || dropBlob) && k !in resists)
      ensures forall k :: k !in keys ==> At(cells, k) == old(At(cells, k))
    {
      var i := 0;
      while i < |keys|
        invariant 0 <= i <= |keys|
        invariant forall k :: k in keys[..i] ==> At(cells, k) == Deleted(old(At(cells, k)), at, false)
        invariant forall k :: k !in keys[..i] ==> At(cells, k) == old(At(cells, k))
      {
        var k := keys[i];
        assert keys[..i + 1] == keys[..i] + [k];
        cells := cells[k := Apply(At(cells, k), k, Deactivate({k}, at))];
        i := i + 1;
      }
      assert keys[..i] == keys;
      if at.None? || dropBlob { DropBlobs(keys, resists); }
      ChunkIsAllowed(old(cells), keys, at, if at.None? || dropBlob then resists else Members(keys), cells);
    }

    method DropBlobs(keys: seq<Key>, resists: set<Key>)
      modifies this
      ensures forall k :: k in keys && k !in resists ==>
        At(cells, k) == old(At(cells, k)).(primary := None, fallback := None)
      ensures forall k :: k !in keys || k in resists ==> At(cells, k) == old(At(cells, k))
    {
      var i := 0;
      while i < |keys|
        invariant 0 <= i <= |keys|
        invariant forall k :: k in keys[..i] && k !in resists ==>
          At(cells, k) == old(At(cells, k)).(primary := None, fallback := None)
        invariant forall k :: k !in keys[..i] || k in resists ==> At(cells, k) == old(At(cells, k))
      {
        var k := keys[i];
        assert keys[..i + 1] == keys[..i] + [k];
        if k !in resists {
          cells := cells[k := At(cells, k).(primary := None, fallback := None)];
        }
        i := i + 1;
      }
      assert keys[..i] == keys;
    }
  }
}
