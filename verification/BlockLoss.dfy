/**
 * Runs of the reference machine in which a file outlives its references, and what follows: the next delete of its
 * object releases them again and takes another blob's last reference. After a failed rollback a restart repairs it.
 */
module BlockLoss {
  import opened Common
  import opened Blocks
  import opened BlockRefs

  const NOTHING := World(map[], map[], map[], multiset{}, multiset{})

  /** A stored file needs the block, but its count is zero: the collector may remove it. */
  ghost predicate Lost(w: World, h: Hash) {
    Refs(w.rows, h) == 0 && exists path :: path in w.blobs && h in Holds(w.blobs[path])
  }

  ghost predicate Loses(steps: seq<Step>, h: Hash) {
    Runnable(NOTHING, steps) && Lost(Run(NOTHING, steps), h)
  }

  lemma {:induction false} Prepend(w: World, next: World, step: Step, rest: seq<Step>)
    requires Enabled(w, step) && Next(w, step) == next && Runnable(next, rest)
    ensures Runnable(w, [step] + rest) && Run(w, [step] + rest) == Run(next, rest)
  {
    assert ([step] + rest)[1..] == rest;
  }

  lemma HoldsOne(e: Entry)
    ensures Holds([e]) == multiset{e.hash}
  {
    assert [e][..0] == [];
  }

  // ---------------------------------------------------------------- single steps of the only task

  lemma {:induction false} BeginThen(w: World, es: seq<Entry>, r: World, rest: seq<Step>)
    requires w.tasks == map[] && r == w.(tasks := map[0 := Counting(es, 0)]) && Runnable(r, rest)
    ensures Runnable(w, [Begin(0, es)] + rest) && Run(w, [Begin(0, es)] + rest) == Run(r, rest)
  {
    Prepend(w, r, Begin(0, es), rest);
  }

  lemma {:induction false} CountThen(w: World, e: Entry, r: World, rest: seq<Step>)
    requires w.tasks == map[0 := Counting([e], 0)] && Runnable(r, rest)
    requires r == w.(rows := Counted(w.rows, e), tasks := map[0 := Counting([e], 1)])
    ensures Runnable(w, [CountOne(0)] + rest) && Run(w, [CountOne(0)] + rest) == Run(r, rest)
  {
    Prepend(w, r, CountOne(0), rest);
  }

  lemma {:induction false} InstallThen(w: World, path: Path, es: seq<Entry>, r: World, rest: seq<Step>)
    requires w.tasks == map[0 := Counting(es, |es|)] && path !in w.blobs && Runnable(r, rest)
    requires r == w.(blobs := w.blobs[path := es], tasks := map[0 := Releasing([])])
    ensures Runnable(w, [Install(0, path, true)] + rest) && Run(w, [Install(0, path, true)] + rest) == Run(r, rest)
  {
    Prepend(w, r, Install(0, path, true), rest);
  }

  lemma {:induction false} ReleaseThen(w: World, e: Entry, now: nat, r: World, rest: seq<Step>)
    requires w.tasks == map[0 := Releasing([e])] && Refs(w.rows, e.hash) > 0 && Runnable(r, rest)
    requires r == w.(rows := Released(w.rows, e, now), tasks := map[0 := Releasing([])])
    ensures Runnable(w, [ReleaseOne(0, now)] + rest) && Run(w, [ReleaseOne(0, now)] + rest) == Run(r, rest)
  {
    assert [e][1..] == [];
    Prepend(w, r, ReleaseOne(0, now), rest);
  }

  lemma {:induction false} DoneThen(w: World, r: World, rest: seq<Step>)
    requires w.tasks == map[0 := Releasing([])] && r == w.(tasks := map[]) && Runnable(r, rest)
    ensures Runnable(w, [Cancel(0)] + rest) && Run(w, [Cancel(0)] + rest) == Run(r, rest)
  {
    Prepend(w, r, Cancel(0), rest);
  }

  lemma {:induction false} StartDropThen(w: World, path: Path, e: Entry, r: World, rest: seq<Step>)
    requires w.tasks == map[] && path in w.blobs && w.blobs[path] == [e] && Runnable(r, rest)
    requires r == w.(blobs := w.blobs - {path}, tasks := map[0 := Dropping(path, [e], 0)])
    ensures Runnable(w, [StartDrop(0, path)] + rest) && Run(w, [StartDrop(0, path)] + rest) == Run(r, rest)
  {
    Prepend(w, r, StartDrop(0, path), rest);
  }

  lemma {:induction false} DropOneThen(w: World, path: Path, e: Entry, now: nat, r: World, rest: seq<Step>)
    requires w.tasks == map[0 := Dropping(path, [e], 0)] && Refs(w.rows, e.hash) > 0 && Runnable(r, rest)
    requires r == w.(rows := Released(w.rows, e, now), tasks := map[0 := Dropping(path, [e], 1)])
    ensures Runnable(w, [DropOne(0, now)] + rest) && Run(w, [DropOne(0, now)] + rest) == Run(r, rest)
  {
    Prepend(w, r, DropOne(0, now), rest);
  }

  lemma {:induction false} EndDropThen(w: World, path: Path, e: Entry, r: World, rest: seq<Step>)
    requires w.tasks == map[0 := Dropping(path, [e], 1)] && r == w.(tasks := map[]) && Runnable(r, rest)
    ensures Runnable(w, [EndDrop(0)] + rest) && Run(w, [EndDrop(0)] + rest) == Run(r, rest)
  {
    Prepend(w, r, EndDrop(0), rest);
  }

  /** A file that resists removal while its reference is released. */
  lemma {:induction false} StuckThen(w: World, path: Path, e: Entry, r: World, rest: seq<Step>)
    requires w.tasks == map[0 := Releasing([])] && path in w.blobs && w.blobs[path] == [e] && Runnable(r, rest)
    requires r == w.(tasks := map[0 := Releasing([e])], missing := w.missing + multiset{e.hash})
    ensures Runnable(w, [Remove(0, path, true, true)] + rest)
    ensures Run(w, [Remove(0, path, true, true)] + rest) == Run(r, rest)
  {
    HoldsOne(e);
    assert [] + [e] == [e];
    Prepend(w, r, Remove(0, path, true, true), rest);
  }

  lemma {:induction false} StrandThen(w: World, path: Path, backup: Path, e: Entry, r: World, rest: seq<Step>)
    requires w.tasks == map[0 := Counting([e], 1)] && path !in w.blobs && backup !in w.blobs && backup != path
    requires r == w.(blobs := w.blobs[path := [e]], tasks := map[0 := Releasing([e])],
                     missing := w.missing + multiset{e.hash})
    requires Runnable(r, rest)
    ensures Runnable(w, [Strand(0, path, backup, RollbackFails)] + rest)
    ensures Run(w, [Strand(0, path, backup, RollbackFails)] + rest) == Run(r, rest)
  {
    HoldsOne(e);
    Prepend(w, r, Strand(0, path, backup, RollbackFails), rest);
  }

  lemma {:induction false} DropFailsThen(w: World, path: Path, e: Entry, r: World, rest: seq<Step>)
    requires w.tasks == map[0 := Dropping(path, [e], 1)] && path !in w.blobs && Runnable(r, rest)
    requires r == w.(blobs := w.blobs[path := [e]], tasks := map[], missing := w.missing + multiset{e.hash})
    ensures Runnable(w, [DropFails(0)] + rest) && Run(w, [DropFails(0)] + rest) == Run(r, rest)
  {
    HoldsOne(e);
    assert [e][..1] == [e];
    Prepend(w, r, DropFails(0), rest);
  }

  /** A moved file whose old name stays. */
  lemma {:induction false} MoveThen(w: World, from: Path, to: Path, e: Entry, r: World, rest: seq<Step>)
    requires w.tasks == map[] && from in w.blobs && w.blobs[from] == [e] && to !in w.blobs && Runnable(r, rest)
    requires r == w.(blobs := w.blobs[to := [e]], missing := w.missing + multiset{e.hash})
    ensures Runnable(w, [Relocate(from, to, true)] + rest) && Run(w, [Relocate(from, to, true)] + rest) == Run(r, rest)
  {
    HoldsOne(e);
    Prepend(w, r, Relocate(from, to, true), rest);
  }

  /** The only reference owed is released, and the task is done. */
  function Settling(now: nat, rest: seq<Step>): seq<Step> {
    [ReleaseOne(0, now)] + ([Cancel(0)] + rest)
  }

  lemma {:induction false} SettleThen(w: World, e: Entry, now: nat, r: World, rest: seq<Step>)
    requires w.tasks == map[0 := Releasing([e])] && Refs(w.rows, e.hash) > 0 && Runnable(r, rest)
    requires r == w.(rows := Released(w.rows, e, now), tasks := map[])
    ensures Runnable(w, Settling(now, rest)) && Run(w, Settling(now, rest)) == Run(r, rest)
  {
    var w1 := r.(tasks := map[0 := Releasing([])]);
    DoneThen(w1, r, rest);
    ReleaseThen(w, e, now, w1, [Cancel(0)] + rest);
  }

  // ---------------------------------------------------------------- an upload and a delete of one block

  function Uploading(path: Path, e: Entry, rest: seq<Step>): seq<Step> {
    [Begin(0, [e])] + ([CountOne(0)] + ([Install(0, path, true)] + ([Cancel(0)] + rest)))
  }

  lemma {:induction false} UploadThen(w: World, path: Path, e: Entry, r: World, rest: seq<Step>)
    requires w.tasks == map[] && path !in w.blobs && Runnable(r, rest)
    requires r == w.(rows := Counted(w.rows, e), blobs := w.blobs[path := [e]])
    ensures Runnable(w, Uploading(path, e, rest)) && Run(w, Uploading(path, e, rest)) == Run(r, rest)
  {
    var w1 := w.(tasks := map[0 := Counting([e], 0)]);
    var w2 := w.(rows := r.rows, tasks := map[0 := Counting([e], 1)]);
    var w3 := r.(tasks := map[0 := Releasing([])]);
    DoneThen(w3, r, rest);
    InstallThen(w2, path, [e], w3, [Cancel(0)] + rest);
    CountThen(w1, e, w2, [Install(0, path, true)] + ([Cancel(0)] + rest));
    BeginThen(w, [e], w1, [CountOne(0)] + ([Install(0, path, true)] + ([Cancel(0)] + rest)));
  }

  function Deleting(path: Path, now: nat, rest: seq<Step>): seq<Step> {
    [StartDrop(0, path)] + ([DropOne(0, now)] + ([EndDrop(0)] + rest))
  }

  lemma {:induction false} DeleteThen(w: World, path: Path, e: Entry, now: nat, r: World, rest: seq<Step>)
    requires w.tasks == map[] && path in w.blobs && w.blobs[path] == [e] && Refs(w.rows, e.hash) > 0
    requires r == w.(rows := Released(w.rows, e, now), blobs := w.blobs - {path}) && Runnable(r, rest)
    ensures Runnable(w, Deleting(path, now, rest)) && Run(w, Deleting(path, now, rest)) == Run(r, rest)
  {
    var w1 := w.(blobs := r.blobs, tasks := map[0 := Dropping(path, [e], 0)]);
    var w2 := r.(tasks := map[0 := Dropping(path, [e], 1)]);
    EndDropThen(w2, path, e, r, rest);
    DropOneThen(w1, path, e, now, w2, [EndDrop(0)] + rest);
    StartDropThen(w, path, e, w1, [DropOne(0, now)] + ([EndDrop(0)] + rest));
  }

  /** One count for two files: deleting either loses the other's block. */
  lemma LastTaken(w: World, path: Path, e: Entry, now: nat)
    requires w.tasks == map[] && path in w.blobs && w.blobs[path] == [e] && path != "other"
    requires "other" in w.blobs && w.blobs["other"] == [e] && Refs(w.rows, e.hash) == 1
    ensures Runnable(w, Deleting(path, now, [])) && Lost(Run(w, Deleting(path, now, [])), e.hash)
  {
    var r := w.(rows := Released(w.rows, e, now), blobs := w.blobs - {path});
    DeleteThen(w, path, e, now, r, []);
    HoldsOne(e);
    assert "other" in r.blobs && e.hash in Holds(r.blobs["other"]);
  }

  /** Two objects share a block. */
  function Sharing(e: Entry): World {
    World(map[e.hash := Row(e.size, 2, None)], map["old" := [e], "other" := [e]], map[], multiset{}, multiset{})
  }

  lemma {:induction false} SharingThen(e: Entry, rest: seq<Step>)
    requires Runnable(Sharing(e), rest)
    ensures Runnable(NOTHING, Uploading("old", e, Uploading("other", e, rest)))
    ensures Run(NOTHING, Uploading("old", e, Uploading("other", e, rest))) == Run(Sharing(e), rest)
  {
    var one := World(map[e.hash := Row(e.size, 1, None)], map["old" := [e]], map[], multiset{}, multiset{});
    UploadThen(one, "other", e, Sharing(e), rest);
    UploadThen(NOTHING, "old", e, one, Uploading("other", e, rest));
  }

  /** The two objects when only one reference is counted for the given files. */
  function Short(e: Entry, blobs: map<Path, seq<Entry>>): World {
    World(map[e.hash := Row(e.size, 1, None)], blobs, map[], multiset{}, multiset{e.hash})
  }

  // ---------------------------------------------------------------- a file that resists removal

  /** "old" is overwritten by a blob without references under the current name, and resists removal. */
  function StuckOverwrite(now: nat, rest: seq<Step>): seq<Step> {
    [Begin(0, [])] + ([Install(0, "new", true)] + ([Remove(0, "old", true, true)] + Settling(now, rest)))
  }

  lemma {:induction false} StuckOverwriteThen(w: World, e: Entry, now: nat, r: World, rest: seq<Step>)
    requires w.tasks == map[] && "old" in w.blobs && w.blobs["old"] == [e] && "new" !in w.blobs
    requires Refs(w.rows, e.hash) > 0
    requires r == World(Released(w.rows, e, now), w.blobs["new" := []], map[], w.leaked, w.missing + multiset{e.hash})
    requires Runnable(r, rest)
    ensures Runnable(w, StuckOverwrite(now, rest)) && Run(w, StuckOverwrite(now, rest)) == Run(r, rest)
  {
    var w1 := w.(tasks := map[0 := Counting([], 0)]);
    var w2 := w.(blobs := r.blobs, tasks := map[0 := Releasing([])]);
    var w3 := w2.(tasks := map[0 := Releasing([e])], missing := r.missing);
    SettleThen(w3, e, now, r, rest);
    StuckThen(w2, "old", e, w3, Settling(now, rest));
    InstallThen(w1, "new", [], w2, [Remove(0, "old", true, true)] + Settling(now, rest));
    BeginThen(w, [], w1, [Install(0, "new", true)] + ([Remove(0, "old", true, true)] + Settling(now, rest)));
  }

  lemma StuckOverwriteShort(e: Entry, now: nat)
    ensures var steps := StuckOverwrite(now, Deleting("old", now, []));
      Runnable(Sharing(e), steps) && Lost(Run(Sharing(e), steps), e.hash)
  {
    var w := Sharing(e);
    var r := Short(e, w.blobs["new" := []]);
    assert Released(w.rows, e, now) == r.rows;
    LastTaken(r, "old", e, now);
    StuckOverwriteThen(w, e, now, r, Deleting("old", now, []));
  }

  /** An overwrite that cannot remove the older file, then a delete of the object. */
  lemma StuckRemovalLosesBlock(e: Entry, now: nat)
    ensures Loses(Uploading("old", e, Uploading("other", e, StuckOverwrite(now, Deleting("old", now, [])))), e.hash)
  {
    StuckOverwriteShort(e, now);
    SharingThen(e, StuckOverwrite(now, Deleting("old", now, [])));
  }

  /** A maintenance move keeps the old name, and then one of the two names is dropped. */
  function StuckMove(now: nat, rest: seq<Step>): seq<Step> {
    [Relocate("old", "new", true)] + Deleting("old", now, rest)
  }

  lemma {:induction false} StuckMoveThen(w: World, e: Entry, now: nat, r: World, rest: seq<Step>)
    requires w.tasks == map[] && "old" in w.blobs && w.blobs["old"] == [e] && "new" !in w.blobs
    requires Refs(w.rows, e.hash) > 0
    requires r == World(Released(w.rows, e, now), w.blobs["new" := [e]] - {"old"}, map[], w.leaked,
                        w.missing + multiset{e.hash})
    requires Runnable(r, rest)
    ensures Runnable(w, StuckMove(now, rest)) && Run(w, StuckMove(now, rest)) == Run(r, rest)
  {
    var w1 := w.(blobs := w.blobs["new" := [e]], missing := r.missing);
    DeleteThen(w1, "old", e, now, r, rest);
    MoveThen(w, "old", "new", e, w1, Deleting("old", now, rest));
  }

  lemma StuckMoveShort(e: Entry, now: nat)
    ensures var steps := StuckMove(now, Deleting("new", now, []));
      Runnable(Sharing(e), steps) && Lost(Run(Sharing(e), steps), e.hash)
  {
    var w := Sharing(e);
    var r := Short(e, w.blobs["new" := [e]] - {"old"});
    assert Released(w.rows, e, now) == r.rows;
    LastTaken(r, "new", e, now);
    StuckMoveThen(w, e, now, r, Deleting("new", now, []));
  }

  /** A maintenance move that cannot remove the old name, then a delete that drops both names. */
  lemma StuckRelocationLosesBlock(e: Entry, now: nat)
    ensures Loses(Uploading("old", e, Uploading("other", e, StuckMove(now, Deleting("new", now, [])))), e.hash)
  {
    StuckMoveShort(e, now);
    SharingThen(e, StuckMove(now, Deleting("new", now, [])));
  }

  // ---------------------------------------------------------------- a drop that fails

  function FailingDrop(now: nat, rest: seq<Step>): seq<Step> {
    [StartDrop(0, "old")] + ([DropOne(0, now)] + ([DropFails(0)] + rest))
  }

  lemma {:induction false} FailingDropThen(w: World, e: Entry, now: nat, r: World, rest: seq<Step>)
    requires w.tasks == map[] && "old" in w.blobs && w.blobs["old"] == [e] && Refs(w.rows, e.hash) > 0
    requires r == w.(rows := Released(w.rows, e, now), missing := w.missing + multiset{e.hash}) && Runnable(r, rest)
    ensures Runnable(w, FailingDrop(now, rest)) && Run(w, FailingDrop(now, rest)) == Run(r, rest)
  {
    var w1 := w.(blobs := w.blobs - {"old"}, tasks := map[0 := Dropping("old", [e], 0)]);
    var w2 := w1.(rows := r.rows, tasks := map[0 := Dropping("old", [e], 1)]);
    assert w2.blobs["old" := [e]] == r.blobs;
    DropFailsThen(w2, "old", e, r, rest);
    DropOneThen(w1, "old", e, now, w2, [DropFails(0)] + rest);
    StartDropThen(w, "old", e, w1, [DropOne(0, now)] + ([DropFails(0)] + rest));
  }

  lemma FailingDropShort(e: Entry, now: nat)
    ensures var steps := FailingDrop(now, Deleting("old", now, []));
      Runnable(Sharing(e), steps) && Lost(Run(Sharing(e), steps), e.hash)
  {
    var w := Sharing(e);
    var r := Short(e, w.blobs);
    assert Released(w.rows, e, now) == r.rows;
    LastTaken(r, "old", e, now);
    FailingDropThen(w, e, now, r, Deleting("old", now, []));
  }

  /** A drop that releases and then keeps the file, then the drop again, as orphan collection does it. */
  lemma FailedDropLosesBlock(e: Entry, now: nat)
    ensures Loses(Uploading("old", e, Uploading("other", e, FailingDrop(now, Deleting("old", now, [])))), e.hash)
  {
    FailingDropShort(e, now);
    SharingThen(e, FailingDrop(now, Deleting("old", now, [])));
  }

  // ---------------------------------------------------------------- a rollback that fails

  /** An upload to a free name whose commit fails and whose file then resists removal. */
  function FailingRollback(e: Entry, now: nat, rest: seq<Step>): seq<Step> {
    [Begin(0, [e])] + ([CountOne(0)] + ([Strand(0, "old", "prev", RollbackFails)] + Settling(now, rest)))
  }

  lemma {:induction false} FailingRollbackThen(w: World, e: Entry, now: nat, r: World, rest: seq<Step>)
    requires w.tasks == map[] && "old" !in w.blobs && "prev" !in w.blobs
    requires r == World(Released(Counted(w.rows, e), e, now), w.blobs["old" := [e]], map[], w.leaked,
                        w.missing + multiset{e.hash})
    requires Runnable(r, rest)
    ensures Runnable(w, FailingRollback(e, now, rest)) && Run(w, FailingRollback(e, now, rest)) == Run(r, rest)
  {
    var w1 := w.(tasks := map[0 := Counting([e], 0)]);
    var w2 := w.(rows := Counted(w.rows, e), tasks := map[0 := Counting([e], 1)]);
    var w3 := w2.(blobs := r.blobs, tasks := map[0 := Releasing([e])], missing := r.missing);
    SettleThen(w3, e, now, r, rest);
    StrandThen(w2, "old", "prev", e, w3, Settling(now, rest));
    CountThen(w1, e, w2, [Strand(0, "old", "prev", RollbackFails)] + Settling(now, rest));
    BeginThen(w, [e], w1, [CountOne(0)] + ([Strand(0, "old", "prev", RollbackFails)] + Settling(now, rest)));
  }

  /** One object holds the block. */
  function Alone(e: Entry): World {
    World(map[e.hash := Row(e.size, 1, None)], map["other" := [e]], map[], multiset{}, multiset{})
  }

  lemma {:induction false} AloneThen(e: Entry, rest: seq<Step>)
    requires Runnable(Alone(e), rest)
    ensures Runnable(NOTHING, Uploading("other", e, rest))
    ensures Run(NOTHING, Uploading("other", e, rest)) == Run(Alone(e), rest)
  {
    UploadThen(NOTHING, "other", e, Alone(e), rest);
  }

  lemma FailingRollbackShort(e: Entry, now: nat)
    ensures var steps := FailingRollback(e, now, Deleting("old", now, []));
      Runnable(Alone(e), steps) && Lost(Run(Alone(e), steps), e.hash)
  {
    var w := Alone(e);
    var r := Short(e, w.blobs["old" := [e]]);
    assert Released(Counted(w.rows, e), e, now) == r.rows;
    LastTaken(r, "old", e, now);
    FailingRollbackThen(w, e, now, r, Deleting("old", now, []));
  }

  /** An upload whose rollback fails, then a delete or a collection of its orphan. */
  lemma FailedRollbackLosesBlock(e: Entry, now: nat)
    ensures Loses(Uploading("other", e, FailingRollback(e, now, Deleting("old", now, []))), e.hash)
  {
    FailingRollbackShort(e, now);
    AloneThen(e, FailingRollback(e, now, Deleting("old", now, [])));
  }

  /** The task pays some of what it owes. */
  function Paying(id: Id, n: nat, now: nat, rest: seq<Step>): seq<Step> {
    if n == 0 then rest else [ReleaseOne(id, now)] + Paying(id, n - 1, now, rest)
  }

  /** Whatever can run from `r` can run after `steps` in front of it. */
  ghost predicate Continues(w: World, steps: seq<Step>, r: World, rest: seq<Step>) {
    Runnable(r, rest) ==> Runnable(w, steps) && Run(w, steps) == Run(r, rest)
  }

  lemma {:induction false} ContinuesThrough(w: World, first: seq<Step>, next: World, steps: seq<Step>, r: World,
                                            rest: seq<Step>)
    requires Continues(w, first, next, steps) && Continues(next, steps, r, rest)
    ensures Continues(w, first, r, rest)
  {
  }

  /** What payments leave alone: no file is touched and no more references are missing. */
  ghost predicate PaidFrom(w: World, r: World, id: Id) {
    && r.blobs == w.blobs && r.leaked == w.leaked && r.missing <= w.missing
    && r.tasks - {id} == w.tasks - {id} && id in r.tasks && r.tasks[id].Releasing?
  }

  lemma {:induction false} PayOne(w: World, id: Id, now: nat, rest: seq<Step>) returns (next: World)
    requires id in w.tasks && w.tasks[id].Releasing? && w.tasks[id].owed != []
    ensures PaidFrom(w, next, id) && next.tasks[id] == Task.Releasing(w.tasks[id].owed[1..])
    ensures Continues(w, [ReleaseOne(id, now)] + rest, next, rest)
  {
    next := Next(w, ReleaseOne(id, now));
    if Runnable(next, rest) { Prepend(w, next, ReleaseOne(id, now), rest); }
  }

  lemma PaidThrough(w: World, next: World, r: World, id: Id)
    requires PaidFrom(w, next, id) && PaidFrom(next, r, id)
    ensures PaidFrom(w, r, id)
  {
  }

  lemma {:induction false} PayingThen(w: World, id: Id, n: nat, now: nat, rest: seq<Step>) returns (r: World)
    requires id in w.tasks && w.tasks[id].Releasing? && n <= |w.tasks[id].owed|
    ensures PaidFrom(w, r, id) && r.tasks[id].owed == w.tasks[id].owed[n..]
    ensures Continues(w, Paying(id, n, now, rest), r, rest)
    decreases n
  {
    if n == 0 {
      r := w;
    } else {
      var steps := Paying(id, n - 1, now, rest);
      var next := PayOne(w, id, now, steps);
      r := PayingThen(next, id, n - 1, now, rest);
      PaidThrough(w, next, r, id);
      assert w.tasks[id].owed[1..][n - 1..] == w.tasks[id].owed[n..];
      ContinuesThrough(w, [ReleaseOne(id, now)] + steps, next, steps, r, rest);
    }
  }

  /** The rollback fails, some of the staged blob's references are released, and a restart puts the backup back. */
  function RestoredLater(id: Id, path: Path, backup: Path, n: nat, now: nat): seq<Step> {
    [Strand(id, path, backup, RollbackFails)] + Paying(id, n, now, [Relocate(backup, path, false)])
  }

  /** The backup goes back over the blob that stayed, and what it held balances what was released. */
  lemma {:induction false} RestoreBalances(w: World, w1: World, r: World, id: Id, path: Path, backup: Path)
    returns (end: World)
    requires Enabled(w, Strand(id, path, backup, RollbackFails)) && path in w.blobs
    requires w.missing == multiset{} == w.leaked
    requires w1 == Next(w, Strand(id, path, backup, RollbackFails)) && PaidFrom(w1, r, id)
    ensures var steps := [Relocate(backup, path, false)]; Runnable(r, steps) && Run(r, steps) == end
    ensures end.blobs == w.blobs && end.missing <= end.leaked
  {
    var step := Relocate(backup, path, false);
    assert forall t :: t in r.tasks && t != id ==> t in r.tasks - {id} && (w1.tasks - {id})[t] == r.tasks[t];
    assert Free(r, path);
    end := Next(r, step);
    assert end.blobs == w.blobs;
    Prepend(r, end, step, []);
    assert [step] == [step] + [];
  }

  /** A restart that restores the backup repairs a failed rollback, however far the releases got. */
  lemma RestartRepairsRollback(w: World, id: Id, path: Path, backup: Path, n: nat, now: nat)
    requires Exact(w) && Enabled(w, Strand(id, path, backup, RollbackFails)) && path in w.blobs
    requires n <= |w.tasks[id].entries|
    ensures var steps := RestoredLater(id, path, backup, n, now);
      && Runnable(w, steps) && Run(w, steps).blobs == w.blobs
      && forall h :: Covers(Run(w, steps), h)
  {
    var step, rest := Strand(id, path, backup, RollbackFails), [Relocate(backup, path, false)];
    var w1 := Next(w, step);
    var r := PayingThen(w1, id, n, now, rest);
    var end := RestoreBalances(w, w1, r, id, path, backup);
    Prepend(w, w1, step, Paying(id, n, now, rest));
    RunConserves(w, RestoredLater(id, path, backup, n, now));
  }

  // ---------------------------------------------------------------- runs in which nothing fails

  /** The staged blob replaces a file, and every reference of that file is released. */
  function Overwriting(id: Id, path: Path, owed: nat, now: nat): seq<Step> {
    [Install(id, path, true)] + Paying(id, owed, now, [Cancel(id)])
  }

  /** An overwrite run to its end leaves exact counts, the new blob in place of the old one, and every other file alone. */
  lemma OverwriteIsExact(w: World, id: Id, path: Path, now: nat)
    requires Exact(w) && id in w.tasks && Staged(w.tasks[id]) && Free(w, path)
    ensures var steps := Overwriting(id, path, |RefsAt(w, path)|, now);
      && Runnable(w, steps) && Exact(Run(w, steps))
      && Run(w, steps).blobs == w.blobs[path := w.tasks[id].entries] && Run(w, steps).tasks == w.tasks - {id}
  {
    var step, n, rest := Install(id, path, true), |RefsAt(w, path)|, [Cancel(id)];
    var w1 := Next(w, step);
    var r := PayingThen(w1, id, n, now, rest);
    assert r.tasks[id].owed == [] && w1.tasks - {id} == w.tasks - {id};
    var end := r.(tasks := r.tasks - {id});
    assert rest == [Cancel(id)] + [];
    PaidIsDone(r, id, end);
    Prepend(w, w1, step, Paying(id, n, now, rest));
    RunConserves(w, Overwriting(id, path, n, now));
  }

  lemma PaidIsDone(w: World, id: Id, end: World)
    requires id in w.tasks && w.tasks[id].Releasing? && w.tasks[id].owed == [] && end == w.(tasks := w.tasks - {id})
    ensures Runnable(w, [Cancel(id)] + []) && Run(w, [Cancel(id)] + []) == end
  {
    Prepend(w, end, Cancel(id), []);
  }

  function DroppingAll(id: Id, n: nat, now: nat, rest: seq<Step>): seq<Step> {
    if n == 0 then rest else [DropOne(id, now)] + DroppingAll(id, n - 1, now, rest)
  }

  lemma {:induction false} DropNext(w: World, id: Id, now: nat, rest: seq<Step>) returns (next: World)
    requires id in w.tasks && w.tasks[id].Dropping? && w.tasks[id].done < |w.tasks[id].entries|
    ensures next.blobs == w.blobs && next.leaked == w.leaked && next.missing <= w.missing
    ensures var t := w.tasks[id]; next.tasks == w.tasks[id := Dropping(t.path, t.entries, t.done + 1)]
    ensures Continues(w, [DropOne(id, now)] + rest, next, rest)
  {
    next := Next(w, DropOne(id, now));
    if Runnable(next, rest) { Prepend(w, next, DropOne(id, now), rest); }
  }

  lemma PutTwice(a: map<Id, Task>, b: map<Id, Task>, c: map<Id, Task>, id: Id, first: Task, second: Task)
    requires b == a[id := first] && c == b[id := second]
    ensures c == a[id := second]
  {
  }

  lemma {:induction false} DroppingThen(w: World, id: Id, t: Task, n: nat, now: nat, rest: seq<Step>) returns (r: World)
    requires id in w.tasks && w.tasks[id] == t && t.Dropping? && t.done + n == |t.entries|
    ensures r.blobs == w.blobs && r.leaked == w.leaked && r.missing <= w.missing
    ensures r.tasks == w.tasks[id := Dropping(t.path, t.entries, |t.entries|)]
    ensures Continues(w, DroppingAll(id, n, now, rest), r, rest)
    decreases n
  {
    if n == 0 {
      r := w;
    } else {
      var steps := DroppingAll(id, n - 1, now, rest);
      var next := DropNext(w, id, now, steps);
      r := DroppingThen(next, id, next.tasks[id], n - 1, now, rest);
      PutTwice(w.tasks, next.tasks, r.tasks, id, next.tasks[id], r.tasks[id]);
      ContinuesThrough(w, [DropOne(id, now)] + steps, next, steps, r, rest);
    }
  }

  function Removing(id: Id, path: Path, n: nat, now: nat): seq<Step> {
    [StartDrop(id, path)] + DroppingAll(id, n, now, [EndDrop(id)])
  }

  /** A delete run to its end leaves exact counts and every other file alone. */
  lemma DeleteIsExact(w: World, id: Id, path: Path, now: nat)
    requires Exact(w) && id !in w.tasks && path in w.blobs
    ensures var steps := Removing(id, path, |w.blobs[path]|, now);
      && Runnable(w, steps) && Exact(Run(w, steps))
      && Run(w, steps).blobs == w.blobs - {path} && Run(w, steps).tasks == w.tasks
  {
    var step, n, rest := StartDrop(id, path), |w.blobs[path]|, [EndDrop(id)];
    var w1 := Next(w, step);
    var r := DroppingThen(w1, id, w1.tasks[id], n, now, rest);
    var end := r.(tasks := r.tasks - {id});
    assert end.tasks == w.tasks && rest == [EndDrop(id)] + [];
    DropIsDone(r, id, end);
    Prepend(w, w1, step, DroppingAll(id, n, now, rest));
    RunConserves(w, Removing(id, path, n, now));
  }

  lemma DropIsDone(w: World, id: Id, end: World)
    requires id in w.tasks && w.tasks[id].Dropping? && w.tasks[id].done == |w.tasks[id].entries|
    requires end == w.(tasks := w.tasks - {id})
    ensures Runnable(w, [EndDrop(id)] + []) && Run(w, [EndDrop(id)] + []) == end
  {
    Prepend(w, end, EndDrop(id), []);
  }
}
