/**
 * Conservation of dedup references. Every blob file is tagged with the references it holds; uploads, copies,
 * overwrites, maintenance swaps and deletes move references one statement at a time and may fail at any of
 * them. Tasks on different keys interleave; a key's files belong to the task that holds its lock. The source
 * ignores failed removals, so a file can outlive its references.
 */
module BlockRefs {
  import opened Blocks
  import opened Sums

  type Path = string
  type Id = nat

  datatype Task =
    | Counting(entries: seq<Entry>, done: nat)            // counting the references of a staged blob
    | Releasing(owed: seq<Entry>)                          // references still to be released
    | Dropping(path: Path, entries: seq<Entry>, done: nat) // releasing a file's references before removing it

  /**
   * `leaked`: counted references that no file holds and no task will release.
   * `missing`: references that a file or task holds although they are no longer counted.
   */
  datatype World = World(
    rows: map<Hash, Row>,
    blobs: map<Path, seq<Entry>>,
    tasks: map<Id, Task>,
    leaked: multiset<Hash>,
    missing: multiset<Hash>
  )

  /** Why an overwrite leaves the previous file at its backup name. */
  datatype Stranding =
    | Crashed      // it stopped after the rename: nothing is released
    | BackupStuck  // it committed and the backup resists removal: the previous references are released anyway
    | RollbackFails // the restore failed: the staged blob's references are released although it stays

  datatype Step =
    | Begin(id: Id, entries: seq<Entry>)            // a blob has been staged by an upload, copy or re-encode
    | CountOne(id: Id)
    | Cancel(id: Id)                                // a statement failed, the request went away, or a crash
    | Install(id: Id, path: Path, release: bool)    // the staged blob replaces the file; `release` its old refs
    | Strand(id: Id, path: Path, backup: Path, why: Stranding)
    | Remove(id: Id, path: Path, release: bool, stuck: bool) // an older file of the same object goes, or resists
    | Reject(id: Id)                                // nothing was committed: the staged blob's refs go back
    | ReleaseOne(id: Id, now: nat)
    | Relocate(from: Path, to: Path, stuck: bool)   // a file moves with its refs; the old name may resist removal
    | Discard(path: Path)                           // a file goes and its refs stay counted
    | StartDrop(id: Id, path: Path)
    | DropOne(id: Id, now: nat)
    | EndDrop(id: Id)                               // all released: the file is removed
    | DropFails(id: Id)                             // a release or the removal failed: the file stays

  ghost predicate Free(w: World, path: Path) {
    forall t :: t in w.tasks && w.tasks[t].Dropping? ==> w.tasks[t].path != path
  }

  predicate Staged(t: Task) { t.Counting? && t.done == |t.entries| }

  ghost predicate Enabled(w: World, step: Step) {
    match step
    case Begin(id, _) => id !in w.tasks
    case CountOne(id) => id in w.tasks && w.tasks[id].Counting? && w.tasks[id].done < |w.tasks[id].entries|
    case Cancel(id) => id in w.tasks && !w.tasks[id].Dropping?
    case Install(id, path, _) => id in w.tasks && Staged(w.tasks[id]) && Free(w, path)
    case Strand(id, path, backup, _) => id in w.tasks && Staged(w.tasks[id]) && Free(w, path)
                                        && Free(w, backup) && backup != path && backup !in w.blobs
    case Remove(id, path, _, _) => id in w.tasks && w.tasks[id].Releasing? && path in w.blobs
    case Reject(id) => id in w.tasks && Staged(w.tasks[id])
    case ReleaseOne(id, _) => id in w.tasks && w.tasks[id].Releasing? && w.tasks[id].owed != []
    case Relocate(from, to, _) => from in w.blobs && from != to && Free(w, to)
    case Discard(path) => path in w.blobs
    case StartDrop(id, path) => id !in w.tasks && path in w.blobs
    case DropOne(id, _) => id in w.tasks && w.tasks[id].Dropping? && w.tasks[id].done < |w.tasks[id].entries|
    case EndDrop(id) => id in w.tasks && w.tasks[id].Dropping? && w.tasks[id].done == |w.tasks[id].entries|
    case DropFails(id) => id in w.tasks && w.tasks[id].Dropping? && w.tasks[id].done <= |w.tasks[id].entries|
                          && w.tasks[id].path !in w.blobs
  }

  /** The references a file holds; none where there is no file. */
  function RefsAt(w: World, path: Path): seq<Entry> {
    if path in w.blobs then w.blobs[path] else []
  }

  /** The references a task accounts for. */
  function Held(t: Task): multiset<Hash> {
    match t
    case Counting(es, done) => if done <= |es| then Holds(es[..done]) else multiset{}
    case Releasing(owed) => Holds(owed)
    case Dropping(_, es, done) => if done <= |es| then Holds(es[done..]) else multiset{}
  }

  /** Counted references that the step loses track of. */
  function Leaks(w: World, step: Step): multiset<Hash>
    requires Enabled(w, step)
  {
    match step
    case Cancel(id) => Held(w.tasks[id])
    case Install(_, path, release) => if release then multiset{} else Holds(RefsAt(w, path))
    case Remove(_, path, release, stuck) => if release || stuck then multiset{} else Holds(w.blobs[path])
    case Relocate(_, to, _) => Holds(RefsAt(w, to))
    case Discard(path) => Holds(w.blobs[path])
    case _ => multiset{}
  }

  /** References that the step leaves with a file although they are, or will be, released. */
  function Uncounts(w: World, step: Step): multiset<Hash>
    requires Enabled(w, step)
  {
    match step
    case Strand(id, path, _, why) =>
      (match why
       case Crashed => multiset{}
       case BackupStuck => Holds(RefsAt(w, path))
       case RollbackFails => Holds(w.tasks[id].entries))
    case Remove(_, path, release, stuck) => if release && stuck then Holds(w.blobs[path]) else multiset{}
    case Relocate(from, _, stuck) => if stuck then Holds(w.blobs[from]) else multiset{}
    case DropFails(id) => Holds(w.tasks[id].entries[..w.tasks[id].done])
    case _ => multiset{}
  }

  /** A release of a reference that was not counted finds the count at zero and moves nothing. */
  function MissingAfter(w: World, e: Entry): multiset<Hash> {
    if Refs(w.rows, e.hash) == 0 then w.missing - multiset{e.hash} else w.missing
  }

  /** The blob at its path; what was there is at the backup name. */
  function Stranded(w: World, path: Path, backup: Path, entries: seq<Entry>): map<Path, seq<Entry>> {
    if path in w.blobs then w.blobs[backup := w.blobs[path]][path := entries] else w.blobs[path := entries]
  }

  /** What the step does to counts, files and tasks. */
  function Moved(w: World, step: Step): World
    requires Enabled(w, step)
  {
    match step
    case Begin(id, es) => w.(tasks := w.tasks[id := Counting(es, 0)])
    case CountOne(id) =>
      var t := w.tasks[id];
      w.(rows := Counted(w.rows, t.entries[t.done]), tasks := w.tasks[id := Counting(t.entries, t.done + 1)])
    case Cancel(id) => w.(tasks := w.tasks - {id})
    case Install(id, path, release) =>
      w.(blobs := w.blobs[path := w.tasks[id].entries],
         tasks := w.tasks[id := Releasing(if release then RefsAt(w, path) else [])])
    case Strand(id, path, backup, why) =>
      w.(blobs := Stranded(w, path, backup, w.tasks[id].entries),
         tasks := match why
           case Crashed => w.tasks - {id}
           case BackupStuck => w.tasks[id := Releasing(RefsAt(w, path))]
           case RollbackFails => w.tasks[id := Releasing(w.tasks[id].entries)])
    case Remove(id, path, release, stuck) =>
      w.(blobs := if stuck then w.blobs else w.blobs - {path},
         tasks := if release then w.tasks[id := Releasing(w.tasks[id].owed + w.blobs[path])] else w.tasks)
    case Reject(id) => w.(tasks := w.tasks[id := Releasing(w.tasks[id].entries)])
    case ReleaseOne(id, now) =>
      var owed := w.tasks[id].owed;
      w.(rows := Released(w.rows, owed[0], now), tasks := w.tasks[id := Releasing(owed[1..])],
         missing := MissingAfter(w, owed[0]))
    case Relocate(from, to, stuck) =>
      w.(blobs := (if stuck then w.blobs else w.blobs - {from})[to := w.blobs[from]])
    case Discard(path) => w.(blobs := w.blobs - {path})
    case StartDrop(id, path) =>
      w.(blobs := w.blobs - {path}, tasks := w.tasks[id := Dropping(path, w.blobs[path], 0)])
    case DropOne(id, now) =>
      var t := w.tasks[id];
      w.(rows := Released(w.rows, t.entries[t.done], now),
         tasks := w.tasks[id := Dropping(t.path, t.entries, t.done + 1)],
         missing := MissingAfter(w, t.entries[t.done]))
    case EndDrop(id) => w.(tasks := w.tasks - {id})
    case DropFails(id) =>
      w.(blobs := w.blobs[w.tasks[id].path := w.tasks[id].entries], tasks := w.tasks - {id})
  }

  function Next(w: World, step: Step): World
    requires Enabled(w, step)
  {
    var r := Moved(w, step);
    r.(leaked := r.leaked + Leaks(w, step), missing := r.missing + Uncounts(w, step))
  }

  // ---------------------------------------------------------------- conservation

  function InBlob(h: Hash): seq<Entry> -> nat {
    (es: seq<Entry>) => Holds(es)[h]
  }

  function InTask(h: Hash): Task -> nat {
    (t: Task) => Held(t)[h]
  }

  /** References to the block in stored files. */
  ghost function Stored(w: World, h: Hash): nat {
    Sum(Weigh(w.blobs, InBlob(h)))
  }

  /** References to the block that tasks hold for staged blobs or still owe. */
  ghost function Pending(w: World, h: Hash): nat {
    Sum(Weigh(w.tasks, InTask(h)))
  }

  /** The law: what is counted and what is missing make up what files hold, what tasks hold or owe, and what leaked. */
  ghost predicate ConservedAt(w: World, h: Hash) {
    Refs(w.rows, h) + w.missing[h] == Stored(w, h) + Pending(w, h) + w.leaked[h]
  }

  ghost predicate Conserved(w: World) {
    forall h :: ConservedAt(w, h)
  }

  lemma TasksPut(w: World, r: World, id: Id, t: Task, h: Hash)
    requires r.tasks == w.tasks[id := t]
    ensures Pending(r, h) == Pending(w, h) - WeightAt(w.tasks, InTask(h), id) + Held(t)[h]
    ensures id in w.tasks ==> WeightAt(w.tasks, InTask(h), id) == Held(w.tasks[id])[h] <= Pending(w, h)
  {
    WeighPut(w.tasks, InTask(h), id, t);
  }

  lemma TasksDrop(w: World, r: World, id: Id, h: Hash)
    requires id in w.tasks && r.tasks == w.tasks - {id}
    ensures Pending(r, h) == Pending(w, h) - Held(w.tasks[id])[h]
  {
    WeighPut(w.tasks, InTask(h), id, w.tasks[id]);
  }

  lemma BlobsPut(w: World, r: World, path: Path, es: seq<Entry>, h: Hash)
    requires r.blobs == w.blobs[path := es]
    ensures Stored(r, h) == Stored(w, h) - Holds(RefsAt(w, path))[h] + Holds(es)[h]
  {
    WeighPut(w.blobs, InBlob(h), path, es);
  }

  lemma BlobsDrop(w: World, r: World, path: Path, h: Hash)
    requires r.blobs == w.blobs - {path}
    ensures Stored(r, h) == Stored(w, h) - Holds(RefsAt(w, path))[h]
  {
    WeighPut(w.blobs, InBlob(h), path, []);
  }

  lemma {:induction false} HeldAdvances(es: seq<Entry>, done: nat)
    requires done < |es|
    ensures Holds(es[..done + 1]) == Holds(es[..done]) + multiset{es[done].hash}
    ensures Holds(es[done..]) == multiset{es[done].hash} + Holds(es[done + 1..])
  {
    assert es[..done + 1][..done] == es[..done];
    assert es[done..] == [es[done]] + es[done + 1..];
    HoldsAppend([es[done]], es[done + 1..]);
    assert [es[done]][..0] == [];
  }

  lemma {:induction false} HeldDrops(path: Path, es: seq<Entry>, done: nat)
    requires done < |es|
    ensures Held(Dropping(path, es, done)) == multiset{es[done].hash} + Held(Dropping(path, es, done + 1))
  {
    HeldAdvances(es, done);
  }

  lemma {:induction false} HoldsSplit(es: seq<Entry>, done: nat)
    requires done <= |es|
    ensures Holds(es) == Holds(es[..done]) + Holds(es[done..])
  {
    assert es == es[..done] + es[done..];
    HoldsAppend(es[..done], es[done..]);
  }

  lemma {:induction false} HeldFirst(owed: seq<Entry>)
    requires owed != []
    ensures Holds(owed) == multiset{owed[0].hash} + Holds(owed[1..])
  {
    HeldAdvances(owed, 0);
    assert owed[0..] == owed;
  }

  lemma TaskStepConserves(w: World, step: Step, h: Hash)
    requires Conserved(w) && Enabled(w, step)
    requires step.Begin? || step.Cancel? || step.Reject? || step.EndDrop?
    ensures ConservedAt(Next(w, step), h)
  {
    var r, id := Next(w, step), step.id;
    assert ConservedAt(w, h);
    if step.Cancel? || step.EndDrop? {
      TasksDrop(w, r, id, h);
    } else {
      TasksPut(w, r, id, r.tasks[id], h);
      if step.Reject? {
        assert w.tasks[id].entries[..w.tasks[id].done] == w.tasks[id].entries;
      }
    }
  }

  lemma CountConserves(w: World, id: Id, h: Hash)
    requires Conserved(w) && Enabled(w, CountOne(id))
    ensures ConservedAt(Next(w, CountOne(id)), h)
  {
    var r, t := Next(w, CountOne(id)), w.tasks[id];
    assert ConservedAt(w, h);
    TasksPut(w, r, id, Counting(t.entries, t.done + 1), h);
    HeldAdvances(t.entries, t.done);
  }

  /** One release of a reference that a task accounts for, counted or not. */
  lemma ReleaseConserves(w: World, r: World, id: Id, e: Entry, t: Task, now: nat, h: Hash)
    requires Conserved(w) && id in w.tasks && Held(w.tasks[id]) == multiset{e.hash} + Held(t)
    requires r.rows == Released(w.rows, e, now) && r.tasks == w.tasks[id := t] && r.missing == MissingAfter(w, e)
    requires r.blobs == w.blobs && r.leaked == w.leaked
    ensures ConservedAt(r, h)
  {
    assert ConservedAt(w, h) && ConservedAt(w, e.hash);
    TasksPut(w, r, id, t, h);
    TasksPut(w, r, id, t, e.hash);
  }

  lemma ReleaseOneConserves(w: World, id: Id, now: nat, h: Hash)
    requires Conserved(w) && Enabled(w, ReleaseOne(id, now))
    ensures ConservedAt(Next(w, ReleaseOne(id, now)), h)
  {
    var owed := w.tasks[id].owed;
    HeldFirst(owed);
    ReleaseConserves(w, Next(w, ReleaseOne(id, now)), id, owed[0], Releasing(owed[1..]), now, h);
  }

  lemma DropOneShape(w: World, id: Id, now: nat)
    requires Enabled(w, DropOne(id, now))
    ensures var r, t := Next(w, DropOne(id, now)), w.tasks[id]; var e := t.entries[t.done];
      && r.rows == Released(w.rows, e, now) && r.missing == MissingAfter(w, e)
      && r.tasks == w.tasks[id := Dropping(t.path, t.entries, t.done + 1)]
      && r.blobs == w.blobs && r.leaked == w.leaked
  {
  }

  lemma DropOneConserves(w: World, id: Id, now: nat, r: World, t: Task, h: Hash)
    requires Conserved(w) && id in w.tasks && w.tasks[id] == t && t.Dropping? && t.done < |t.entries|
    requires r.rows == Released(w.rows, t.entries[t.done], now) && r.missing == MissingAfter(w, t.entries[t.done])
    requires r.tasks == w.tasks[id := Dropping(t.path, t.entries, t.done + 1)]
    requires r.blobs == w.blobs && r.leaked == w.leaked
    ensures ConservedAt(r, h)
  {
    HeldDrops(t.path, t.entries, t.done);
    ReleaseConserves(w, r, id, t.entries[t.done], Dropping(t.path, t.entries, t.done + 1), now, h);
  }

  lemma InstallConserves(w: World, id: Id, path: Path, release: bool, h: Hash)
    requires Conserved(w) && Enabled(w, Install(id, path, release))
    ensures ConservedAt(Next(w, Install(id, path, release)), h)
  {
    var r, t := Next(w, Install(id, path, release)), w.tasks[id];
    assert ConservedAt(w, h) && t.entries[..t.done] == t.entries;
    BlobsPut(w, r, path, t.entries, h);
    TasksPut(w, r, id, r.tasks[id], h);
  }

  /** The previous file moves to its backup name and the staged blob takes its place. */
  lemma StrandedHolds(w: World, r: World, path: Path, backup: Path, entries: seq<Entry>, h: Hash)
    requires backup != path && backup !in w.blobs && r.blobs == Stranded(w, path, backup, entries)
    ensures Stored(r, h) == Stored(w, h) + Holds(entries)[h]
  {
    if path in w.blobs {
      var mid := w.(blobs := w.blobs[backup := w.blobs[path]]);
      BlobsPut(w, mid, backup, w.blobs[path], h);
      BlobsPut(mid, r, path, entries, h);
    } else {
      BlobsPut(w, r, path, entries, h);
    }
  }

  lemma StrandConserves(w: World, id: Id, path: Path, backup: Path, why: Stranding, h: Hash)
    requires Conserved(w) && Enabled(w, Strand(id, path, backup, why))
    ensures ConservedAt(Next(w, Strand(id, path, backup, why)), h)
  {
    var r, t := Next(w, Strand(id, path, backup, why)), w.tasks[id];
    assert ConservedAt(w, h) && t.entries[..t.done] == t.entries;
    StrandedHolds(w, r, path, backup, t.entries, h);
    if why.Crashed? { TasksDrop(w, r, id, h); } else { TasksPut(w, r, id, r.tasks[id], h); }
  }

  lemma RemoveConserves(w: World, id: Id, path: Path, release: bool, stuck: bool, h: Hash)
    requires Conserved(w) && Enabled(w, Remove(id, path, release, stuck))
    ensures ConservedAt(Next(w, Remove(id, path, release, stuck)), h)
  {
    var r := Next(w, Remove(id, path, release, stuck));
    assert ConservedAt(w, h);
    if !stuck { BlobsDrop(w, r, path, h); }
    if release {
      TasksPut(w, r, id, r.tasks[id], h);
      HoldsAppend(w.tasks[id].owed, w.blobs[path]);
    }
  }

  lemma RelocateConserves(w: World, from: Path, to: Path, stuck: bool, h: Hash)
    requires Conserved(w) && Enabled(w, Relocate(from, to, stuck))
    ensures ConservedAt(Next(w, Relocate(from, to, stuck)), h)
  {
    var r := Next(w, Relocate(from, to, stuck));
    var mid := if stuck then w else w.(blobs := w.blobs - {from});
    assert ConservedAt(w, h);
    BlobsDrop(w, w.(blobs := w.blobs - {from}), from, h);
    BlobsPut(mid, r, to, w.blobs[from], h);
  }

  lemma StartDropConserves(w: World, id: Id, path: Path, h: Hash)
    requires Conserved(w) && Enabled(w, StartDrop(id, path))
    ensures ConservedAt(Next(w, StartDrop(id, path)), h)
  {
    var r, es := Next(w, StartDrop(id, path)), w.blobs[path];
    assert ConservedAt(w, h);
    assert Held(r.tasks[id]) == Holds(es) by { assert es[0..] == es; }
    BlobsDrop(w, r, path, h);
    TasksPut(w, r, id, r.tasks[id], h);
  }

  lemma DiscardConserves(w: World, path: Path, h: Hash)
    requires Conserved(w) && Enabled(w, Discard(path))
    ensures ConservedAt(Next(w, Discard(path)), h)
  {
    assert ConservedAt(w, h);
    BlobsDrop(w, Next(w, Discard(path)), path, h);
  }

  lemma DropFailsConserves(w: World, id: Id, h: Hash)
    requires Conserved(w) && Enabled(w, DropFails(id))
    ensures ConservedAt(Next(w, DropFails(id)), h)
  {
    var r, t := Next(w, DropFails(id)), w.tasks[id];
    assert ConservedAt(w, h);
    HoldsSplit(t.entries, t.done);
    BlobsPut(w, r, t.path, t.entries, h);
    TasksDrop(w, r, id, h);
  }

  /** Every statement of every operation keeps the law, whatever fails. */
  lemma StepConserves(w: World, step: Step)
    requires Conserved(w) && Enabled(w, step)
    ensures Conserved(Next(w, step))
  {
    forall h ensures ConservedAt(Next(w, step), h) {
      match step
      case Install(id, path, release) => InstallConserves(w, id, path, release, h);
      case Strand(id, path, backup, why) => StrandConserves(w, id, path, backup, why, h);
      case Remove(id, path, release, stuck) => RemoveConserves(w, id, path, release, stuck, h);
      case Relocate(from, to, stuck) => RelocateConserves(w, from, to, stuck, h);
      case StartDrop(id, path) => StartDropConserves(w, id, path, h);
      case Discard(path) => DiscardConserves(w, path, h);
      case DropFails(id) => DropFailsConserves(w, id, h);
      case CountOne(id) => CountConserves(w, id, h);
      case ReleaseOne(id, now) => ReleaseOneConserves(w, id, now, h);
      case DropOne(id, now) =>
        DropOneShape(w, id, now);
        DropOneConserves(w, id, now, Next(w, step), w.tasks[id], h);
      case Begin(_, _) => TaskStepConserves(w, step, h);
      case Cancel(_) => TaskStepConserves(w, step, h);
      case Reject(_) => TaskStepConserves(w, step, h);
      case EndDrop(_) => TaskStepConserves(w, step, h);
    }
  }

  // ---------------------------------------------------------------- runs

  ghost predicate Runnable(w: World, steps: seq<Step>)
    decreases |steps|
  {
    steps == [] || (Enabled(w, steps[0]) && Runnable(Next(w, steps[0]), steps[1..]))
  }

  ghost function Run(w: World, steps: seq<Step>): World
    requires Runnable(w, steps)
    decreases |steps|
  {
    if steps == [] then w else Run(Next(w, steps[0]), steps[1..])
  }

  /** No step leaves a file behind whose references it releases. */
  ghost predicate AllClean(w: World, steps: seq<Step>)
    requires Runnable(w, steps)
    decreases |steps|
  {
    steps == [] || (Uncounts(w, steps[0]) == multiset{} && AllClean(Next(w, steps[0]), steps[1..]))
  }

  ghost predicate NoLeak(w: World, steps: seq<Step>)
    requires Runnable(w, steps)
    decreases |steps|
  {
    steps == [] || (Leaks(w, steps[0]) == multiset{} && NoLeak(Next(w, steps[0]), steps[1..]))
  }

  /** The block's count covers every stored and staged blob. */
  ghost predicate Covers(w: World, h: Hash) {
    Refs(w.rows, h) >= Stored(w, h) + Pending(w, h)
  }

  /** The law holds after every run; so a block is covered unless more of its references are missing than leaked. */
  lemma {:induction false} RunConserves(w: World, steps: seq<Step>)
    requires Conserved(w) && Runnable(w, steps)
    ensures Conserved(Run(w, steps))
    ensures forall h :: Covers(Run(w, steps), h) <==> Run(w, steps).missing[h] <= Run(w, steps).leaked[h]
    decreases |steps|
  {
    if steps == [] {
      forall h ensures Covers(w, h) <==> w.missing[h] <= w.leaked[h] { assert ConservedAt(w, h); }
    } else {
      StepConserves(w, steps[0]);
      RunConserves(Next(w, steps[0]), steps[1..]);
    }
  }

  lemma {:induction false} CleanMissesNothing(w: World, steps: seq<Step>)
    requires w.missing == multiset{} && Runnable(w, steps) && AllClean(w, steps)
    ensures Run(w, steps).missing == multiset{}
    decreases |steps|
  {
    if steps != [] {
      CleanMissesNothing(Next(w, steps[0]), steps[1..]);
    }
  }

  lemma {:induction false} NoLeakLosesNothing(w: World, steps: seq<Step>)
    requires w.leaked == multiset{} && Runnable(w, steps) && NoLeak(w, steps)
    ensures Run(w, steps).leaked == multiset{}
    decreases |steps|
  {
    if steps != [] {
      NoLeakLosesNothing(Next(w, steps[0]), steps[1..]);
    }
  }

  /** Whatever else failed: if no file stays whose references are released, counts cover every file and staged blob. */
  lemma {:induction false} CountsCoverBlobs(w: World, steps: seq<Step>, h: Hash)
    requires Conserved(w) && w.missing == multiset{} && Runnable(w, steps) && AllClean(w, steps)
    ensures Covers(Run(w, steps), h)
  {
    RunConserves(w, steps);
    CleanMissesNothing(w, steps);
  }

  /** With no leaking step either, the counts are exact: with no task running they are the files' references. */
  lemma {:induction false} CountsExact(w: World, steps: seq<Step>, h: Hash)
    requires Conserved(w) && w.missing == multiset{} == w.leaked
    requires Runnable(w, steps) && AllClean(w, steps) && NoLeak(w, steps)
    ensures var r := Run(w, steps);
      && Refs(r.rows, h) == Stored(r, h) + Pending(r, h)
      && (r.tasks == map[] ==> Refs(r.rows, h) == Stored(r, h))
  {
    var r := Run(w, steps);
    RunConserves(w, steps);
    CleanMissesNothing(w, steps);
    NoLeakLosesNothing(w, steps);
    assert ConservedAt(r, h);
    assert r.tasks == map[] ==> Weigh(r.tasks, InTask(h)) == map[];
  }

  // ---------------------------------------------------------------- exactly when a failure uncovers a blob

  /** Every counted reference is accounted for, and every held one is counted. */
  ghost predicate Exact(w: World) {
    Conserved(w) && w.missing == multiset{} == w.leaked
  }

  lemma {:induction false} HoldsSome(es: seq<Entry>)
    requires es != []
    ensures es[0].hash in Holds(es)
  {
    assert es == [es[0]] + es[1..] && [es[0]][..0] == [];
    HoldsAppend([es[0]], es[1..]);
    assert Holds([es[0]]) == multiset{es[0].hash};
  }

  /** From exact counts, a step keeps every blob covered exactly when it uncounts no more than it leaks. */
  lemma StepCoversIff(w: World, step: Step)
    requires Exact(w) && Enabled(w, step)
    ensures (forall h :: Covers(Next(w, step), h)) <==> Uncounts(w, step) <= Leaks(w, step)
  {
    var r := Next(w, step);
    StepConserves(w, step);
    assert r.missing == Uncounts(w, step) && r.leaked == Leaks(w, step);
    forall h ensures Covers(r, h) <==> Uncounts(w, step)[h] <= Leaks(w, step)[h] { assert ConservedAt(r, h); }
  }

  lemma HoldsNoneIff(es: seq<Entry>)
    ensures Holds(es) <= multiset{} <==> es == []
  {
    if es != [] { HoldsSome(es); }
  }

  /** A drop that fails: exactly when nothing was released before the failure. */
  lemma FailedDropCoversIff(w: World, id: Id)
    requires Exact(w) && Enabled(w, DropFails(id))
    ensures (forall h :: Covers(Next(w, DropFails(id)), h)) <==> w.tasks[id].done == 0
  {
    StepCoversIff(w, DropFails(id));
    HoldsNoneIff(w.tasks[id].entries[..w.tasks[id].done]);
  }

  /** An older file that resists removal after an overwrite or a re-encode: exactly when it holds no references. */
  lemma StuckRemovalCoversIff(w: World, id: Id, path: Path)
    requires Exact(w) && Enabled(w, Remove(id, path, true, true))
    ensures (forall h :: Covers(Next(w, Remove(id, path, true, true)), h)) <==> w.blobs[path] == []
  {
    StepCoversIff(w, Remove(id, path, true, true));
    HoldsNoneIff(w.blobs[path]);
  }

  /** A moved file whose old name resists removal: exactly when the file it replaced held all its references. */
  lemma StuckRelocationCoversIff(w: World, from: Path, to: Path)
    requires Exact(w) && Enabled(w, Relocate(from, to, true))
    ensures (forall h :: Covers(Next(w, Relocate(from, to, true)), h)) <==> Holds(w.blobs[from]) <= Holds(RefsAt(w, to))
    ensures to !in w.blobs ==>
      ((forall h :: Covers(Next(w, Relocate(from, to, true)), h)) <==> w.blobs[from] == [])
  {
    StepCoversIff(w, Relocate(from, to, true));
    HoldsNoneIff(w.blobs[from]);
  }

  /** A stopped overwrite uncovers nothing; a backup that stays, or a failed rollback, exactly what it releases. */
  lemma StrandCoversIff(w: World, id: Id, path: Path, backup: Path, why: Stranding)
    requires Exact(w) && Enabled(w, Strand(id, path, backup, why))
    ensures (forall h :: Covers(Next(w, Strand(id, path, backup, why)), h)) <==>
      match why
      case Crashed => true
      case BackupStuck => RefsAt(w, path) == []
      case RollbackFails => w.tasks[id].entries == []
  {
    StepCoversIff(w, Strand(id, path, backup, why));
    HoldsNoneIff(RefsAt(w, path));
    HoldsNoneIff(w.tasks[id].entries);
  }
}
