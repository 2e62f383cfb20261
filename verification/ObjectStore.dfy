/**
 * The store invariant under concurrency: an active row's blob hashes to the row's etag whenever no writer holds
 * the key, and a reader that takes the shared lock pairs a row with matching bytes. Uploads, copies, single and
 * bulk deletes, the soft-delete purge, reconcile, orphan collection, maintenance swaps and readers interleave at
 * every file operation and every metadata statement.
 *
 * A file is an identity with fixed content: hard links share the identity, and a rename or a re-create never
 * reuses one. That identity is what a maintenance pass remembers as the file's stamp.
 */
module ObjectStore {
  import opened Common

  type FileId = nat
  type TaskId = nat
  type Files = map<FileId, Content>

  datatype RowState = Absent | Active(etag: Etag) | SoftDeleted(at: int)

  /** What one key owns: the file under its current name, a file under an older name, and its row. */
  datatype Cell = Cell(primary: Option<FileId>, fallback: Option<FileId>, row: RowState)

  const Empty := Cell(None, None, Absent)

  /** The file a reader opens: the current name first. */
  function Visible(c: Cell): Option<FileId> {
    if c.primary.Some? then c.primary else c.fallback
  }

  function FileAt(c: Cell, primary: bool): Option<FileId> {
    if primary then c.primary else c.fallback
  }

  /** The store invariant for one key. */
  predicate Good(files: Files, c: Cell) {
    c.row.Active? ==> Visible(c).Some? && Visible(c).value in files && c.row.etag == Digest(files[Visible(c).value])
  }

  // ---------------------------------------------------------------- single changes under a key's write lock

  datatype Op =
    | SetPrimary(key: Key, file: FileId)
    | SetFallback(key: Key, file: FileId)
    | ClearPrimary(key: Key)
    | ClearFallback(key: Key)
    | Activate(key: Key, etag: Etag)
    | Deactivate(keys: set<Key>, at: Option<int>)  // one statement: hard delete, or soft delete of active rows

  function Touched(op: Op): set<Key> {
    if op.Deactivate? then op.keys else {op.key}
  }

  function Apply(c: Cell, k: Key, op: Op): Cell {
    if k !in Touched(op) then c
    else match op
      case SetPrimary(_, f) => c.(primary := Some(f))
      case SetFallback(_, f) => c.(fallback := Some(f))
      case ClearPrimary(_) => c.(primary := None)
      case ClearFallback(_) => c.(fallback := None)
      case Activate(_, e) => c.(row := Active(e))
      case Deactivate(_, at) =>
        if at.None? then c.(row := Absent) else if c.row.Active? then c.(row := SoftDeleted(at.value)) else c
  }

  function ApplyAll(c: Cell, k: Key, ops: seq<Op>): Cell
    decreases |ops|
  {
    if ops == [] then c else ApplyAll(Apply(c, k, ops[0]), k, ops[1..])
  }

  /** Removals of blob files of some keys, in any order, any of them missing where a removal failed. */
  predicate Drops(ops: seq<Op>, keys: set<Key>) {
    forall i :: 0 <= i < |ops| ==> (ops[i].ClearPrimary? || ops[i].ClearFallback?) && ops[i].key in keys
  }

  // ---------------------------------------------------------------- operations

  datatype Intent =
    | Upload(key: Key, file: FileId, etag: Etag)
    | CopyTo(src: Key, dst: Key)
    | Delete(keys: set<Key>, at: Option<int>)
    | Purge(key: Key, cutoff: int)
    | DropStaleRow(key: Key)
    | CollectOrphan(key: Key)
    | Maintain(key: Key, fromPrimary: bool, stamp: FileId, file: FileId, toPrimary: bool)

  function Keys(i: Intent): set<Key> {
    match i
    case CopyTo(src, dst) => {src, dst}
    case Delete(keys, _) => keys
    case _ => {i.key}
  }

  /** Installing a staged file: refused, committed (an older file may resist removal), or rolled back. */
  predicate InstallPlan(c: Cell, k: Key, f: FileId, e: Etag, ops: seq<Op>) {
    || ops == []
    || ops == [SetPrimary(k, f), Activate(k, e)]
    || ops == [SetPrimary(k, f), Activate(k, e), ClearFallback(k)]
    || ops == [SetPrimary(k, f), if c.primary.Some? then SetPrimary(k, c.primary.value) else ClearPrimary(k)]
  }

  /** The maintenance swap: only when the file at the stamped name is still the stamped one. */
  predicate MaintainPlan(c: Cell, i: Intent, ops: seq<Op>)
    requires i.Maintain?
  {
    || ops == []
    || (FileAt(c, i.fromPrimary) == Some(i.stamp) && (
          || (i.toPrimary && ops == [SetPrimary(i.key, i.file)])
          || (i.toPrimary && !i.fromPrimary && ops == [SetPrimary(i.key, i.file), ClearFallback(i.key)])
          || (!i.toPrimary && ops == [SetFallback(i.key, i.file)])))
  }

  /** What an operation may do, decided by what it reads under its locks and by which statements fail. */
  predicate IsPlan(cells: map<Key, Cell>, i: Intent, ops: seq<Op>) {
    match i
    case Upload(k, f, e) => InstallPlan(At(cells, k), k, f, e, ops)
    case CopyTo(src, dst) =>
      var c := At(cells, src);
      if c.row.Active? && Visible(c).Some?
      then InstallPlan(At(cells, dst), dst, Visible(c).value, c.row.etag, ops) else ops == []
    case Delete(keys, at) => ops == [] || (ops[0] == Deactivate(keys, at) && Drops(ops[1..], keys))
    case Purge(k, cutoff) =>
      var c := At(cells, k);
      ops == [] || (c.row.SoftDeleted? && c.row.at < cutoff && ops[0] == Deactivate({k}, None) && Drops(ops[1..], {k}))
    case DropStaleRow(k) =>
      ops == [] || (Visible(At(cells, k)).None? && ops == [Deactivate({k}, None)])
    case CollectOrphan(k) => ops == [] || (!At(cells, k).row.Active? && Drops(ops, {k}))
    case Maintain(k, _, _, _, _) => MaintainPlan(At(cells, k), i, ops)
  }

  function At(cells: map<Key, Cell>, k: Key): Cell {
    if k in cells then cells[k] else Empty
  }

  // ---------------------------------------------------------------- the machine

  datatype Task =
    | Scanning(key: Key, fromPrimary: bool, stamp: FileId)  // maintenance has stamped a file, without a lock
    | Waiting(intent: Intent)
    | Locked(intent: Intent)
    | Running(keys: set<Key>, ops: seq<Op>)
    | Reading(key: Key)
    | Knows(key: Key, etag: Etag)
    | Opened(key: Key, etag: Etag, file: FileId)
    | Served(key: Key, etag: Etag, content: Content)        // the shared lock is released; bytes are being sent

  datatype World = World(files: Files, cells: map<Key, Cell>, tasks: map<TaskId, Task>)

  function WriteKeys(t: Task): set<Key> {
    match t
    case Locked(i) => Keys(i)
    case Running(keys, _) => keys
    case _ => {}
  }

  function ReadKeys(t: Task): set<Key> {
    if t.Reading? || t.Knows? || t.Opened? then {t.key} else {}
  }

  /** Two locked keys exclude each other when they share a stripe and one side is exclusive. */
  ghost predicate Clash(stripe: Key -> nat, held: Task, j: Key, k: Key, exclusive: bool) {
    stripe(j) == stripe(k) && (j in WriteKeys(held) || (exclusive && j in ReadKeys(held)))
  }

  ghost predicate CanLock(stripe: Key -> nat, w: World, keys: set<Key>, exclusive: bool) {
    forall t, j, k :: t in w.tasks && k in keys ==> !Clash(stripe, w.tasks[t], j, k, exclusive)
  }

  datatype Step =
    | StageUpload(task: TaskId, key: Key, file: FileId, content: Content)
    | Intend(task: TaskId, intent: Intent)
    | Scan(task: TaskId, key: Key)
    | Reencode(task: TaskId, file: FileId, toPrimary: bool)
    | Move(task: TaskId)
    | Acquire(task: TaskId)
    | Plan(task: TaskId, ops: seq<Op>)
    | Do(task: TaskId)
    | Leave(task: TaskId)
    | BeginRead(task: TaskId, key: Key)
    | ReadRow(task: TaskId)
    | OpenBlob(task: TaskId)
    | EndRead(task: TaskId)

  ghost predicate Enabled(stripe: Key -> nat, w: World, step: Step) {
    match step
    case StageUpload(t, _, f, _) => t !in w.tasks && f !in w.files
    case Intend(t, i) => t !in w.tasks && !i.Upload? && !i.Maintain?
    case Scan(t, k) => t !in w.tasks && Visible(At(w.cells, k)).Some?
    case Reencode(t, f, _) => t in w.tasks && w.tasks[t].Scanning? && f !in w.files
                              && FileAt(At(w.cells, w.tasks[t].key), w.tasks[t].fromPrimary).Some?
                              && FileAt(At(w.cells, w.tasks[t].key), w.tasks[t].fromPrimary).value in w.files
    case Move(t) => t in w.tasks && w.tasks[t].Scanning?
    case Acquire(t) => t in w.tasks && w.tasks[t].Waiting? && CanLock(stripe, w, Keys(w.tasks[t].intent), true)
    case Plan(t, ops) => t in w.tasks && w.tasks[t].Locked? && IsPlan(w.cells, w.tasks[t].intent, ops)
    case Do(t) => t in w.tasks && w.tasks[t].Running? && w.tasks[t].ops != []
    case Leave(t) => t in w.tasks && (w.tasks[t].Running? ==> w.tasks[t].ops == [])
    case BeginRead(t, k) => t !in w.tasks && CanLock(stripe, w, {k}, false)
    case ReadRow(t) => t in w.tasks && w.tasks[t].Reading? && At(w.cells, w.tasks[t].key).row.Active?
    case OpenBlob(t) => t in w.tasks && w.tasks[t].Knows? && Visible(At(w.cells, w.tasks[t].key)).Some?
    case EndRead(t) => t in w.tasks && w.tasks[t].Opened? && w.tasks[t].file in w.files
  }

  function Changed(cells: map<Key, Cell>, op: Op): map<Key, Cell> {
    map k | k in cells.Keys + Touched(op) :: Apply(At(cells, k), k, op)
  }

  function Next(stripe: Key -> nat, w: World, step: Step): World
    requires Enabled(stripe, w, step)
  {
    match step
    case StageUpload(t, k, f, c) =>
      w.(files := w.files[f := c], tasks := w.tasks[t := Waiting(Upload(k, f, Digest(c)))])
    case Intend(t, i) => w.(tasks := w.tasks[t := Waiting(i)])
    case Scan(t, k) =>
      w.(tasks := w.tasks[t := Scanning(k, At(w.cells, k).primary.Some?, Visible(At(w.cells, k)).value)])
    case Reencode(t, f, toPrimary) =>
      var s := w.tasks[t];
      w.(files := w.files[f := w.files[FileAt(At(w.cells, s.key), s.fromPrimary).value]],
         tasks := w.tasks[t := Waiting(Maintain(s.key, s.fromPrimary, s.stamp, f, s.fromPrimary || toPrimary))])
    case Move(t) =>
      var s := w.tasks[t];
      w.(tasks := w.tasks[t := Waiting(Maintain(s.key, s.fromPrimary, s.stamp, s.stamp, true))])
    case Acquire(t) => w.(tasks := w.tasks[t := Locked(w.tasks[t].intent)])
    case Plan(t, ops) => w.(tasks := w.tasks[t := Running(Keys(w.tasks[t].intent), ops)])
    case Do(t) =>
      var r := w.tasks[t];
      w.(cells := Changed(w.cells, r.ops[0]), tasks := w.tasks[t := Running(r.keys, r.ops[1..])])
    case Leave(t) => w.(tasks := w.tasks - {t})
    case BeginRead(t, k) => w.(tasks := w.tasks[t := Reading(k)])
    case ReadRow(t) =>
      var k := w.tasks[t].key;
      w.(tasks := w.tasks[t := Knows(k, At(w.cells, k).row.etag)])
    case OpenBlob(t) =>
      var k := w.tasks[t].key;
      w.(tasks := w.tasks[t := Opened(k, w.tasks[t].etag, Visible(At(w.cells, k)).value)])
    case EndRead(t) =>
      w.(tasks := w.tasks[t := Served(w.tasks[t].key, w.tasks[t].etag, w.files[w.tasks[t].file])])
  }

  // ---------------------------------------------------------------- the invariant

  predicate CellKnown(files: Files, c: Cell) {
    (c.primary.Some? ==> c.primary.value in files) && (c.fallback.Some? ==> c.fallback.value in files)
  }

  ghost predicate CellsKnown(w: World) {
    forall k :: CellKnown(w.files, At(w.cells, k))
  }

  predicate OpWithin(files: Files, keys: set<Key>, op: Op) {
    Touched(op) <= keys && (op.SetPrimary? || op.SetFallback? ==> op.file in files)
  }

  predicate OpsWithin(files: Files, keys: set<Key>, ops: seq<Op>) {
    forall i :: 0 <= i < |ops| ==> OpWithin(files, keys, ops[i])
  }

  /** What each task relies on. `trusted` keys are those whose invariant is claimed. */
  ghost predicate IntentOk(trusted: set<Key>, files: Files, i: Intent) {
    match i
    case Upload(_, f, e) => f in files && e == Digest(files[f])
    case CopyTo(src, dst) => dst in trusted ==> src in trusted
    case Maintain(_, fromPrimary, stamp, f, toPrimary) =>
      stamp in files && f in files && (fromPrimary ==> toPrimary)
    case _ => true
  }

  /** The stamped file is under the stamped name. */
  predicate StampHolds(c: Cell, i: Intent)
    requires i.Maintain?
  {
    FileAt(c, i.fromPrimary) == Some(i.stamp)
  }

  /** What the stamp check is for: a pass that would still be let through carries the stamped file's bytes. */
  ghost predicate PassFresh(trusted: set<Key>, files: Files, cells: map<Key, Cell>, i: Intent) {
    i.Maintain? && i.key in trusted && StampHolds(At(cells, i.key), i) ==>
      i.stamp in files && i.file in files && files[i.file] == files[i.stamp]
  }

  ghost predicate TaskOk(trusted: set<Key>, files: Files, cells: map<Key, Cell>, t: Task) {
    match t
    case Scanning(_, _, stamp) => stamp in files
    case Waiting(i) => IntentOk(trusted, files, i) && PassFresh(trusted, files, cells, i)
    case Locked(i) => IntentOk(trusted, files, i) && PassFresh(trusted, files, cells, i)
    case Running(keys, ops) => OpsWithin(files, keys, ops)
      && forall k :: k in keys && k in trusted ==> Good(files, ApplyAll(At(cells, k), k, ops))
    case Reading(_) => true
    case Knows(k, e) => At(cells, k).row == Active(e)
    case Opened(k, e, f) => f in files && (k in trusted ==> e == Digest(files[f]))
    case Served(k, e, c) => k in trusted ==> e == Digest(c)
  }

  ghost predicate TasksOk(trusted: set<Key>, w: World) {
    forall t :: t in w.tasks ==> TaskOk(trusted, w.files, w.cells, w.tasks[t])
  }

  ghost predicate Apart(a: Task, b: Task) {
    forall k :: k in WriteKeys(a) ==> k !in WriteKeys(b) && k !in ReadKeys(b)
  }

  ghost predicate Exclusive(w: World) {
    forall t, u :: t in w.tasks && u in w.tasks && t != u ==> Apart(w.tasks[t], w.tasks[u])
  }

  /** Some planned operation is in the middle of changing the key. */
  ghost predicate Changing(w: World, k: Key) {
    exists t :: t in w.tasks && w.tasks[t].Running? && k in w.tasks[t].keys
  }

  ghost predicate Settled(trusted: set<Key>, w: World) {
    forall k :: k in trusted && !Changing(w, k) ==> Good(w.files, At(w.cells, k))
  }

  ghost predicate Inv(trusted: set<Key>, w: World) {
    CellsKnown(w) && TasksOk(trusted, w) && Exclusive(w) && Settled(trusted, w)
  }

  // ---------------------------------------------------------------- plans keep a good key good

  lemma {:induction false} DropsKeepRow(c: Cell, k: Key, ops: seq<Op>, keys: set<Key>)
    requires Drops(ops, keys)
    ensures ApplyAll(c, k, ops).row == c.row
    decreases |ops|
  {
    if ops != [] {
      DropsKeepRow(Apply(c, k, ops[0]), k, ops[1..], keys);
    }
  }

  lemma ApplyAll2(c: Cell, k: Key, a: Op, b: Op)
    ensures ApplyAll(c, k, [a]) == Apply(c, k, a)
    ensures ApplyAll(c, k, [a, b]) == Apply(Apply(c, k, a), k, b)
  {
    var d := Apply(c, k, a);
    assert [a][1..] == [] && [a, b][1..] == [b] && [b][1..] == [];
    assert ApplyAll(d, k, [b]) == ApplyAll(Apply(d, k, b), k, []);
  }

  lemma ApplyAll3(c: Cell, k: Key, a: Op, b: Op, d: Op)
    ensures ApplyAll(c, k, [a, b, d]) == Apply(Apply(Apply(c, k, a), k, b), k, d)
  {
    assert [a, b, d][1..] == [b, d];
    ApplyAll2(Apply(c, k, a), k, b, d);
  }

  lemma InstallKeepsGood(files: Files, c: Cell, key: Key, f: FileId, e: Etag, ops: seq<Op>, k: Key, d: Cell)
    requires InstallPlan(c, key, f, e, ops) && f in files && e == Digest(files[f])
    requires k == key ==> d == c
    requires Good(files, d)
    ensures Good(files, ApplyAll(d, k, ops))
  {
    if |ops| == 2 { ApplyAll2(d, k, ops[0], ops[1]); }
    if |ops| == 3 { ApplyAll3(d, k, ops[0], ops[1], ops[2]); }
  }

  lemma DeactivateKeepsGood(files: Files, c: Cell, k: Key, keys: set<Key>, at: Option<int>, ops: seq<Op>)
    requires ops != [] && ops[0] == Deactivate(keys, at) && Drops(ops[1..], keys) && k in keys
    ensures Good(files, ApplyAll(c, k, ops))
  {
    DropsKeepRow(Apply(c, k, ops[0]), k, ops[1..], keys);
  }

  /** The swap may only land on a current name that is free, or replace the very file it stamped. */
  predicate TargetFree(c: Cell, i: Intent)
    requires i.Maintain?
  {
    i.fromPrimary || !i.toPrimary || c.primary.None?
  }

  lemma MaintainKeepsGood(files: Files, c: Cell, i: Intent, ops: seq<Op>)
    requires i.Maintain? && MaintainPlan(c, i, ops) && (i.fromPrimary ==> i.toPrimary)
    requires i.stamp in files && i.file in files && (StampHolds(c, i) ==> files[i.file] == files[i.stamp])
    requires (ops != [] ==> TargetFree(c, i)) && Good(files, c)
    ensures Good(files, ApplyAll(c, i.key, ops))
  {
    if |ops| == 1 { ApplyAll2(c, i.key, ops[0], ops[0]); }
    if |ops| == 2 { ApplyAll2(c, i.key, ops[0], ops[1]); }
  }

  lemma PlanKeepsGood(trusted: set<Key>, files: Files, cells: map<Key, Cell>, i: Intent, ops: seq<Op>, k: Key)
    requires IsPlan(cells, i, ops) && IntentOk(trusted, files, i) && k in Keys(i) && k in trusted
    requires PassFresh(trusted, files, cells, i)
    requires forall j :: j in Keys(i) && j in trusted ==> Good(files, At(cells, j))
    requires i.Maintain? && ops != [] ==> TargetFree(At(cells, k), i)
    ensures Good(files, ApplyAll(At(cells, k), k, ops))
  {
    var c := At(cells, k);
    if ops != [] {
      match i
      case Upload(key, f, e) => InstallKeepsGood(files, c, key, f, e, ops, k, c);
      case CopyTo(src, dst) => CopyKeepsGood(trusted, files, cells, src, dst, ops, k);
      case Delete(keys, at) => DeactivateKeepsGood(files, c, k, keys, at, ops);
      case Purge(_, _) => DeactivateKeepsGood(files, c, k, {k}, None, ops);
      case DropStaleRow(_) => ApplyAll2(c, k, ops[0], ops[0]);
      case CollectOrphan(_) => DropsKeepRow(c, k, ops, {k});
      case Maintain(_, _, _, _, _) => MaintainKeepsGood(files, c, i, ops);
    }
  }

  lemma CopyKeepsGood(trusted: set<Key>, files: Files, cells: map<Key, Cell>, src: Key, dst: Key, ops: seq<Op>, k: Key)
    requires IsPlan(cells, CopyTo(src, dst), ops) && ops != []
    requires dst in trusted ==> src in trusted
    requires k in {src, dst} && k in trusted && Good(files, At(cells, k))
    requires src in trusted ==> Good(files, At(cells, src))
    ensures Good(files, ApplyAll(At(cells, k), k, ops))
  {
    var s, d := At(cells, src), At(cells, dst);
    if k == dst {
      InstallKeepsGood(files, d, dst, Visible(s).value, s.row.etag, ops, k, d);
    } else {
      UntouchedKey(At(cells, k), k, ops);
    }
  }

  lemma {:induction false} UntouchedKey(c: Cell, k: Key, ops: seq<Op>)
    requires forall i :: 0 <= i < |ops| ==> k !in Touched(ops[i])
    ensures ApplyAll(c, k, ops) == c
    decreases |ops|
  {
    if ops != [] {
      UntouchedKey(c, k, ops[1..]);
    }
  }

  lemma PlanStaysWithin(trusted: set<Key>, w: World, i: Intent, ops: seq<Op>)
    requires IsPlan(w.cells, i, ops) && IntentOk(trusted, w.files, i) && CellsKnown(w)
    ensures OpsWithin(w.files, Keys(i), ops)
  {
    if i.CopyTo? {
      assert CellKnown(w.files, At(w.cells, i.src)) && CellKnown(w.files, At(w.cells, i.dst));
    } else if i.Upload? {
      assert CellKnown(w.files, At(w.cells, i.key));
    } else if (i.Delete? || i.Purge?) && ops != [] {
      assert forall j :: 1 <= j < |ops| ==> ops[j] == ops[1..][j - 1];
    }
  }

  // ---------------------------------------------------------------- every step keeps the invariant

  predicate Grown(files: Files, more: Files) {
    forall f :: f in files ==> f in more && more[f] == files[f]
  }

  lemma TaskOkGrows(trusted: set<Key>, files: Files, more: Files, cells: map<Key, Cell>, t: Task)
    requires TaskOk(trusted, files, cells, t) && Grown(files, more)
    ensures TaskOk(trusted, more, cells, t)
  {
  }

  /** A step that gives one task a new state and changes no cell. */
  lemma RetaskKeepsInv(trusted: set<Key>, w: World, r: World, t: TaskId, n: Task)
    requires Inv(trusted, w) && r.tasks == w.tasks[t := n] && r.cells == w.cells && Grown(w.files, r.files)
    requires t in w.tasks ==> !w.tasks[t].Running?
    requires TaskOk(trusted, r.files, r.cells, n)
    requires forall u :: u in w.tasks && u != t ==> Apart(n, w.tasks[u]) && Apart(w.tasks[u], n)
    ensures Inv(trusted, r)
  {
    forall u | u in r.tasks ensures TaskOk(trusted, r.files, r.cells, r.tasks[u]) {
      if u != t { TaskOkGrows(trusted, w.files, r.files, w.cells, w.tasks[u]); }
    }
    forall k ensures CellKnown(r.files, At(r.cells, k)) {
      assert CellKnown(w.files, At(w.cells, k));
    }
    forall k | k in trusted && !Changing(r, k) ensures Good(r.files, At(r.cells, k)) {
      assert forall u :: u in w.tasks && w.tasks[u].Running? ==> r.tasks[u] == w.tasks[u];
      assert !Changing(w, k);
    }
  }

  /** A task that keeps the same locks, or fewer, stays apart from the others. */
  lemma StaysApart(w: World, t: TaskId, n: Task)
    requires Exclusive(w)
    requires t in w.tasks ==> WriteKeys(n) <= WriteKeys(w.tasks[t]) && ReadKeys(n) <= ReadKeys(w.tasks[t])
    requires t !in w.tasks ==> WriteKeys(n) == {} && ReadKeys(n) == {}
    ensures forall u :: u in w.tasks && u != t ==> Apart(n, w.tasks[u]) && Apart(w.tasks[u], n)
  {
  }

  lemma LockKeepsApart(stripe: Key -> nat, w: World, t: TaskId, n: Task, exclusive: bool)
    requires CanLock(stripe, w, WriteKeys(n) + ReadKeys(n), exclusive)
    requires exclusive || WriteKeys(n) == {}
    ensures forall u :: u in w.tasks && u != t ==> Apart(n, w.tasks[u]) && Apart(w.tasks[u], n)
  {
    forall u | u in w.tasks && u != t ensures Apart(n, w.tasks[u]) && Apart(w.tasks[u], n) {
      forall k | k in WriteKeys(n) ensures k !in WriteKeys(w.tasks[u]) && k !in ReadKeys(w.tasks[u]) {
        assert !Clash(stripe, w.tasks[u], k, k, exclusive);
      }
      forall k | k in WriteKeys(w.tasks[u]) ensures k !in WriteKeys(n) && k !in ReadKeys(n) {
        assert Clash(stripe, w.tasks[u], k, k, exclusive);
      }
    }
  }

  /** A key that a waiting-to-plan task has locked is not being changed by anyone. */
  lemma LockedIsSettled(trusted: set<Key>, w: World, t: TaskId, k: Key)
    requires Inv(trusted, w) && t in w.tasks && !w.tasks[t].Running? && k in trusted
    requires k in WriteKeys(w.tasks[t]) + ReadKeys(w.tasks[t])
    ensures Good(w.files, At(w.cells, k))
  {
    forall u | u in w.tasks && w.tasks[u].Running? ensures k !in w.tasks[u].keys {
      assert Apart(w.tasks[u], w.tasks[t]);
    }
    assert !Changing(w, k);
  }

  lemma PlanKeepsInv(trusted: set<Key>, w: World, r: World, t: TaskId, ops: seq<Op>)
    requires Inv(trusted, w) && t in w.tasks && w.tasks[t].Locked? && IsPlan(w.cells, w.tasks[t].intent, ops)
    requires ops != [] && w.tasks[t].intent.Maintain? && w.tasks[t].intent.key in trusted ==>
               TargetFree(At(w.cells, w.tasks[t].intent.key), w.tasks[t].intent)
    requires r == w.(tasks := w.tasks[t := Running(Keys(w.tasks[t].intent), ops)])
    ensures Inv(trusted, r)
  {
    var i := w.tasks[t].intent;
    assert TaskOk(trusted, w.files, w.cells, w.tasks[t]);
    PlanStaysWithin(trusted, w, i, ops);
    forall k | k in Keys(i) && k in trusted ensures Good(w.files, At(w.cells, k)) {
      LockedIsSettled(trusted, w, t, k);
    }
    forall k | k in Keys(i) && k in trusted ensures Good(w.files, ApplyAll(At(w.cells, k), k, ops)) {
      PlanKeepsGood(trusted, w.files, w.cells, i, ops, k);
    }
    var n := Running(Keys(i), ops);
    StaysApart(w, t, n);
    RetaskKeepsInv(trusted, w, r, t, n);
  }

  lemma ChangedAt(cells: map<Key, Cell>, op: Op, k: Key)
    ensures At(Changed(cells, op), k) == Apply(At(cells, k), k, op)
  {
  }

  /** The change puts a pass's stamped file back under the stamped name after the pass read other bytes. */
  predicate Returns(files: Files, cells: map<Key, Cell>, op: Op, i: Intent)
    requires i.Maintain?
  {
    && !StampHolds(At(cells, i.key), i) && StampHolds(Apply(At(cells, i.key), i.key, op), i)
    && i.stamp in files && i.file in files && files[i.file] != files[i.stamp]
  }

  ghost predicate NoReturn(trusted: set<Key>, w: World, op: Op) {
    forall u :: (u in w.tasks && w.tasks[u].Waiting? && w.tasks[u].intent.Maintain? && w.tasks[u].intent.key in trusted)
      ==> !Returns(w.files, w.cells, op, w.tasks[u].intent)
  }

  /** Changes inside one task's locks are invisible to what the others rely on. */
  lemma OthersUnmoved(trusted: set<Key>, w: World, t: TaskId, u: TaskId, op: Op)
    requires Inv(trusted, w) && t in w.tasks && u in w.tasks && u != t
    requires Touched(op) <= WriteKeys(w.tasks[t]) && NoReturn(trusted, w, op)
    ensures TaskOk(trusted, w.files, Changed(w.cells, op), w.tasks[u])
  {
    assert Apart(w.tasks[t], w.tasks[u]) && TaskOk(trusted, w.files, w.cells, w.tasks[u]);
    forall k | k in WriteKeys(w.tasks[u]) + ReadKeys(w.tasks[u]) ensures At(Changed(w.cells, op), k) == At(w.cells, k) {
      ChangedAt(w.cells, op, k);
    }
    if w.tasks[u].Waiting? && w.tasks[u].intent.Maintain? {
      ChangedAt(w.cells, op, w.tasks[u].intent.key);
    }
  }

  lemma DoKeepsInv(trusted: set<Key>, w: World, r: World, t: TaskId, keys: set<Key>, op: Op, rest: seq<Op>)
    requires Inv(trusted, w) && t in w.tasks && w.tasks[t] == Running(keys, [op] + rest) && NoReturn(trusted, w, op)
    requires r == w.(cells := Changed(w.cells, op), tasks := w.tasks[t := Running(keys, rest)])
    ensures Inv(trusted, r)
  {
    var ops := [op] + rest;
    assert TaskOk(trusted, w.files, w.cells, w.tasks[t]) && ops[1..] == rest && ops[0] == op;
    assert OpWithin(w.files, keys, ops[0]);
    assert forall i :: 0 <= i < |rest| ==> rest[i] == ops[i + 1];
    forall k ensures At(r.cells, k) == Apply(At(w.cells, k), k, op) { ChangedAt(w.cells, op, k); }
    forall k ensures CellKnown(r.files, At(r.cells, k)) { assert CellKnown(w.files, At(w.cells, k)); }
    forall u | u in r.tasks ensures TaskOk(trusted, r.files, r.cells, r.tasks[u]) {
      if u != t { OthersUnmoved(trusted, w, t, u, op); }
    }
    forall u, v | u in r.tasks && v in r.tasks && u != v ensures Apart(r.tasks[u], r.tasks[v]) {
      assert Apart(w.tasks[u], w.tasks[v]);
    }
    forall k | k in trusted && !Changing(r, k) ensures Good(r.files, At(r.cells, k)) {
      assert r.tasks[t].Running?;
      StillSettled(w, r, t, k);
    }
  }

  lemma StillSettled(w: World, r: World, t: TaskId, k: Key)
    requires t in w.tasks && t in r.tasks && w.tasks[t].Running? && r.tasks[t].Running?
    requires w.tasks[t].keys == r.tasks[t].keys && w.tasks.Keys == r.tasks.Keys
    requires forall u :: u in w.tasks && u != t ==> w.tasks[u] == r.tasks[u]
    requires !Changing(r, k)
    ensures !Changing(w, k) && k !in w.tasks[t].keys
  {
    assert forall u :: u in w.tasks && w.tasks[u].Running? ==> r.tasks[u].Running? && r.tasks[u].keys == w.tasks[u].keys;
  }

  lemma LeaveKeepsInv(trusted: set<Key>, w: World, t: TaskId)
    requires Inv(trusted, w) && t in w.tasks && (w.tasks[t].Running? ==> w.tasks[t].ops == [])
    ensures Inv(trusted, w.(tasks := w.tasks - {t}))
  {
    var r := w.(tasks := w.tasks - {t});
    assert TaskOk(trusted, w.files, w.cells, w.tasks[t]);
    forall k | k in trusted && !Changing(r, k) ensures Good(r.files, At(r.cells, k)) {
      assert forall u :: u in w.tasks && w.tasks[u].Running? && u != t ==> r.tasks[u] == w.tasks[u];
      assert Changing(w, k) ==> w.tasks[t].Running? && k in w.tasks[t].keys;
    }
  }

  /**
   * What the store relies on beyond its own checks, each only for keys whose invariant is claimed: copies come
   * from such keys, no stamped file returns after a pass read other bytes, and a swap that happens lands on a
   * free name.
   */
  ghost predicate Sound(trusted: set<Key>, w: World, step: Step) {
    match step
    case Intend(_, i) => i.CopyTo? && i.dst in trusted ==> i.src in trusted
    case Do(t) => t in w.tasks && w.tasks[t].Running? && w.tasks[t].ops != [] ==> NoReturn(trusted, w, w.tasks[t].ops[0])
    case Plan(t, ops) =>
      (ops != [] && t in w.tasks && w.tasks[t].Locked? && w.tasks[t].intent.Maintain?
       && w.tasks[t].intent.key in trusted) ==>
        TargetFree(At(w.cells, w.tasks[t].intent.key), w.tasks[t].intent)
    case _ => true
  }

  lemma StartKeepsInv(trusted: set<Key>, stripe: Key -> nat, w: World, step: Step)
    requires Inv(trusted, w) && Enabled(stripe, w, step) && Sound(trusted, w, step)
    requires step.StageUpload? || step.Intend? || step.Scan? || step.Reencode? || step.Move?
    ensures Inv(trusted, Next(stripe, w, step))
  {
    var r, t := Next(stripe, w, step), step.task;
    var n := r.tasks[t];
    if t in w.tasks { assert TaskOk(trusted, w.files, w.cells, w.tasks[t]); }
    if step.Scan? { assert CellKnown(w.files, At(w.cells, step.key)); }
    StaysApart(w, t, n);
    RetaskKeepsInv(trusted, w, r, t, n);
  }

  lemma ReadKeepsInv(trusted: set<Key>, stripe: Key -> nat, w: World, step: Step)
    requires Inv(trusted, w) && Enabled(stripe, w, step)
    requires step.ReadRow? || step.OpenBlob? || step.EndRead?
    ensures Inv(trusted, Next(stripe, w, step))
  {
    var r, t := Next(stripe, w, step), step.task;
    var n, k := r.tasks[t], w.tasks[t].key;
    assert TaskOk(trusted, w.files, w.cells, w.tasks[t]) && CellKnown(w.files, At(w.cells, k));
    if k in trusted { LockedIsSettled(trusted, w, t, k); }
    StaysApart(w, t, n);
    RetaskKeepsInv(trusted, w, r, t, n);
  }

  lemma StepKeepsInv(trusted: set<Key>, stripe: Key -> nat, w: World, step: Step)
    requires Inv(trusted, w) && Enabled(stripe, w, step) && Sound(trusted, w, step)
    ensures Inv(trusted, Next(stripe, w, step))
  {
    var r := Next(stripe, w, step);
    match step
    case Acquire(t) =>
      assert TaskOk(trusted, w.files, w.cells, w.tasks[t]);
      LockKeepsApart(stripe, w, t, Locked(w.tasks[t].intent), true);
      RetaskKeepsInv(trusted, w, r, t, Locked(w.tasks[t].intent));
    case BeginRead(t, k) =>
      LockKeepsApart(stripe, w, t, Reading(k), false);
      RetaskKeepsInv(trusted, w, r, t, Reading(k));
    case Plan(t, ops) => PlanKeepsInv(trusted, w, r, t, ops);
    case Do(t) =>
      var ops := w.tasks[t].ops;
      assert ops == [ops[0]] + ops[1..];
      DoKeepsInv(trusted, w, r, t, w.tasks[t].keys, ops[0], ops[1..]);
    case Leave(t) => LeaveKeepsInv(trusted, w, t);
    case ReadRow(_) => ReadKeepsInv(trusted, stripe, w, step);
    case OpenBlob(_) => ReadKeepsInv(trusted, stripe, w, step);
    case EndRead(_) => ReadKeepsInv(trusted, stripe, w, step);
    case StageUpload(_, _, _, _) => StartKeepsInv(trusted, stripe, w, step);
    case Intend(_, _) => StartKeepsInv(trusted, stripe, w, step);
    case Scan(_, _) => StartKeepsInv(trusted, stripe, w, step);
    case Reencode(_, _, _) => StartKeepsInv(trusted, stripe, w, step);
    case Move(_) => StartKeepsInv(trusted, stripe, w, step);
  }

  // ---------------------------------------------------------------- runs

  ghost predicate Runnable(stripe: Key -> nat, w: World, steps: seq<Step>)
    decreases |steps|
  {
    steps == [] || (Enabled(stripe, w, steps[0]) && Runnable(stripe, Next(stripe, w, steps[0]), steps[1..]))
  }

  ghost function Run(stripe: Key -> nat, w: World, steps: seq<Step>): World
    requires Runnable(stripe, w, steps)
    decreases |steps|
  {
    if steps == [] then w else Run(stripe, Next(stripe, w, steps[0]), steps[1..])
  }

  ghost predicate AllSound(trusted: set<Key>, stripe: Key -> nat, w: World, steps: seq<Step>)
    requires Runnable(stripe, w, steps)
    decreases |steps|
  {
    steps == [] || (Sound(trusted, w, steps[0]) && AllSound(trusted, stripe, Next(stripe, w, steps[0]), steps[1..]))
  }

  /** The key is not inside any writer's locked section. */
  ghost predicate Unlocked(w: World, k: Key) {
    forall t :: t in w.tasks ==> k !in WriteKeys(w.tasks[t])
  }

  /** No writer holds the key: its active row has a matching blob. Whatever a reader got, it got as a pair. */
  ghost predicate Consistent(trusted: set<Key>, w: World) {
    && (forall k :: k in trusted && Unlocked(w, k) ==> Good(w.files, At(w.cells, k)))
    && (forall t :: t in w.tasks && w.tasks[t].Served? && w.tasks[t].key in trusted ==>
          w.tasks[t].etag == Digest(w.tasks[t].content))
  }

  lemma InvIsConsistent(trusted: set<Key>, w: World)
    requires Inv(trusted, w)
    ensures Consistent(trusted, w)
  {
    forall t | t in w.tasks && w.tasks[t].Served? && w.tasks[t].key in trusted
      ensures w.tasks[t].etag == Digest(w.tasks[t].content)
    {
      assert TaskOk(trusted, w.files, w.cells, w.tasks[t]);
    }
    forall k | k in trusted && Unlocked(w, k) ensures Good(w.files, At(w.cells, k)) {
      assert forall u :: u in w.tasks && w.tasks[u].Running? ==> WriteKeys(w.tasks[u]) == w.tasks[u].keys;
      assert !Changing(w, k);
    }
  }

  /** In every interleaving the store stays consistent for every key that started so. */
  lemma {:induction false} StoreStaysConsistent(trusted: set<Key>, stripe: Key -> nat, w: World, steps: seq<Step>)
    requires Inv(trusted, w) && Runnable(stripe, w, steps) && AllSound(trusted, stripe, w, steps)
    ensures Consistent(trusted, Run(stripe, w, steps))
    decreases |steps|
  {
    if steps == [] {
      InvIsConsistent(trusted, w);
    } else {
      StepKeepsInv(trusted, stripe, w, steps[0]);
      StoreStaysConsistent(trusted, stripe, Next(stripe, w, steps[0]), steps[1..]);
    }
  }

  // ---------------------------------------------------------------- what an operation leaves is what is read

  /** A waiting task takes its locks, decides on a plan and carries it out. */
  function Performing(u: TaskId, ops: seq<Op>, rest: seq<Step>): seq<Step> {
    [Acquire(u)] + ([Plan(u, ops)] + Finishing(u, |ops|, rest))
  }

  lemma {:induction false} PerformRuns(stripe: Key -> nat, w: World, u: TaskId, i: Intent, ops: seq<Op>, r: World,
                                       rest: seq<Step>)
    requires u in w.tasks && w.tasks[u] == Waiting(i) && CanLock(stripe, w, Keys(i), true) && IsPlan(w.cells, i, ops)
    requires r == World(w.files, ChangedAll(w.cells, ops), w.tasks - {u}) && Runnable(stripe, r, rest)
    ensures Runnable(stripe, w, Performing(u, ops, rest))
    ensures Run(stripe, w, Performing(u, ops, rest)) == Run(stripe, r, rest)
  {
    var w1 := World(w.files, w.cells, w.tasks[u := Locked(i)]);
    var w2 := World(w.files, w.cells, w.tasks[u := Running(Keys(i), ops)]);
    assert w2.tasks - {u} == w.tasks - {u} && w1.tasks[u := Running(Keys(i), ops)] == w2.tasks;
    FinishRuns(stripe, w2, u, Keys(i), ops, r, rest);
    Prepend(stripe, w1, w2, Plan(u, ops), Finishing(u, |ops|, rest));
    Prepend(stripe, w, w1, Acquire(u), [Plan(u, ops)] + Finishing(u, |ops|, rest));
  }

  function ReadingSteps(t: TaskId, k: Key): seq<Step> {
    [BeginRead(t, k)] + ([ReadRow(t)] + ([OpenBlob(t)] + ([EndRead(t)] + [])))
  }

  /** A reader that gets the shared lock on a live key is served the row's ETag and the visible file's bytes. */
  lemma ReadRuns(stripe: Key -> nat, w: World, t: TaskId, k: Key)
    requires t !in w.tasks && CanLock(stripe, w, {k}, false) && At(w.cells, k).row.Active?
    requires Visible(At(w.cells, k)).Some? && Visible(At(w.cells, k)).value in w.files
    ensures Runnable(stripe, w, ReadingSteps(t, k))
    ensures var c := At(w.cells, k);
      Run(stripe, w, ReadingSteps(t, k)) ==
        World(w.files, w.cells, w.tasks[t := Served(k, c.row.etag, w.files[Visible(c).value])])
  {
    var c := At(w.cells, k);
    var f := Visible(c).value;
    var w1 := World(w.files, w.cells, w.tasks[t := Reading(k)]);
    var w2 := World(w.files, w.cells, w.tasks[t := Knows(k, c.row.etag)]);
    var w3 := World(w.files, w.cells, w.tasks[t := Opened(k, c.row.etag, f)]);
    var w4 := World(w.files, w.cells, w.tasks[t := Served(k, c.row.etag, w.files[f])]);
    assert w1.tasks[t := Knows(k, c.row.etag)] == w2.tasks && w2.tasks[t := Opened(k, c.row.etag, f)] == w3.tasks;
    assert w3.tasks[t := Served(k, c.row.etag, w.files[f])] == w4.tasks;
    Prepend(stripe, w3, w4, EndRead(t), []);
    Prepend(stripe, w2, w3, OpenBlob(t), [EndRead(t)] + []);
    Prepend(stripe, w1, w2, ReadRow(t), [OpenBlob(t)] + ([EndRead(t)] + []));
    Prepend(stripe, w, w1, BeginRead(t, k), [ReadRow(t)] + ([OpenBlob(t)] + ([EndRead(t)] + [])));
  }

  /** Installing a file and activating its row, then reading the key: the reader gets that file under that ETag. */
  lemma InstalledIsRead(stripe: Key -> nat, w: World, u: TaskId, t: TaskId, i: Intent, k: Key, f: FileId, e: Etag)
    requires u in w.tasks && w.tasks[u] == Waiting(i) && k in Keys(i) && CanLock(stripe, w, Keys(i), true)
    requires f in w.files && t !in w.tasks && IsPlan(w.cells, i, [SetPrimary(k, f), Activate(k, e)])
    ensures var steps := Performing(u, [SetPrimary(k, f), Activate(k, e)], ReadingSteps(t, k));
      && Runnable(stripe, w, steps) && t in Run(stripe, w, steps).tasks
      && Run(stripe, w, steps).tasks[t] == Served(k, e, w.files[f])
  {
    var ops := [SetPrimary(k, f), Activate(k, e)];
    var r := World(w.files, ChangedAll(w.cells, ops), w.tasks - {u});
    ChangedAllAt(w.cells, ops, k);
    ApplyAll2(At(w.cells, k), k, ops[0], ops[1]);
    forall v, j, x | v in r.tasks && x in {k} ensures !Clash(stripe, r.tasks[v], j, x, false) {
      assert !Clash(stripe, w.tasks[v], j, k, true);
    }
    ReadRuns(stripe, r, t, k);
    PerformRuns(stripe, w, u, i, ops, r, ReadingSteps(t, k));
  }

  /** An upload that gets its lock can commit, and its bytes are then what a reader is served. */
  lemma UploadIsRead(stripe: Key -> nat, w: World, u: TaskId, t: TaskId, k: Key, f: FileId, e: Etag)
    requires u in w.tasks && w.tasks[u] == Waiting(Upload(k, f, e)) && CanLock(stripe, w, {k}, true)
    requires f in w.files && t !in w.tasks
    ensures var steps := Performing(u, [SetPrimary(k, f), Activate(k, e)], ReadingSteps(t, k));
      && Runnable(stripe, w, steps) && t in Run(stripe, w, steps).tasks
      && Run(stripe, w, steps).tasks[t] == Served(k, e, w.files[f])
  {
    InstalledIsRead(stripe, w, u, t, Upload(k, f, e), k, f, e);
  }

  /** A copy of a live object that gets its locks can commit, and the destination then reads as the source. */
  lemma CopyIsRead(stripe: Key -> nat, w: World, u: TaskId, t: TaskId, src: Key, dst: Key)
    requires u in w.tasks && w.tasks[u] == Waiting(CopyTo(src, dst)) && CanLock(stripe, w, {src, dst}, true)
    requires var c := At(w.cells, src); c.row.Active? && Visible(c).Some? && Visible(c).value in w.files
    requires t !in w.tasks
    ensures var c := At(w.cells, src);
      var f := Visible(c).value;
      var steps := Performing(u, [SetPrimary(dst, f), Activate(dst, c.row.etag)], ReadingSteps(t, dst));
      && Runnable(stripe, w, steps) && t in Run(stripe, w, steps).tasks
      && Run(stripe, w, steps).tasks[t] == Served(dst, c.row.etag, w.files[f])
  {
    var c := At(w.cells, src);
    InstalledIsRead(stripe, w, u, t, CopyTo(src, dst), dst, Visible(c).value, c.row.etag);
  }

  /** A delete that gets its locks can take all its rows away at once; no other key changes. */
  lemma DeletedIsGone(stripe: Key -> nat, w: World, u: TaskId, keys: set<Key>, at: Option<int>)
    requires u in w.tasks && w.tasks[u] == Waiting(Delete(keys, at)) && CanLock(stripe, w, keys, true)
    ensures var steps := Performing(u, [Deactivate(keys, at)], []);
      && Runnable(stripe, w, steps)
      && forall k :: (k in keys ==> !At(Run(stripe, w, steps).cells, k).row.Active?)
                     && (k !in keys ==> At(Run(stripe, w, steps).cells, k) == At(w.cells, k))
  {
    var ops := [Deactivate(keys, at)];
    var r := World(w.files, ChangedAll(w.cells, ops), w.tasks - {u});
    assert ops[1..] == [];
    PerformRuns(stripe, w, u, Delete(keys, at), ops, r, []);
    forall k ensures At(r.cells, k) == Apply(At(w.cells, k), k, ops[0]) {
      ChangedAllAt(w.cells, ops, k);
      ApplyAll2(At(w.cells, k), k, ops[0], ops[0]);
    }
  }

  // ---------------------------------------------------------------- where the maintenance checks fall short

  /**
   * A swap that the stamp check lets through although a guard fails: the stamped file is back and is what
   * readers see, but other bytes were read; or the current name is taken by another version.
   */
  predicate Unguarded(files: Files, c: Cell, i: Intent)
    requires i.Maintain?
  {
    && StampHolds(c, i) && i.stamp in files && i.file in files
    && (if TargetFree(c, i) then (i.toPrimary || c.primary.None?) && files[i.file] != files[i.stamp]
        else c.primary.Some? && c.primary.value in files && files[i.file] != files[c.primary.value])
  }

  function SwapOp(i: Intent): Op
    requires i.Maintain?
  {
    if i.toPrimary then SetPrimary(i.key, i.file) else SetFallback(i.key, i.file)
  }

  lemma UnguardedIsBad(files: Files, cells: map<Key, Cell>, i: Intent)
    requires i.Maintain? && (i.fromPrimary ==> i.toPrimary) && Unguarded(files, At(cells, i.key), i)
    requires At(cells, i.key).row.Active? && Good(files, At(cells, i.key))
    ensures IsPlan(cells, i, [SwapOp(i)]) && !Good(files, Apply(At(cells, i.key), i.key, SwapOp(i)))
  {
  }

  /** On a live matching key whose stamp holds, every outcome of the pass is harmless exactly when it is guarded. */
  lemma SwapKeepsGoodIff(files: Files, cells: map<Key, Cell>, i: Intent)
    requires i.Maintain? && (i.fromPrimary ==> i.toPrimary) && i.stamp in files && i.file in files
    requires var c := At(cells, i.key); c.row.Active? && Good(files, c) && CellKnown(files, c) && StampHolds(c, i)
    ensures (forall ops :: IsPlan(cells, i, ops) ==> Good(files, ApplyAll(At(cells, i.key), i.key, ops))) <==>
      !Unguarded(files, At(cells, i.key), i)
  {
    var c, op := At(cells, i.key), SwapOp(i);
    if Unguarded(files, c, i) {
      UnguardedIsBad(files, cells, i);
      ApplyAll2(c, i.key, op, op);
    } else {
      forall ops | IsPlan(cells, i, ops) ensures Good(files, ApplyAll(c, i.key, ops)) {
        if |ops| == 1 { ApplyAll2(c, i.key, ops[0], ops[0]); }
        if |ops| == 2 { ApplyAll2(c, i.key, ops[0], ops[1]); }
      }
    }
  }

  lemma Prepend(stripe: Key -> nat, w: World, next: World, step: Step, rest: seq<Step>)
    requires Enabled(stripe, w, step) && Next(stripe, w, step) == next && Runnable(stripe, next, rest)
    ensures Runnable(stripe, w, [step] + rest) && Run(stripe, w, [step] + rest) == Run(stripe, next, rest)
  {
    assert ([step] + rest)[1..] == rest;
  }

  lemma DoThen(stripe: Key -> nat, w: World, t: TaskId, keys: set<Key>, op: Op, ops: seq<Op>, r: World, rest: seq<Step>)
    requires t in w.tasks && w.tasks[t] == Running(keys, [op] + ops)
    requires r == World(w.files, Changed(w.cells, op), w.tasks[t := Running(keys, ops)]) && Runnable(stripe, r, rest)
    ensures Runnable(stripe, w, [Do(t)] + rest) && Run(stripe, w, [Do(t)] + rest) == Run(stripe, r, rest)
  {
    assert ([op] + ops)[1..] == ops;
    Prepend(stripe, w, r, Do(t), rest);
  }

  lemma LeaveThen(stripe: Key -> nat, w: World, t: TaskId, keys: set<Key>, r: World, rest: seq<Step>)
    requires t in w.tasks && w.tasks[t] == Running(keys, [])
    requires r == World(w.files, w.cells, w.tasks - {t}) && Runnable(stripe, r, rest)
    ensures Runnable(stripe, w, [Leave(t)] + rest) && Run(stripe, w, [Leave(t)] + rest) == Run(stripe, r, rest)
  {
    Prepend(stripe, w, r, Leave(t), rest);
  }

  /** The pass takes its lock, finds its stamp and swaps. */
  function Swapping(u: TaskId, op: Op): seq<Step> {
    [Acquire(u)] + ([Plan(u, [op])] + ([Do(u)] + ([Leave(u)] + [])))
  }

  lemma SwapRuns(stripe: Key -> nat, w: World, u: TaskId, i: Intent, op: Op)
    requires u in w.tasks && w.tasks[u] == Waiting(i) && CanLock(stripe, w, Keys(i), true) && IsPlan(w.cells, i, [op])
    ensures Runnable(stripe, w, Swapping(u, op))
    ensures Run(stripe, w, Swapping(u, op)) == World(w.files, Changed(w.cells, op), w.tasks - {u})
  {
    var w1 := World(w.files, w.cells, w.tasks[u := Locked(i)]);
    var w2 := World(w.files, w.cells, w1.tasks[u := Running(Keys(i), [op])]);
    var w3 := World(w.files, Changed(w.cells, op), w2.tasks[u := Running(Keys(i), [])]);
    var w4 := World(w.files, w3.cells, w3.tasks - {u});
    assert w4.tasks == w.tasks - {u} && [op] == [op] + [];
    LeaveThen(stripe, w3, u, Keys(i), w4, []);
    DoThen(stripe, w2, u, Keys(i), op, [], w3, [Leave(u)] + []);
    Prepend(stripe, w1, w2, Plan(u, [op]), [Do(u)] + ([Leave(u)] + []));
    Prepend(stripe, w, w1, Acquire(u), [Plan(u, [op])] + ([Do(u)] + ([Leave(u)] + [])));
  }

  lemma LockableIsUnlocked(stripe: Key -> nat, w: World, k: Key)
    requires CanLock(stripe, w, {k}, true)
    ensures Unlocked(w, k)
  {
    forall t | t in w.tasks ensures k !in WriteKeys(w.tasks[t]) {
      assert !Clash(stripe, w.tasks[t], k, k, true);
    }
  }

  /** From any state in which an unguarded pass can take its lock on a live matching key, the store can be broken. */
  lemma UnguardedSwapBreaks(stripe: Key -> nat, trusted: set<Key>, w: World, u: TaskId, i: Intent)
    requires u in w.tasks && w.tasks[u] == Waiting(i) && i.Maintain? && (i.fromPrimary ==> i.toPrimary)
    requires i.key in trusted && CanLock(stripe, w, {i.key}, true)
    requires At(w.cells, i.key).row.Active? && Good(w.files, At(w.cells, i.key))
    requires Unguarded(w.files, At(w.cells, i.key), i)
    ensures Runnable(stripe, w, Swapping(u, SwapOp(i)))
    ensures !Consistent(trusted, Run(stripe, w, Swapping(u, SwapOp(i))))
  {
    var op := SwapOp(i);
    UnguardedIsBad(w.files, w.cells, i);
    SwapRuns(stripe, w, u, i, op);
    LockableIsUnlocked(stripe, w, i.key);
    ChangedAt(w.cells, op, i.key);
    var r := World(w.files, Changed(w.cells, op), w.tasks - {u});
    assert Unlocked(r, i.key) && !Good(r.files, At(r.cells, i.key));
  }

  function ChangedAll(cells: map<Key, Cell>, ops: seq<Op>): map<Key, Cell>
    decreases |ops|
  {
    if ops == [] then cells else ChangedAll(Changed(cells, ops[0]), ops[1..])
  }

  lemma {:induction false} ChangedAllAt(cells: map<Key, Cell>, ops: seq<Op>, k: Key)
    ensures At(ChangedAll(cells, ops), k) == ApplyAll(At(cells, k), k, ops)
    decreases |ops|
  {
    if ops != [] {
      ChangedAt(cells, ops[0], k);
      ChangedAllAt(Changed(cells, ops[0]), ops[1..], k);
    }
  }

  /** A task carries out what is left of its plan and lets go. */
  function Finishing(t: TaskId, n: nat, rest: seq<Step>): seq<Step> {
    if n == 0 then [Leave(t)] + rest else [Do(t)] + Finishing(t, n - 1, rest)
  }

  lemma {:induction false} FinishRuns(stripe: Key -> nat, w: World, t: TaskId, keys: set<Key>, ops: seq<Op>, r: World,
                                      rest: seq<Step>)
    requires t in w.tasks && w.tasks[t] == Running(keys, ops)
    requires r == World(w.files, ChangedAll(w.cells, ops), w.tasks - {t}) && Runnable(stripe, r, rest)
    ensures Runnable(stripe, w, Finishing(t, |ops|, rest))
    ensures Run(stripe, w, Finishing(t, |ops|, rest)) == Run(stripe, r, rest)
    decreases |ops|
  {
    if ops == [] {
      LeaveThen(stripe, w, t, keys, r, rest);
    } else {
      var next := World(w.files, Changed(w.cells, ops[0]), w.tasks[t := Running(keys, ops[1..])]);
      assert next.tasks - {t} == w.tasks - {t} && ops == [ops[0]] + ops[1..];
      FinishRuns(stripe, next, t, keys, ops[1..], r, rest);
      DoThen(stripe, w, t, keys, ops[0], ops[1..], next, Finishing(t, |ops| - 1, rest));
    }
  }

  /** With nobody else at the key's stripe, the writer finishes and the pass swaps at once. */
  lemma FinishThenSwapBreaks(stripe: Key -> nat, trusted: set<Key>, w: World, t: TaskId, u: TaskId, i: Intent)
    requires Inv(trusted, w) && t in w.tasks && u in w.tasks && w.tasks[t].Running? && w.tasks[u] == Waiting(i)
    requires i.Maintain? && i.key in trusted && i.key in w.tasks[t].keys
    requires CanLock(stripe, World(w.files, w.cells, w.tasks - {t}), {i.key}, true)
    requires var c := ApplyAll(At(w.cells, i.key), i.key, w.tasks[t].ops); c.row.Active? && Unguarded(w.files, c, i)
    ensures var steps := Finishing(t, |w.tasks[t].ops|, Swapping(u, SwapOp(i)));
      Runnable(stripe, w, steps) && !Consistent(trusted, Run(stripe, w, steps))
  {
    var ops := w.tasks[t].ops;
    var r := World(w.files, ChangedAll(w.cells, ops), w.tasks - {t});
    assert TaskOk(trusted, w.files, w.cells, w.tasks[t]) && TaskOk(trusted, w.files, w.cells, w.tasks[u]);
    ChangedAllAt(w.cells, ops, i.key);
    SameLocks(stripe, World(w.files, w.cells, w.tasks - {t}), r, {i.key});
    UnguardedSwapBreaks(stripe, trusted, r, u, i);
    FinishRuns(stripe, w, t, w.tasks[t].keys, ops, r, Swapping(u, SwapOp(i)));
  }

  /** No plan that is under way touches the key. */
  ghost predicate Idle(w: World, k: Key) {
    forall t :: t in w.tasks && w.tasks[t].Running? ==>
      forall n :: 0 <= n < |w.tasks[t].ops| ==> k !in Touched(w.tasks[t].ops[n])
  }

  /** Some run leads to an inconsistent store. */
  ghost predicate Breakable(stripe: Key -> nat, trusted: set<Key>, w: World) {
    exists steps :: Runnable(stripe, w, steps) && !Consistent(trusted, Run(stripe, w, steps))
  }

  lemma FinishStaysBreakable(stripe: Key -> nat, trusted: set<Key>, w: World, t: TaskId, r: World)
    requires t in w.tasks && w.tasks[t].Running? && Breakable(stripe, trusted, r)
    requires r == World(w.files, ChangedAll(w.cells, w.tasks[t].ops), w.tasks - {t})
    ensures Breakable(stripe, trusted, w)
  {
    var rest :| Runnable(stripe, r, rest) && !Consistent(trusted, Run(stripe, r, rest));
    FinishRuns(stripe, w, t, w.tasks[t].keys, w.tasks[t].ops, r, rest);
    assert Runnable(stripe, w, Finishing(t, |w.tasks[t].ops|, rest));
  }

  lemma LeaveStaysBreakable(stripe: Key -> nat, trusted: set<Key>, w: World, t: TaskId, r: World)
    requires t in w.tasks && !w.tasks[t].Running? && Breakable(stripe, trusted, r)
    requires r == World(w.files, w.cells, w.tasks - {t})
    ensures Breakable(stripe, trusted, w)
  {
    var rest :| Runnable(stripe, r, rest) && !Consistent(trusted, Run(stripe, r, rest));
    Prepend(stripe, w, r, Leave(t), rest);
    assert Runnable(stripe, w, [Leave(t)] + rest);
  }

  lemma AloneCanLock(stripe: Key -> nat, w: World, u: TaskId, i: Intent, k: Key)
    requires w.tasks == map[u := Waiting(i)]
    ensures CanLock(stripe, w, {k}, true)
  {
  }

  /** Everybody else finishes or goes away; then the unguarded pass takes its lock. */
  lemma {:induction false} OthersLeaveFirst(stripe: Key -> nat, trusted: set<Key>, w: World, u: TaskId, i: Intent)
    requires u in w.tasks && w.tasks[u] == Waiting(i) && i.Maintain? && (i.fromPrimary ==> i.toPrimary)
    requires i.key in trusted && Idle(w, i.key)
    requires At(w.cells, i.key).row.Active? && Good(w.files, At(w.cells, i.key))
    requires Unguarded(w.files, At(w.cells, i.key), i)
    ensures Breakable(stripe, trusted, w)
    decreases |w.tasks|
  {
    if t :| t in w.tasks && t != u {
      assert |w.tasks - {t}| < |w.tasks| by { assert w.tasks == (w.tasks - {t})[t := w.tasks[t]]; }
      if w.tasks[t].Running? {
        var r := World(w.files, ChangedAll(w.cells, w.tasks[t].ops), w.tasks - {t});
        ChangedAllAt(w.cells, w.tasks[t].ops, i.key);
        UntouchedKey(At(w.cells, i.key), i.key, w.tasks[t].ops);
        OthersLeaveFirst(stripe, trusted, r, u, i);
        FinishStaysBreakable(stripe, trusted, w, t, r);
      } else {
        var r := World(w.files, w.cells, w.tasks - {t});
        OthersLeaveFirst(stripe, trusted, r, u, i);
        LeaveStaysBreakable(stripe, trusted, w, t, r);
      }
    } else {
      assert w.tasks == map[u := Waiting(i)];
      AloneCanLock(stripe, w, u, i, i.key);
      UnguardedSwapBreaks(stripe, trusted, w, u, i);
    }
  }

  /** The cell as the plan under way, if there is one, will leave it. */
  ghost predicate LeftAs(w: World, k: Key, c: Cell) {
    || (!Changing(w, k) && c == At(w.cells, k))
    || exists t :: t in w.tasks && w.tasks[t].Running? && k in w.tasks[t].keys
                   && c == ApplyAll(At(w.cells, k), k, w.tasks[t].ops)
  }

  /** Only a task that holds the key plans changes to it. */
  lemma NotHeldIsIdle(trusted: set<Key>, w: World, k: Key, ids: set<TaskId>)
    requires Inv(trusted, w) && forall t :: t in w.tasks && t !in ids && w.tasks[t].Running? ==> k !in w.tasks[t].keys
    ensures Idle(World(w.files, w.cells, w.tasks - ids), k)
  {
    forall t, n | t in w.tasks && t !in ids && w.tasks[t].Running? && 0 <= n < |w.tasks[t].ops|
      ensures k !in Touched(w.tasks[t].ops[n])
    {
      assert TaskOk(trusted, w.files, w.cells, w.tasks[t]);
      assert OpWithin(w.files, w.tasks[t].keys, w.tasks[t].ops[n]);
    }
  }

  lemma OnlyHolder(trusted: set<Key>, w: World, k: Key, t: TaskId)
    requires Inv(trusted, w) && t in w.tasks && w.tasks[t].Running? && k in w.tasks[t].keys
    ensures forall v :: v in w.tasks && v !in {t} && w.tasks[v].Running? ==> k !in w.tasks[v].keys
  {
    forall v | v in w.tasks && v !in {t} && w.tasks[v].Running? ensures k !in w.tasks[v].keys {
      assert Apart(w.tasks[t], w.tasks[v]) && k in WriteKeys(w.tasks[t]);
    }
  }

  /** The plan under way makes the pass unguarded: its task finishes, then the others leave. */
  lemma HolderFinishesFirst(stripe: Key -> nat, trusted: set<Key>, w: World, t: TaskId, u: TaskId, i: Intent)
    requires Inv(trusted, w) && t in w.tasks && u in w.tasks && w.tasks[t].Running? && w.tasks[u] == Waiting(i)
    requires i.Maintain? && i.key in trusted && i.key in w.tasks[t].keys
    requires var c := ApplyAll(At(w.cells, i.key), i.key, w.tasks[t].ops); c.row.Active? && Unguarded(w.files, c, i)
    ensures Breakable(stripe, trusted, w)
  {
    var r := World(w.files, ChangedAll(w.cells, w.tasks[t].ops), w.tasks - {t});
    assert TaskOk(trusted, w.files, w.cells, w.tasks[t]) && TaskOk(trusted, w.files, w.cells, w.tasks[u]);
    OnlyHolder(trusted, w, i.key, t);
    NotHeldIsIdle(trusted, w, i.key, {t});
    assert Idle(r, i.key);
    ChangedAllAt(w.cells, w.tasks[t].ops, i.key);
    OthersLeaveFirst(stripe, trusted, r, u, i);
    FinishStaysBreakable(stripe, trusted, w, t, r);
  }

  /**
   * The guards are needed. From any state the invariant allows, whoever else is running: if the plan under way, or
   * the key as it is, leaves a live key on which a waiting pass is unguarded, some run breaks the store.
   */
  lemma FailedGuardBreaks(stripe: Key -> nat, trusted: set<Key>, w: World, u: TaskId, i: Intent, c: Cell)
    requires Inv(trusted, w) && u in w.tasks && w.tasks[u] == Waiting(i) && i.Maintain? && i.key in trusted
    requires LeftAs(w, i.key, c) && c.row.Active? && Unguarded(w.files, c, i)
    ensures Breakable(stripe, trusted, w)
  {
    if t :| t in w.tasks && w.tasks[t].Running? && i.key in w.tasks[t].keys
            && c == ApplyAll(At(w.cells, i.key), i.key, w.tasks[t].ops) {
      HolderFinishesFirst(stripe, trusted, w, t, u, i);
    } else {
      assert TaskOk(trusted, w.files, w.cells, w.tasks[u]);
      NotHeldIsIdle(trusted, w, i.key, {});
      assert w.tasks - {} == w.tasks;
      OthersLeaveFirst(stripe, trusted, w, u, i);
    }
  }

  lemma SameLocks(stripe: Key -> nat, w: World, r: World, keys: set<Key>)
    requires CanLock(stripe, w, keys, true) && r.tasks == w.tasks
    ensures CanLock(stripe, r, keys, true)
  {
  }

  // ---------------------------------------------------------------- three runs that break the store

  lemma OnlyWriter(stripe: Key -> nat, files: Files, cells: map<Key, Cell>, i: Intent, writer: Task, k: Key)
    ensures CanLock(stripe, World(files, cells, map[0 := Waiting(i), 1 := writer] - {1}), {k}, true)
  {
  }

  /**
   * A hard link brings a stamped file back. The pass stamped `k` when it was a link to `src`'s file; an upload
   * replaced it, and a copy from `src` is about to make it the same file again.
   */
  function LinkedBack(src: Key, k: Key, a: Content, b: Content): World {
    World(map[1 := a, 2 := b],
          map[src := Cell(Some(1), None, Active(Digest(a))), k := Cell(Some(2), None, Active(Digest(b)))],
          map[0 := Scanning(k, true, 1), 1 := Running({src, k}, [SetPrimary(k, 1), Activate(k, Digest(a))])])
  }

  lemma LinkedBackIsConsistent(src: Key, k: Key, a: Content, b: Content)
    requires src != k
    ensures Inv({src, k}, LinkedBack(src, k, a, b))
  {
    var w := LinkedBack(src, k, a, b);
    var ops := w.tasks[1].ops;
    ApplyAll2(At(w.cells, src), src, ops[0], ops[1]);
    ApplyAll2(At(w.cells, k), k, ops[0], ops[1]);
    assert Changing(w, src) && Changing(w, k);
  }

  /** A pass that stamped file 1 reads the bytes of file 2 that are now under the name. */
  lemma PassReadsOther(stripe: Key -> nat, trusted: set<Key>, w: World, k: Key, writer: Task, r: World, b: Content)
    requires Inv(trusted, w) && w.tasks == map[0 := Scanning(k, true, 1), 1 := writer]
    requires At(w.cells, k).primary == Some(2) && 2 in w.files && w.files[2] == b && 3 !in w.files
    requires r == World(w.files[3 := b], w.cells, map[0 := Waiting(Maintain(k, true, 1, 3, true)), 1 := writer])
    ensures Enabled(stripe, w, Reencode(0, 3, false)) && Next(stripe, w, Reencode(0, 3, false)) == r
    ensures Inv(trusted, r)
  {
    StepKeepsInv(trusted, stripe, w, Reencode(0, 3, false));
  }

  /** The pass reads the upload's bytes, the copy completes, the stamp matches again, and wrong bytes go in. */
  lemma StampComesBack(stripe: Key -> nat, src: Key, k: Key, a: Content, b: Content)
    requires src != k && a != b
    ensures var w := LinkedBack(src, k, a, b);
      var steps := [Reencode(0, 3, false)] + Finishing(1, 2, Swapping(0, SetPrimary(k, 3)));
      && Inv({src, k}, w) && Runnable(stripe, w, steps) && !Consistent({src, k}, Run(stripe, w, steps))
  {
    var w, i := LinkedBack(src, k, a, b), Maintain(k, true, 1, 3, true);
    var writer := w.tasks[1];
    var r := World(w.files[3 := b], w.cells, map[0 := Waiting(i), 1 := writer]);
    LinkedBackIsConsistent(src, k, a, b);
    PassReadsOther(stripe, {src, k}, w, k, writer, r, b);
    ApplyAll2(At(w.cells, k), k, writer.ops[0], writer.ops[1]);
    OnlyWriter(stripe, r.files, r.cells, i, writer, k);
    FinishThenSwapBreaks(stripe, {src, k}, r, 1, 0, i);
    Prepend(stripe, w, r, Reencode(0, 3, false), Finishing(1, 2, Swapping(0, SetPrimary(k, 3))));
  }

  /** An upload whose metadata commit fails: it has renamed its file into place and will put the backup back. */
  function RollingBack(k: Key, a: Content, b: Content): World {
    World(map[1 := a, 2 := b], map[k := Cell(Some(2), None, Active(Digest(a)))],
          map[0 := Scanning(k, true, 1), 1 := Running({k}, [SetPrimary(k, 1)])])
  }

  lemma RollingBackIsConsistent(k: Key, a: Content, b: Content)
    ensures Inv({k}, RollingBack(k, a, b))
  {
    var w := RollingBack(k, a, b);
    ApplyAll2(At(w.cells, k), k, w.tasks[1].ops[0], w.tasks[1].ops[0]);
    assert Changing(w, k);
  }

  /** No copy is needed: the pass reads the failed upload's bytes, and the rollback restores the stamped file. */
  lemma RollbackComesBack(stripe: Key -> nat, k: Key, a: Content, b: Content)
    requires a != b
    ensures var w := RollingBack(k, a, b);
      var steps := [Reencode(0, 3, false)] + Finishing(1, 1, Swapping(0, SetPrimary(k, 3)));
      && Inv({k}, w) && Runnable(stripe, w, steps) && !Consistent({k}, Run(stripe, w, steps))
  {
    var w, i := RollingBack(k, a, b), Maintain(k, true, 1, 3, true);
    var writer := w.tasks[1];
    var r := World(w.files[3 := b], w.cells, map[0 := Waiting(i), 1 := writer]);
    RollingBackIsConsistent(k, a, b);
    PassReadsOther(stripe, {k}, w, k, writer, r, b);
    ApplyAll2(At(w.cells, k), k, writer.ops[0], writer.ops[0]);
    OnlyWriter(stripe, r.files, r.cells, i, writer, k);
    FinishThenSwapBreaks(stripe, {k}, r, 1, 0, i);
    Prepend(stripe, w, r, Reencode(0, 3, false), Finishing(1, 1, Swapping(0, SetPrimary(k, 3))));
  }

  /**
   * An older name outlives its version. The pass stamped the file under the old name; an upload installs a new
   * version under the current name, and its removal of the old file fails.
   */
  function StaleName(k: Key, a: Content, b: Content): World {
    World(map[1 := a, 2 := b], map[k := Cell(None, Some(1), Active(Digest(a)))],
          map[0 := Waiting(Maintain(k, false, 1, 1, true)),
              1 := Running({k}, [SetPrimary(k, 2), Activate(k, Digest(b))])])
  }

  lemma StaleNameIsConsistent(k: Key, a: Content, b: Content)
    ensures Inv({k}, StaleName(k, a, b))
  {
    var w := StaleName(k, a, b);
    var ops := w.tasks[1].ops;
    ApplyAll2(At(w.cells, k), k, ops[0], ops[1]);
    assert Changing(w, k);
  }

  /** The old version's file is then moved over the new version's. */
  lemma StaleNameComesBack(stripe: Key -> nat, k: Key, a: Content, b: Content)
    requires a != b
    ensures var w, steps := StaleName(k, a, b), Finishing(1, 2, Swapping(0, SetPrimary(k, 1)));
      && Inv({k}, w) && Runnable(stripe, w, steps) && !Consistent({k}, Run(stripe, w, steps))
  {
    var w := StaleName(k, a, b);
    var ops, i := w.tasks[1].ops, w.tasks[0].intent;
    StaleNameIsConsistent(k, a, b);
    ApplyAll2(At(w.cells, k), k, ops[0], ops[1]);
    OnlyWriter(stripe, w.files, w.cells, i, w.tasks[1], k);
    FinishThenSwapBreaks(stripe, {k}, w, 1, 0, i);
  }
}
