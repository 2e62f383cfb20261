/**
 * The overwrite protocol of `write_path.rs`: back up the current blob, journal the intent, rename the new
 * blob into place, commit metadata, clean up; and the recovery that runs when the engine starts.
 *
 * A `Disk` is what survives a crash. `SwapTrace` lists the disks an overwrite passes through, so "stopped
 * after any step" is an index into it.
 */
module SwapJournal {
  import opened Common

  type SwapId = nat

  /** An active metadata row. `body` is the version the row describes; the code itself sees only `etag`. */
  datatype Row = Row(etag: Option<Etag>, body: Content)

  /** A `.swap` file. `Torn` is one whose write did not finish, so it cannot be parsed. */
  datatype Intent = Torn | Intent(key: Key, newEtag: Etag, oldEtag: Option<Etag>)

  datatype Disk = Disk(
    blobs: map<Key, Content>,       // at the key's current filename
    fallback: map<Key, Content>,    // at an older filename (other scheme or nested layout)
    rows: map<Key, Row>,            // active metadata rows
    backups: map<SwapId, Content>,  // .tmp/{id}.prev
    intents: map<SwapId, Intent>    // .tmp/{id}.swap
  )

  /** A staged upload or copy. `junk` is what an unfinished backup copy may hold. */
  datatype Write = Write(id: SwapId, key: Key, staged: Content, etag: Option<Etag>, junk: Content)

  /** Which fallible step fails. `Leaves` commits, but some of the files it should remove stay. */
  datatype Outcome =
    | Commits
    | Leaves(older: bool, backup: bool, record: bool)
    | MetadataFails
    | RollbackFails
    | RenameFails
    | IntentFails
    | BackupFails

  /** The bytes a reader of the key gets: the current filename first, then the older one. */
  function Visible(d: Disk, k: Key): Option<Content> {
    if k in d.blobs then Some(d.blobs[k]) else if k in d.fallback then Some(d.fallback[k]) else None
  }

  /** Bytes and metadata agree. */
  predicate Matches(d: Disk, k: Key) {
    k in d.rows ==> Visible(d, k) == Some(d.rows[k].body)
  }

  ghost predicate AllMatch(d: Disk) {
    forall k :: k in d.rows ==> Matches(d, k)
  }

  function CurrentEtag(d: Disk, k: Key): Option<Etag> {
    if k in d.rows then d.rows[k].etag else None
  }

  function CommittedRow(w: Write): Row {
    Row(Some(if w.etag.Some? then w.etag.value else Blank), w.staged)
  }

  /** An ETag that is a digest is that of the staged content; a copy may also carry the empty one. */
  predicate EtagDescribes(w: Write) {
    w.etag.Some? && w.etag.value.Digest? ==> w.etag.value.of == w.staged
  }

  predicate Fresh(d: Disk, id: SwapId) {
    id !in d.backups && id !in d.intents
  }

  // ---------------------------------------------------------------- steps of an overwrite

  /** The `.prev` file exists; an unfinished copy holds `w.junk`. */
  function BackedUp(d: Disk, w: Write, finished: bool): Disk {
    if w.key in d.blobs then
      d.(backups := d.backups[w.id := if finished then d.blobs[w.key] else w.junk])
    else d
  }

  /** The overwrite is journaled only when there is a blob to back up and an ETag to name. */
  predicate Journals(d: Disk, w: Write) {
    w.key in d.blobs && w.etag.Some?
  }

  /** The `.swap` file exists; an unfinished one cannot be parsed. */
  function Recorded(d: Disk, w: Write, finished: bool): Disk {
    if Journals(d, w) then
      d.(intents := d.intents[w.id :=
        if finished then Intent(w.key, w.etag.value, CurrentEtag(d, w.key)) else Torn])
    else d
  }

  /** Backup and record together. */
  function Journaled(d: Disk, w: Write, finished: bool): Disk {
    BackedUp(Recorded(d, w, finished), w, true)
  }

  /** The staged blob is at the key's filename. */
  function Renamed(d: Disk, w: Write): Disk {
    d.(blobs := d.blobs[w.key := w.staged])
  }

  /** The row describes the staged blob. */
  function Committed(d: Disk, w: Write): Disk {
    d.(blobs := d.blobs[w.key := w.staged], rows := d.rows[w.key := CommittedRow(w)])
  }

  /** The committed object is at its current filename only. */
  function Installed(d: Disk, w: Write): Disk {
    Committed(d, w).(fallback := d.fallback - {w.key})
  }

  /** Steps of an overwrite with this outcome. */
  function Steps(outcome: Outcome): (n: nat) {
    match outcome
    case BackupFails => 2
    case IntentFails => 5
    case RenameFails => 6
    case MetadataFails => 7
    case RollbackFails => 6
    case Commits => 9
    case Leaves(_, _, _) => 9
  }

  /** A committed overwrite whose removals may have failed. */
  function Leftover(d: Disk, w: Write, older: bool, backup: bool, record: bool): Disk {
    var kept := if record then (if backup then Journaled(d, w, true) else Recorded(d, w, true))
                else if backup then BackedUp(d, w, true) else d;
    if older then Committed(kept, w) else Installed(kept, w)
  }

  /**
   * The disk when the overwrite stops after `stop` steps; from `Steps(outcome)` on it has run to its end,
   * which is the untouched disk unless it commits or its rollback fails.
   */
  function SwapStopped(d: Disk, w: Write, outcome: Outcome, stop: nat): Disk {
    if outcome.Commits? && stop >= 9 then Installed(d, w)
    else if outcome.Leaves? && stop >= 9 then Leftover(d, w, outcome.older, outcome.backup, outcome.record)
    else if outcome.RollbackFails? && stop >= 5 then Renamed(Journaled(d, w, true), w)
    else if stop == 0 || stop >= Steps(outcome) then d
    else
      match stop
      case 1 => BackedUp(d, w, false)
      case 2 => BackedUp(d, w, true)
      case 3 => Journaled(d, w, false)
      case 4 => if outcome.IntentFails? then BackedUp(d, w, true) else Journaled(d, w, true)
      case 5 => if outcome.RenameFails? then Recorded(d, w, true) else Renamed(Journaled(d, w, true), w)
      case 6 => if outcome.MetadataFails? then Recorded(d, w, true) else Committed(Journaled(d, w, true), w)
      case 7 => Installed(Journaled(d, w, true), w)
      case _ => Installed(Recorded(d, w, true), w)
  }

  // ---------------------------------------------------------------- recovery at engine start

  function DropBackup(d: Disk, id: SwapId): Disk {
    d.(backups := d.backups - {id})
  }

  function DropIntent(d: Disk, id: SwapId): Disk {
    d.(intents := d.intents - {id})
  }

  /** The record still describes the key's current state: its row names the version the backup holds. */
  predicate Restorable(d: Disk, id: SwapId) {
    && id in d.intents && d.intents[id].Intent?
    && var intent := d.intents[id];
    && CurrentEtag(d, intent.key) != Some(intent.newEtag)
    && intent.oldEtag.Some? && CurrentEtag(d, intent.key) == intent.oldEtag
    && id in d.backups
  }

  function Restore(d: Disk, id: SwapId): Disk {
    if Restorable(d, id) then
      d.(blobs := d.blobs[d.intents[id].key := d.backups[id]], backups := d.backups - {id})
    else d
  }

  /** Recovery of one `.swap` record, cut after `phase` steps (3 completes it). */
  function RecoverOne(d: Disk, id: SwapId, phase: nat): Disk {
    if id !in d.intents || phase == 0 then d
    else
      var restored := Restore(d, id);
      if phase == 1 then restored
      else
        var dropped := DropBackup(restored, id);
        if phase == 2 then dropped else DropIntent(dropped, id)
  }

  /** Recovery over a directory listing. */
  function Recover(d: Disk, order: seq<SwapId>): Disk
    decreases |order|
  {
    if order == [] then d else Recover(RecoverOne(d, order[0], 3), order[1..])
  }

  /** How many records of the listing are restored. */
  function Restorations(d: Disk, order: seq<SwapId>): nat
    decreases |order|
  {
    if order == [] then 0
    else (if Restorable(d, order[0]) then 1 else 0) + Restorations(RecoverOne(d, order[0], 3), order[1..])
  }

  function IdsOf(order: seq<SwapId>): set<SwapId> {
    set id | id in order
  }

  /** Recovery clears the listed records with their backups, and no others; rows and older files stay. */
  lemma {:induction false} RecoverClears(d: Disk, order: seq<SwapId>)
    ensures var r := Recover(d, order);
      && r.intents.Keys == d.intents.Keys - IdsOf(order)
      && r.backups.Keys == d.backups.Keys - d.intents.Keys * IdsOf(order)
      && r.rows == d.rows && r.fallback == d.fallback
    decreases |order|
  {
    if order != [] {
      RecoverClears(RecoverOne(d, order[0], 3), order[1..]);
      assert IdsOf(order) == {order[0]} + IdsOf(order[1..]) by { assert order == [order[0]] + order[1..]; }
      OneCleared(d, order[0]);
    }
  }

  lemma OneCleared(d: Disk, id: SwapId)
    ensures var r := RecoverOne(d, id, 3);
      && r.intents.Keys == d.intents.Keys - {id} && r.rows == d.rows && r.fallback == d.fallback
      && r.backups.Keys == d.backups.Keys - d.intents.Keys * {id}
  {
  }

  /** The records among these that will be restored. */
  function RestorableAmong(d: Disk, order: seq<SwapId>): set<SwapId> {
    set id | id in order && Restorable(d, id)
  }

  lemma RecoverOneKeepsRestorable(d: Disk, id: SwapId, other: SwapId)
    requires id != other
    ensures Restorable(RecoverOne(d, id, 3), other) <==> Restorable(d, other)
  {
  }

  lemma {:induction false} RestorableFirst(d: Disk, next: Disk, order: seq<SwapId>)
    requires order != [] && order[0] !in order[1..]
    requires forall other :: other in order[1..] ==> (Restorable(next, other) <==> Restorable(d, other))
    ensures |RestorableAmong(d, order)| == |RestorableAmong(next, order[1..])| + if Restorable(d, order[0]) then 1 else 0
  {
    var first := if Restorable(d, order[0]) then {order[0]} else {};
    assert order == [order[0]] + order[1..];
    assert RestorableAmong(d, order) == first + RestorableAmong(next, order[1..]);
  }

  /** Recovering one record does not change which others are restored, so each restorable one counts once. */
  lemma {:induction false} RestorationsCount(d: Disk, order: seq<SwapId>)
    requires forall i, j :: 0 <= i < j < |order| ==> order[i] != order[j]
    ensures Restorations(d, order) == |RestorableAmong(d, order)|
    decreases |order|
  {
    if order == [] {
      assert RestorableAmong(d, order) == {};
    } else {
      var next := RecoverOne(d, order[0], 3);
      RestorationsCount(next, order[1..]);
      forall other | other in order[1..] ensures Restorable(next, other) <==> Restorable(d, other) {
        RecoverOneKeepsRestorable(d, order[0], other);
      }
      RestorableFirst(d, next, order);
    }
  }

  ghost predicate Lists(order: seq<SwapId>, d: Disk) {
    forall id :: id in d.intents ==> id in order
  }

  // ---------------------------------------------------------------- what holds between steps

  /** Rows carry the digest of the version they describe. */
  ghost predicate RowsDigested(d: Disk) {
    forall k :: k in d.rows ==> d.rows[k].etag == Some(Digest(d.rows[k].body))
  }

  /** Every journaled backup is the version its record names. */
  ghost predicate JournalSound(d: Disk) {
    forall id :: id in d.intents && id in d.backups ==> SoundRecord(d.intents[id], d.backups[id])
  }

  /** A record of unchanged content is never restored, so its backup does not matter. */
  predicate SoundRecord(intent: Intent, backup: Content) {
    intent.Intent? && intent.oldEtag.Some? && intent.oldEtag.value != intent.newEtag ==>
      intent.oldEtag.value == Digest(backup)
  }

  ghost predicate Undoable(d: Disk, k: Key) {
    exists id :: Restorable(d, id) && d.intents[id].key == k
  }

  /** Bytes and metadata agree, or the journal can make them agree. */
  ghost predicate Covered(d: Disk) {
    forall k :: k in d.rows ==> Matches(d, k) || Undoable(d, k)
  }

  /** Every object is at its current filename, so an overwrite of it is backed up. */
  ghost predicate InPlace(d: Disk) {
    forall k :: k in d.rows ==> k in d.blobs
  }

  ghost predicate Inv(d: Disk) {
    RowsDigested(d) && InPlace(d) && JournalSound(d) && Covered(d)
  }

  // ---------------------------------------------------------------- recovery

  lemma RestoreKeepsInv(d: Disk, id: SwapId)
    requires Inv(d)
    ensures Inv(Restore(d, id))
    ensures Restore(d, id).rows == d.rows && Restore(d, id).intents == d.intents
    ensures !Restorable(Restore(d, id), id)
  {
    var r := Restore(d, id);
    forall k | k in r.rows ensures Matches(r, k) || Undoable(r, k) {
      if !Matches(r, k) {
        assert !Matches(d, k);
        var other :| Restorable(d, other) && d.intents[other].key == k;
        assert Restorable(r, other);
      }
    }
  }

  lemma DropBackupKeepsInv(d: Disk, id: SwapId)
    requires Inv(d) && !Restorable(d, id)
    ensures Inv(DropBackup(d, id))
  {
    var r := DropBackup(d, id);
    forall k | k in r.rows ensures Matches(r, k) || Undoable(r, k) {
      if !Matches(d, k) {
        var other :| Restorable(d, other) && d.intents[other].key == k;
        assert Restorable(r, other);
      }
    }
  }

  lemma DropIntentKeepsInv(d: Disk, id: SwapId)
    requires Inv(d) && !Restorable(d, id)
    ensures Inv(DropIntent(d, id))
  {
    var r := DropIntent(d, id);
    forall k | k in r.rows ensures Matches(r, k) || Undoable(r, k) {
      if !Matches(d, k) {
        var other :| Restorable(d, other) && d.intents[other].key == k;
        assert Restorable(r, other);
      }
    }
  }

  /** Recovery may itself be cut after any step of any record. */
  lemma RecoverOneKeepsInv(d: Disk, id: SwapId, phase: nat)
    requires Inv(d)
    ensures Inv(RecoverOne(d, id, phase)) && RecoverOne(d, id, phase).rows == d.rows
    ensures phase >= 3 ==> RecoverOne(d, id, phase).intents == d.intents - {id}
  {
    if id in d.intents {
      RestoreKeepsInv(d, id);
      DropBackupKeepsInv(Restore(d, id), id);
      DropIntentKeepsInv(DropBackup(Restore(d, id), id), id);
    }
  }

  lemma {:induction false} RecoverKeepsInv(d: Disk, order: seq<SwapId>)
    requires Inv(d)
    ensures Inv(Recover(d, order)) && Recover(d, order).rows == d.rows
    ensures forall id :: id in Recover(d, order).intents <==> id in d.intents && id !in order
    decreases |order|
  {
    if order != [] {
      RecoverOneKeepsInv(d, order[0], 3);
      RecoverKeepsInv(RecoverOne(d, order[0], 3), order[1..]);
      assert order == [order[0]] + order[1..];
    }
  }

  /** Recovery over any listing of the journal repairs every key and changes no row. */
  lemma RecoveryRestoresAgreement(d: Disk, order: seq<SwapId>)
    requires Inv(d) && Lists(order, d)
    ensures AllMatch(Recover(d, order))
    ensures Recover(d, order).rows == d.rows
    ensures Recover(d, order).intents == map[]
  {
    RecoverKeepsInv(d, order);
    assert Recover(d, order).intents.Keys == {};
  }

  // ---------------------------------------------------------------- overwrites

  /** `r` differs from `d` at most in the journal files named `id`. */
  ghost predicate SameJournal(d: Disk, r: Disk, id: SwapId) {
    && (forall i :: i != id ==> (i in r.intents <==> i in d.intents))
    && (forall i :: i != id ==> (i in r.backups <==> i in d.backups))
    && (forall i :: i != id && i in d.intents ==> r.intents[i] == d.intents[i])
    && (forall i :: i != id && i in d.backups ==> r.backups[i] == d.backups[i])
  }

  /** `r` differs from `d` at most in the object at `k` and the journal files named `id`. */
  ghost predicate SameElsewhere(d: Disk, r: Disk, k: Key, id: SwapId) {
    && SameJournal(d, r, id)
    && (forall j :: j != k ==> (j in r.rows <==> j in d.rows))
    && (forall j :: j != k && j in d.rows ==> r.rows[j] == d.rows[j])
    && (forall j :: j != k ==> (j in r.blobs <==> j in d.blobs))
    && (forall j :: j != k && j in d.blobs ==> r.blobs[j] == d.blobs[j])
    && (forall j :: j != k ==> (j in r.fallback <==> j in d.fallback))
    && (forall j :: j != k && j in d.fallback ==> r.fallback[j] == d.fallback[j])
  }

  /** The object at `k` and the record `id` are left in a state recovery can use. */
  ghost predicate LocalInv(r: Disk, k: Key, id: SwapId) {
    && (k in r.rows ==> r.rows[k].etag == Some(Digest(r.rows[k].body)) && k in r.blobs)
    && (k in r.rows ==> Matches(r, k) || Undoable(r, k))
    && (id in r.intents && id in r.backups ==> SoundRecord(r.intents[id], r.backups[id]))
  }

  lemma LocalChangeKeepsInv(d: Disk, r: Disk, k: Key, id: SwapId)
    requires Inv(d) && Fresh(d, id) && SameElsewhere(d, r, k, id) && LocalInv(r, k, id)
    ensures Inv(r)
  {
    forall j | j in r.rows ensures Matches(r, j) || Undoable(r, j) {
      if j != k && !Matches(d, j) {
        var other :| Restorable(d, other) && d.intents[other].key == j;
        assert Restorable(r, other);
      }
    }
  }

  /** With the object untouched, any record of this overwrite that is sound will do. */
  lemma UntouchedIsLocalInv(d: Disk, r: Disk, k: Key, id: SwapId)
    requires Inv(d) && Fresh(d, id) && SameJournal(d, r, id)
    requires r.blobs == d.blobs && r.fallback == d.fallback && r.rows == d.rows
    requires id in r.intents && id in r.backups ==> SoundRecord(r.intents[id], r.backups[id])
    ensures Inv(r)
  {
    if k in d.rows && !Matches(d, k) {
      var other :| Restorable(d, other) && d.intents[other].key == k;
      assert Restorable(r, other);
    }
    LocalChangeKeepsInv(d, r, k, id);
  }

  lemma BackedUpKeepsInv(d: Disk, w: Write, finished: bool)
    requires Inv(d) && Fresh(d, w.id)
    ensures Inv(BackedUp(d, w, finished))
  {
    UntouchedIsLocalInv(d, BackedUp(d, w, finished), w.key, w.id);
  }

  /** A record without its backup does no harm. */
  lemma RecordedKeepsInv(d: Disk, w: Write, finished: bool)
    requires Inv(d) && Fresh(d, w.id)
    ensures Inv(Recorded(d, w, finished))
  {
    UntouchedIsLocalInv(d, Recorded(d, w, finished), w.key, w.id);
  }

  /** What makes a backup worth restoring: it is the version the row describes, or the content does not change. */
  predicate SafeToBackUp(d: Disk, w: Write) {
    Matches(d, w.key) || (w.key in d.rows && d.rows[w.key].body == w.staged)
  }

  /** The stop leaves a readable record together with its backup. */
  predicate LeavesRecord(outcome: Outcome, stop: nat) {
    match outcome
    case Commits => 4 <= stop <= 7
    case Leaves(_, backup, record) => 4 <= stop <= 7 || (stop >= 9 && backup && record)
    case RollbackFails => stop >= 4
    case MetadataFails => 4 <= stop <= 5
    case RenameFails => stop == 4
    case IntentFails => false
    case BackupFails => false
  }

  /** A record with its backup is sound because the blob matched its row when it was backed up. */
  lemma JournaledKeepsInv(d: Disk, w: Write, finished: bool)
    requires Inv(d) && Fresh(d, w.id) && w.etag == Some(Digest(w.staged)) && (finished ==> SafeToBackUp(d, w))
    ensures Inv(Journaled(d, w, finished))
  {
    UntouchedIsLocalInv(d, Journaled(d, w, finished), w.key, w.id);
  }

  lemma RenamedKeepsInv(d: Disk, w: Write)
    requires Inv(d) && Fresh(d, w.id) && SafeToBackUp(d, w) && w.etag == Some(Digest(w.staged))
    ensures Inv(Renamed(Journaled(d, w, true), w))
  {
    var r := Renamed(Journaled(d, w, true), w);
    assert w.key in r.rows ==> Matches(r, w.key) || Restorable(r, w.id);
    LocalChangeKeepsInv(d, r, w.key, w.id);
  }

  /** A committed object matches whatever is left of the journal. */
  lemma CommittedKeepsInv(d: Disk, w: Write)
    requires Inv(d) && w.etag == Some(Digest(w.staged))
    ensures Inv(Committed(d, w)) && Matches(Committed(d, w), w.key)
    ensures Inv(Installed(d, w)) && Matches(Installed(d, w), w.key)
  {
    forall r | r == Committed(d, w) || r == Installed(d, w) ensures Inv(r) {
      forall k | k in r.rows ensures Matches(r, k) || Undoable(r, k) {
        if k != w.key && !Matches(d, k) {
          var other :| Restorable(d, other) && d.intents[other].key == k;
          assert Restorable(r, other);
        }
      }
    }
  }

  /** A committed overwrite run to its end is a commit over some of its journal files. */
  lemma LeftoverShape(d: Disk, w: Write, outcome: Outcome) returns (kept: Disk)
    requires outcome.Commits? || outcome.Leaves?
    ensures kept in {d, BackedUp(d, w, true), Recorded(d, w, true), Journaled(d, w, true)}
    ensures SwapStopped(d, w, outcome, 9) in {Committed(kept, w), Installed(kept, w)}
    ensures (outcome.Leaves? && outcome.backup && outcome.record) || kept in {d, BackedUp(d, w, true), Recorded(d, w, true)}
  {
    kept := d;
    if outcome.Leaves? {
      kept := if outcome.record then (if outcome.backup then Journaled(d, w, true) else Recorded(d, w, true))
              else if outcome.backup then BackedUp(d, w, true) else d;
    }
  }

  lemma CommittingKeepsInv(d: Disk, w: Write, outcome: Outcome, stop: nat)
    requires Inv(d) && Fresh(d, w.id) && w.etag == Some(Digest(w.staged))
    requires SafeToBackUp(d, w) || !LeavesRecord(outcome, stop)
    requires (outcome.Commits? || outcome.Leaves?) && stop >= 6
    ensures Inv(SwapStopped(d, w, outcome, stop))
  {
    BackedUpKeepsInv(d, w, true);
    RecordedKeepsInv(d, w, true);
    if SafeToBackUp(d, w) { JournaledKeepsInv(d, w, true); }
    if stop < 9 {
      CommittedKeepsInv(if stop < 8 then Journaled(d, w, true) else Recorded(d, w, true), w);
    } else {
      assert SwapStopped(d, w, outcome, stop) == SwapStopped(d, w, outcome, 9);
      var kept := LeftoverShape(d, w, outcome);
      CommittedKeepsInv(kept, w);
    }
  }

  /** A stopped overwrite leaves a journal that recovery can use, unless it leaves a record of a wrong backup. */
  lemma SwapKeepsInv(d: Disk, w: Write, outcome: Outcome, stop: nat)
    requires Inv(d) && Fresh(d, w.id) && w.etag == Some(Digest(w.staged))
    requires SafeToBackUp(d, w) || !LeavesRecord(outcome, stop)
    ensures Inv(SwapStopped(d, w, outcome, stop))
  {
    if (outcome.Commits? || outcome.Leaves?) && stop >= 6 {
      CommittingKeepsInv(d, w, outcome, stop);
    } else {
      BackedUpKeepsInv(d, w, stop != 1);
      RecordedKeepsInv(d, w, true);
      JournaledKeepsInv(d, w, false);
      if SafeToBackUp(d, w) {
        JournaledKeepsInv(d, w, true);
        RenamedKeepsInv(d, w);
      }
    }
  }

  // ---------------------------------------------------------------- runs

  datatype Action =
    | Overwrite(w: Write, outcome: Outcome, stop: nat)
    | Remove(key: Key, bytesToo: bool)                          // metadata first, then (unless cut) the bytes
    | Restart(order: seq<SwapId>, done: nat, phase: nat)        // recovery, cut after `done` records and `phase` steps

  function Do(d: Disk, a: Action): Disk {
    match a
    case Overwrite(w, outcome, stop) => SwapStopped(d, w, outcome, stop)
    case Remove(k, bytesToo) =>
      var unlisted := d.(rows := d.rows - {k});
      if bytesToo then unlisted.(blobs := d.blobs - {k}, fallback := d.fallback - {k}) else unlisted
    case Restart(order, done, phase) =>
      if done >= |order| then Recover(d, order)
      else RecoverOne(Recover(d, order[..done]), order[done], phase)
  }

  function Run(d: Disk, acts: seq<Action>): Disk
    decreases |acts|
  {
    if acts == [] then d else Run(Do(d, acts[0]), acts[1..])
  }

  /** An overwrite uses a new id and names its content; on a key that does not match it must not leave a record. */
  predicate Allowed(d: Disk, a: Action) {
    a.Overwrite? ==>
      && Fresh(d, a.w.id) && a.w.etag == Some(Digest(a.w.staged))
      && (SafeToBackUp(d, a.w) || !LeavesRecord(a.outcome, a.stop))
  }

  predicate AllAllowed(d: Disk, acts: seq<Action>)
    decreases |acts|
  {
    acts == [] || (Allowed(d, acts[0]) && AllAllowed(Do(d, acts[0]), acts[1..]))
  }

  lemma DoKeepsInv(d: Disk, a: Action)
    requires Inv(d) && Allowed(d, a)
    ensures Inv(Do(d, a))
  {
    match a
    case Overwrite(w, outcome, stop) => SwapKeepsInv(d, w, outcome, stop);
    case Remove(k, bytesToo) =>
      var r := Do(d, a);
      forall j | j in r.rows ensures Matches(r, j) || Undoable(r, j) {
        if !Matches(d, j) {
          var other :| Restorable(d, other) && d.intents[other].key == j;
          assert Restorable(r, other);
        }
      }
    case Restart(order, done, phase) =>
      RecoverKeepsInv(d, order);
      if done < |order| {
        RecoverKeepsInv(d, order[..done]);
        RecoverOneKeepsInv(Recover(d, order[..done]), order[done], phase);
      }
  }

  lemma {:induction false} RunKeepsInv(d: Disk, acts: seq<Action>)
    requires Inv(d) && AllAllowed(d, acts)
    ensures Inv(Run(d, acts))
    decreases |acts|
  {
    if acts != [] {
      DoKeepsInv(d, acts[0]);
      RunKeepsInv(Do(d, acts[0]), acts[1..]);
    }
  }

  /**
   * Crash safety. After any run of overwrites stopped at any step, deletes, and recoveries cut at any
   * step, a recovery makes every object's bytes agree with its row and undoes no committed row.
   */
  lemma CrashSafety(d: Disk, acts: seq<Action>, order: seq<SwapId>)
    requires Inv(d) && AllAllowed(d, acts) && Lists(order, Run(d, acts))
    ensures AllMatch(Recover(Run(d, acts), order))
    ensures Recover(Run(d, acts), order).rows == Run(d, acts).rows
  {
    RunKeepsInv(d, acts);
    RecoveryRestoresAgreement(Run(d, acts), order);
  }

  // ---------------------------------------------------------------- a process that restarts after every stop

  predicate Complete(d: Disk, a: Action) {
    match a
    case Overwrite(_, outcome, stop) => stop >= Steps(outcome) && !outcome.RollbackFails?
    case Remove(_, _) => true
    case Restart(order, done, _) => done >= |order| && forall id :: id in d.intents ==> id in order
  }

  /** Nothing but a recovery follows an action that was cut, as when each stop is a crash of the process. */
  predicate Supervised(d: Disk, clean: bool, acts: seq<Action>)
    decreases |acts|
  {
    acts == [] ||
    var a := acts[0];
    && (clean || a.Restart?)
    && (a.Overwrite? ==> Fresh(d, a.w.id) && a.w.etag == Some(Digest(a.w.staged)))
    && Supervised(Do(d, a), Complete(d, a), acts[1..])
  }

  lemma CompleteLeavesAgreement(d: Disk, a: Action)
    requires Inv(d) && Complete(d, a) && (a.Restart? || AllMatch(d))
    ensures AllMatch(Do(d, a))
  {
    match a
    case Overwrite(w, outcome, stop) => OverwriteLeavesAgreement(d, w, outcome, stop);
    case Remove(_, _) => assert forall k :: k in Do(d, a).rows ==> Matches(d, k);
    case Restart(order, _, _) => RecoveryRestoresAgreement(d, order);
  }

  /** `x` differs from `d` at most in the journal. */
  predicate JournalOnly(d: Disk, x: Disk) {
    x.blobs == d.blobs && x.fallback == d.fallback && x.rows == d.rows
  }

  lemma CommitLeavesAgreement(d: Disk, x: Disk, w: Write)
    requires AllMatch(d) && JournalOnly(d, x)
    ensures AllMatch(Committed(x, w)) && AllMatch(Installed(x, w))
  {
    forall k | k in Committed(x, w).rows ensures Matches(Committed(x, w), k) && Matches(Installed(x, w), k) {
      assert k != w.key ==> Matches(d, k);
    }
  }

  lemma OverwriteLeavesAgreement(d: Disk, w: Write, outcome: Outcome, stop: nat)
    requires AllMatch(d) && stop >= Steps(outcome) && !outcome.RollbackFails?
    ensures AllMatch(SwapStopped(d, w, outcome, stop))
  {
    if outcome.Commits? || outcome.Leaves? {
      assert SwapStopped(d, w, outcome, stop) == SwapStopped(d, w, outcome, 9);
      var kept := LeftoverShape(d, w, outcome);
      CommitLeavesAgreement(d, kept, w);
    } else {
      assert SwapStopped(d, w, outcome, stop) == d;
    }
  }

  /** When every stop is a crash, no overwrite ever starts on a key that does not match. */
  lemma {:induction false} SupervisedRunsAreAllowed(d: Disk, clean: bool, acts: seq<Action>)
    requires Inv(d) && (clean ==> AllMatch(d)) && Supervised(d, clean, acts)
    ensures AllAllowed(d, acts)
    decreases |acts|
  {
    if acts != [] {
      var a := acts[0];
      assert Allowed(d, a);
      DoKeepsInv(d, a);
      if Complete(d, a) { CompleteLeavesAgreement(d, a); }
      SupervisedRunsAreAllowed(Do(d, a), Complete(d, a), acts[1..]);
    }
  }

  /** A store whose every stop is a crash followed by recovery never loses agreement. */
  lemma CrashesAreSafe(d: Disk, acts: seq<Action>, order: seq<SwapId>)
    requires Inv(d) && AllMatch(d) && Supervised(d, true, acts) && Lists(order, Run(d, acts))
    ensures AllMatch(Recover(Run(d, acts), order))
    ensures Recover(Run(d, acts), order).rows == Run(d, acts).rows
  {
    SupervisedRunsAreAllowed(d, true, acts);
    CrashSafety(d, acts, order);
  }

  // ---------------------------------------------------------------- exactly when one overwrite is crash safe

  /** The journal covers this overwrite: there is a blob to back up and both versions have an ETag that tells them apart. */
  predicate JournalCovers(d: Disk, w: Write) {
    w.key in d.blobs && w.etag.Some? && CurrentEtag(d, w.key).Some? && CurrentEtag(d, w.key) != w.etag
  }

  ghost predicate RecoversAlways(d: Disk) {
    forall order :: Lists(order, d) ==> AllMatch(Recover(d, order))
  }

  lemma {:induction false} RecoverOfSingleton(d: Disk, order: seq<SwapId>, id: SwapId)
    requires d.intents.Keys <= {id} && Lists(order, d)
    ensures Recover(d, order) == RecoverOne(d, id, 3)
    decreases |order|
  {
    if order == [] {
      assert d.intents == map[];
    } else if id in d.intents && order[0] == id {
      RecoverOfNothing(RecoverOne(d, id, 3), order[1..]);
    } else {
      assert forall i :: i in order && i != order[0] ==> i in order[1..];
      RecoverOfSingleton(d, order[1..], id);
    }
  }

  lemma {:induction false} RecoverOfNothing(d: Disk, order: seq<SwapId>)
    requires d.intents == map[]
    ensures Recover(d, order) == d
    decreases |order|
  {
    if order != [] {
      RecoverOfNothing(d, order[1..]);
    }
  }

  /** Each row's digest, if it has one, is that of the version the row describes. */
  ghost predicate DigestsDescribe(d: Disk) {
    forall k :: k in d.rows && d.rows[k].etag.Some? && d.rows[k].etag.value.Digest?
      ==> d.rows[k].etag.value.of == d.rows[k].body
  }

  ghost predicate Quiet(d: Disk, w: Write) {
    AllMatch(d) && d.intents == map[] && Fresh(d, w.id) && EtagDescribes(w) && DigestsDescribe(d)
  }

  /** The only record is this overwrite's, and recovering it leaves everything in agreement. */
  ghost predicate Repaired(r: Disk, id: SwapId) {
    r.intents.Keys <= {id} && AllMatch(RecoverOne(r, id, 3))
  }

  /** Before the rename and after a rollback the object is untouched; restoring its own bytes changes nothing. */
  lemma UntouchedRecovers(d: Disk, r: Disk, id: SwapId)
    requires AllMatch(d) && r.blobs == d.blobs && r.fallback == d.fallback && r.rows == d.rows
    requires r.intents.Keys <= {id}
    requires Restorable(r, id) ==> r.intents[id].key in d.blobs && r.backups[id] == d.blobs[r.intents[id].key]
    ensures Repaired(r, id)
  {
    var x := RecoverOne(r, id, 3);
    assert x.blobs == d.blobs;
    forall k | k in x.rows ensures Matches(x, k) {
      assert Matches(d, k);
    }
  }

  lemma PreparedRecovers(d: Disk, w: Write, finished: bool)
    requires Quiet(d, w)
    ensures Repaired(d, w.id) && Repaired(BackedUp(d, w, finished), w.id)
    ensures Repaired(Recorded(d, w, finished), w.id) && Repaired(Journaled(d, w, finished), w.id)
  {
    UntouchedRecovers(d, d, w.id);
    UntouchedRecovers(d, BackedUp(d, w, finished), w.id);
    UntouchedRecovers(d, Recorded(d, w, finished), w.id);
    UntouchedRecovers(d, Journaled(d, w, finished), w.id);
  }

  /** Agreement survives putting a row's own body, or the bytes already there, at its path. */
  lemma AgreesAfterPut(d: Disk, x: Disk, key: Key, body: Content)
    requires AllMatch(d) && x.rows == d.rows && x.fallback == d.fallback
    requires x.blobs == d.blobs || (x.blobs == d.blobs[key := body] && (key in d.rows ==> d.rows[key].body == body))
    ensures AllMatch(x)
  {
    forall k | k in x.rows ensures Matches(x, k) {
      assert Matches(d, k);
    }
  }

  lemma RenamedRecovers(d: Disk, w: Write)
    requires Quiet(d, w)
    requires w.key in d.rows ==> d.rows[w.key].body == w.staged || JournalCovers(d, w)
    ensures Repaired(Renamed(Journaled(d, w, true), w), w.id)
  {
    var r := Renamed(Journaled(d, w, true), w);
    var x := RecoverOne(r, w.id, 3);
    assert x.rows == d.rows && x.fallback == d.fallback;
    if Restorable(r, w.id) {
      assert x.blobs == d.blobs;
    } else {
      assert x.blobs == d.blobs[w.key := w.staged];
      assert w.key in d.rows ==> d.rows[w.key].body == w.staged;
    }
    AgreesAfterPut(d, x, w.key, w.staged);
  }

  /** A record of a committed overwrite is only cleared. */
  lemma CommittedRecovers(d: Disk, x: Disk, w: Write)
    requires Quiet(d, w) && x.blobs == d.blobs && x.fallback == d.fallback && x.rows == d.rows
    requires x.intents.Keys <= {w.id}
    requires w.id in x.intents ==> w.etag.Some? && (x.intents[w.id].Intent? ==>
               x.intents[w.id].key == w.key && x.intents[w.id].newEtag == w.etag.value)
    ensures Repaired(Committed(x, w), w.id) && Repaired(Installed(x, w), w.id)
  {
    assert !Restorable(Committed(x, w), w.id) && !Restorable(Installed(x, w), w.id);
    forall k | k in d.rows ensures Matches(d, k) {
    }
  }

  lemma RepairedRecovers(r: Disk, id: SwapId)
    requires Repaired(r, id)
    ensures RecoversAlways(r)
  {
    forall order | Lists(order, r) ensures AllMatch(Recover(r, order)) {
      RecoverOfSingleton(r, order, id);
    }
  }

  lemma CommittingRecovers(d: Disk, w: Write, outcome: Outcome, stop: nat)
    requires Quiet(d, w) && (outcome.Commits? || outcome.Leaves?) && stop >= 6
    ensures Repaired(SwapStopped(d, w, outcome, stop), w.id)
  {
    if stop < 9 {
      CommittedRecovers(d, if stop < 8 then Journaled(d, w, true) else Recorded(d, w, true), w);
    } else {
      assert SwapStopped(d, w, outcome, stop) == SwapStopped(d, w, outcome, 9);
      var kept := LeftoverShape(d, w, outcome);
      CommittedRecovers(d, kept, w);
    }
  }

  lemma EveryStopRecovers(d: Disk, w: Write, outcome: Outcome, stop: nat)
    requires Quiet(d, w)
    requires w.key in d.rows ==> d.rows[w.key].body == w.staged || JournalCovers(d, w)
    ensures RecoversAlways(SwapStopped(d, w, outcome, stop))
  {
    if (outcome.Commits? || outcome.Leaves?) && stop >= 6 {
      CommittingRecovers(d, w, outcome, stop);
    } else if stop >= 5 && (stop == 5 || outcome.RollbackFails?) && !outcome.RenameFails? {
      RenamedRecovers(d, w);
      PreparedRecovers(d, w, true);
    } else {
      PreparedRecovers(d, w, true);
      PreparedRecovers(d, w, false);
    }
    RepairedRecovers(SwapStopped(d, w, outcome, stop), w.id);
  }

  /**
   * From a consistent store with an empty journal, an overwrite is safe at every stop if and only if the
   * key has no row, the content is unchanged, or the journal covers the overwrite.
   */
  lemma CrashSafeIff(d: Disk, w: Write)
    requires Quiet(d, w)
    ensures (forall outcome, stop :: RecoversAlways(SwapStopped(d, w, outcome, stop)))
       <==> (w.key in d.rows ==> d.rows[w.key].body == w.staged || JournalCovers(d, w))
  {
    if w.key in d.rows ==> d.rows[w.key].body == w.staged || JournalCovers(d, w) {
      forall outcome: Outcome, stop: nat ensures RecoversAlways(SwapStopped(d, w, outcome, stop)) {
        EveryStopRecovers(d, w, outcome, stop);
      }
    } else {
      UncoveredStopFails(d, w);
    }
  }

  lemma UncoveredStopFails(d: Disk, w: Write)
    requires Quiet(d, w)
    requires w.key in d.rows && d.rows[w.key].body != w.staged && !JournalCovers(d, w)
    ensures !RecoversAlways(SwapStopped(d, w, Commits, 5))
  {
    var r := SwapStopped(d, w, Commits, 5);
    assert Lists([w.id], r);
    RecoverOfSingleton(r, [w.id], w.id);
    assert !Matches(Recover(r, [w.id]), w.key);
  }

  /** A stored copy of a row that has no ETag. */
  function BlankObject(a: Content): Disk {
    Disk(map["k" := a], map[], map["k" := Row(Some(Blank), a)], map[], map[])
  }

  /**
   * The empty ETag does not tell versions apart: a copy of one such object over another is journaled, but its record
   * reads as committed, so a stop after the rename leaves the new bytes under the old row.
   */
  lemma BlankOverBlankFails(a: Content, b: Content)
    requires a != b
    ensures var d, w := BlankObject(a), Write(1, "k", b, Some(Blank), b);
      && Quiet(d, w) && Journals(d, w) && CurrentEtag(d, "k") == w.etag
      && !RecoversAlways(SwapStopped(d, w, Commits, 5))
  {
    UncoveredStopFails(BlankObject(a), Write(1, "k", b, Some(Blank), b));
  }

  // ---------------------------------------------------------------- a stop that no restart follows

  lemma {:induction false} Listing(ids: set<SwapId>) returns (order: seq<SwapId>)
    ensures forall id :: id in ids <==> id in order
    decreases |ids|
  {
    order := [];
    if ids != {} {
      var id :| id in ids;
      var rest := Listing(ids - {id});
      order := rest + [id];
    }
  }

  lemma {:induction false} RecoverLeavesOthers(d: Disk, order: seq<SwapId>, id: SwapId)
    requires id !in order && id in d.intents && id in d.backups
    ensures var r := Recover(d, order);
            && r.rows == d.rows
            && id in r.intents && r.intents[id] == d.intents[id]
            && id in r.backups && r.backups[id] == d.backups[id]
    decreases |order|
  {
    if order != [] {
      RecoverLeavesOthers(RecoverOne(d, order[0], 3), order[1..], id);
    }
  }

  lemma {:induction false} RecoverLast(d: Disk, order: seq<SwapId>, id: SwapId)
    ensures Recover(d, order + [id]) == RecoverOne(Recover(d, order), id, 3)
    decreases |order|
  {
    if order == [] {
      assert order + [id] == [id];
      assert Recover(d, [id]) == Recover(RecoverOne(d, id, 3), [id][1..]);
    } else {
      assert (order + [id])[1..] == order[1..] + [id];
      RecoverLast(RecoverOne(d, order[0], 3), order[1..], id);
    }
  }

  /** A record whose backup is not the version the row describes, listed last, restores the wrong bytes. */
  lemma PoisonedRecordFails(r: Disk, others: seq<SwapId>, id: SwapId)
    requires Restorable(r, id) && id !in others && Lists(others + [id], r)
    requires r.rows[r.intents[id].key].body != r.backups[id]
    ensures !RecoversAlways(r)
  {
    RecoverLeavesOthers(r, others, id);
    RecoverLast(r, others, id);
    assert !Matches(Recover(r, others + [id]), r.intents[id].key);
  }

  lemma {:induction false} FreshId(ids: set<SwapId>) returns (id: SwapId)
    ensures forall i :: i in ids ==> i < id
    decreases |ids|
  {
    id := 0;
    if ids != {} {
      var i :| i in ids;
      var rest := FreshId(ids - {i});
      assert forall j :: j in ids ==> j == i || j in ids - {i};
      id := if rest > i then rest else i + 1;
    }
  }

  /** Recovery after this continuation restores agreement, whatever order the journal is listed in. */
  ghost predicate SafeAfter(d: Disk, acts: seq<Action>) {
    AllAllowed(d, acts) ==> RecoversAlways(Run(d, acts))
  }

  ghost predicate SafeForever(d: Disk) {
    forall acts: seq<Action> :: SafeAfter(d, acts)
  }

  lemma InvIsSafeForever(d: Disk)
    requires Inv(d)
    ensures SafeForever(d)
  {
    forall acts: seq<Action> ensures SafeAfter(d, acts) {
      if AllAllowed(d, acts) {
        forall order | Lists(order, Run(d, acts)) ensures AllMatch(Recover(Run(d, acts), order)) {
          CrashSafety(d, acts, order);
        }
      }
    }
  }

  /** Before its commit, the wrong backup is restored at once. */
  lemma UncommittedPoison(d: Disk, r: Disk, w: Write)
    requires Inv(d) && Fresh(d, w.id) && w.etag == Some(Digest(w.staged)) && !SafeToBackUp(d, w)
    requires r == Journaled(d, w, true) || r == Renamed(Journaled(d, w, true), w)
    ensures !SafeForever(r)
  {
    var others := Listing(d.intents.Keys);
    assert Restorable(r, w.id) && r.rows == d.rows;
    PoisonedRecordFails(r, others, w.id);
    assert !SafeAfter(r, []);
  }

  /** After its commit, the wrong backup is restored once the old content is written again. */
  lemma CommittedPoison(d: Disk, r: Disk, w: Write)
    requires Inv(d) && Fresh(d, w.id) && w.etag == Some(Digest(w.staged)) && !SafeToBackUp(d, w)
    requires r == Committed(Journaled(d, w, true), w) || r == Installed(Journaled(d, w, true), w)
    ensures !SafeForever(r)
  {
    var body := d.rows[w.key].body;
    var id := FreshId(r.intents.Keys + r.backups.Keys);
    var again := Overwrite(Write(id, w.key, body, Some(Digest(body)), body), Commits, 9);
    var s := Do(r, again);
    assert s == Installed(r, again.w);
    assert s.intents == r.intents && s.backups == r.backups && w.id in r.intents && w.id in r.backups;
    assert r.intents[w.id] == Intent(w.key, Digest(w.staged), Some(Digest(body)));
    assert Restorable(s, w.id) && s.rows[w.key].body == body && s.backups[w.id] == d.blobs[w.key];
    var others := Listing(s.intents.Keys - {w.id});
    PoisonedRecordFails(s, others, w.id);
    assert [again][1..] == [] && Run(r, [again]) == s && AllAllowed(s, []);
    assert Fresh(r, id) && AllAllowed(r, [again]);
    assert !SafeAfter(r, [again]);
  }

  /**
   * With any other records in the journal, an overwrite stopped anywhere is safe through every continuation and
   * every listing order if and only if it leaves no record, or its backup is the version the row describes, or
   * the content does not change. The backup is wrong when an earlier overwrite of the key was stopped after its
   * rename and no restart followed.
   */
  lemma StopIsSafeIff(d: Disk, w: Write, outcome: Outcome, stop: nat)
    requires Inv(d) && Fresh(d, w.id) && w.etag == Some(Digest(w.staged))
    ensures SafeForever(SwapStopped(d, w, outcome, stop)) <==> SafeToBackUp(d, w) || !LeavesRecord(outcome, stop)
  {
    var r := SwapStopped(d, w, outcome, stop);
    if SafeToBackUp(d, w) || !LeavesRecord(outcome, stop) {
      SwapKeepsInv(d, w, outcome, stop);
      InvIsSafeForever(r);
    } else if stop <= 5 || outcome.RollbackFails? {
      UncommittedPoison(d, r, w);
    } else {
      CommittedPoison(d, r, w);
    }
  }

  /** One object "k" with content `a`, and an overwrite of it with `c` journaled as `id`. */
  function OneObject(a: Content): Disk {
    Disk(map["k" := a], map[], map["k" := Row(Some(Digest(a)), a)], map[], map[])
  }

  function OverwriteOf(id: SwapId, c: Content): Write {
    Write(id, "k", c, Some(Digest(c)), c)
  }

  /** Both overwrites of "k" stopped after their rename. */
  function TwiceStopped(a: Content, b: Content, c: Content): Disk {
    SwapStopped(SwapStopped(OneObject(a), OverwriteOf(1, b), Commits, 5), OverwriteOf(2, c), Commits, 5)
  }

  lemma TwiceStoppedDisk(a: Content, b: Content, c: Content)
    ensures TwiceStopped(a, b, c) ==
      Disk(map["k" := c], map[], map["k" := Row(Some(Digest(a)), a)], map[1 := a, 2 := b],
           map[1 := Intent("k", Digest(b), Some(Digest(a))), 2 := Intent("k", Digest(c), Some(Digest(a)))])
  {
    var once := SwapStopped(OneObject(a), OverwriteOf(1, b), Commits, 5);
    assert once.blobs == map["k" := b] && once.backups == map[1 := a];
    assert once.intents == map[1 := Intent("k", Digest(b), Some(Digest(a)))];
    var twice := TwiceStopped(a, b, c);
    assert twice.blobs == map["k" := c] && twice.backups == map[1 := a, 2 := b];
  }

  /** The property fails: listed in one order the journal brings A back, in the other it leaves B under A's row. */
  lemma TwoStopsBreakAgreement(a: Content, b: Content, c: Content)
    requires a != b && b != c && a != c
    ensures Visible(Recover(TwiceStopped(a, b, c), [2, 1]), "k") == Some(a)
    ensures Visible(Recover(TwiceStopped(a, b, c), [1, 2]), "k") == Some(b)
    ensures Recover(TwiceStopped(a, b, c), [1, 2]).rows == OneObject(a).rows
  {
    var d := TwiceStopped(a, b, c);
    TwiceStoppedDisk(a, b, c);
    assert [1] + [2] == [1, 2] && [2] + [1] == [2, 1];
    RecoverLast(d, [1], 2);
    RecoverLast(d, [2], 1);
    assert Recover(d, [1]) == RecoverOne(d, 1, 3);
    assert Recover(d, [2]) == RecoverOne(d, 2, 3);
  }

  // ---------------------------------------------------------------- the engine

  lemma AddThenDrop<V>(m: map<SwapId, V>, id: SwapId, v: V)
    requires id !in m
    ensures m - {id} == m && m[id := v] - {id} == m
  {
  }

  lemma AddTwice<V>(m: map<SwapId, V>, id: SwapId, first: V, second: V)
    ensures m[id := first][id := second] == m[id := second]
  {
  }

  /** Removing the overwrite's journal files leads back through the states that made them. */
  lemma DropsBackup(d: Disk, w: Write, finished: bool)
    requires Fresh(d, w.id)
    ensures DropBackup(BackedUp(d, w, finished), w.id) == d
    ensures DropBackup(Journaled(d, w, true), w.id) == Recorded(d, w, true)
  {
    AddThenDrop(d.backups, w.id, w.junk);
    if w.key in d.blobs {
      AddThenDrop(d.backups, w.id, d.blobs[w.key]);
    }
  }

  lemma DropsIntent(d: Disk, w: Write, finished: bool)
    requires Fresh(d, w.id)
    ensures DropIntent(Journaled(d, w, finished), w.id) == BackedUp(d, w, true)
    ensures DropIntent(Recorded(d, w, finished), w.id) == d
  {
    AddThenDrop(d.intents, w.id, Torn);
    if w.etag.Some? {
      AddThenDrop(d.intents, w.id, Intent(w.key, w.etag.value, CurrentEtag(d, w.key)));
    }
  }

  lemma UndoesRename(d: Disk, w: Write)
    requires Fresh(d, w.id)
    ensures var r := Renamed(Journaled(d, w, true), w);
            Recorded(d, w, true) ==
            if w.id in r.backups then r.(blobs := r.blobs[w.key := r.backups[w.id]], backups := r.backups - {w.id})
            else r.(blobs := r.blobs - {w.key})
  {
    DropsBackup(d, w, true);
    var r := Renamed(Journaled(d, w, true), w);
    if w.key in d.blobs {
      assert r.blobs[w.key := d.blobs[w.key]] == d.blobs;
    } else {
      assert r.blobs - {w.key} == d.blobs;
    }
  }

  /** Backup and record leave objects and rows alone. */
  lemma JournalKeepsObjects(d: Disk, w: Write, finished: bool)
    ensures SameObjects(d, BackedUp(d, w, finished)) && SameObjects(d, Recorded(d, w, finished))
    ensures SameObjects(d, Journaled(d, w, finished))
  {
  }

  predicate SameObjects(d: Disk, r: Disk) {
    r.blobs == d.blobs && r.fallback == d.fallback && r.rows == d.rows
  }

  /** The key's new version is stored and described, whatever was there before; no other key changed. */
  predicate StoresNew(d: Disk, w: Write, r: Disk) {
    && r.rows == d.rows[w.key := Row(Some(if w.etag.Some? then w.etag.value else Blank), w.staged)]
    && r.blobs == d.blobs[w.key := w.staged]
    && (r.fallback == d.fallback || r.fallback == d.fallback - {w.key})
  }

  lemma CommitStoresNew(d: Disk, x: Disk, w: Write)
    requires SameObjects(d, x)
    ensures StoresNew(d, w, Committed(x, w)) && StoresNew(d, w, Installed(x, w))
  {
  }

  /** From the commit on a caller sees the new object. */
  lemma CommittedOutcome(d: Disk, w: Write, outcome: Outcome, stop: nat)
    requires (outcome.Commits? || outcome.Leaves?) && stop > 5
    ensures StoresNew(d, w, SwapStopped(d, w, outcome, stop))
    ensures outcome.Commits? && stop >= 9 ==> var r := SwapStopped(d, w, outcome, stop);
      r.fallback == d.fallback - {w.key} && r.backups == d.backups && r.intents == d.intents
  {
    JournalKeepsObjects(d, w, true);
    CommitStoresNew(d, d, w);
    CommitStoresNew(d, BackedUp(d, w, true), w);
    CommitStoresNew(d, Recorded(d, w, true), w);
    CommitStoresNew(d, Journaled(d, w, true), w);
  }

  /** Until then, and after a failure, the old row; and the old blob unless the rename happened and nothing after it. */
  lemma UncommittedOutcome(d: Disk, w: Write, outcome: Outcome, stop: nat)
    requires !((outcome.Commits? || outcome.Leaves?) && stop > 5)
    ensures var r := SwapStopped(d, w, outcome, stop);
      && r.rows == d.rows && r.fallback == d.fallback
      && (r.blobs == d.blobs || (r.blobs == d.blobs[w.key := w.staged] && (stop == 5 || outcome.RollbackFails?)))
      && (!outcome.RollbackFails? && stop >= 9 ==> r == d)
  {
    JournalKeepsObjects(d, w, true);
    JournalKeepsObjects(d, w, false);
  }

  class Engine {
    var blobs: map<Key, Content>
    var fallback: map<Key, Content>
    var rows: map<Key, Row>
    var backups: map<SwapId, Content>
    var intents: map<SwapId, Intent>

    ghost function View(): Disk
      reads this
    {
      Disk(blobs, fallback, rows, backups, intents)
    }

    /** Keep the current blob reachable; `saved` when the next step may follow. */
    method BackUp(w: Write, outcome: Outcome, stop: nat) returns (saved: bool)
      requires w.id !in backups && w.id !in intents
      modifies this`backups
      ensures saved <==> stop > 2 && !outcome.BackupFails?
      ensures View() == if saved then BackedUp(old(View()), w, true) else SwapStopped(old(View()), w, outcome, stop)
    {
      DropsBackup(View(), w, false);
      saved := false;
      if stop == 0 { return; }
      if w.key in blobs {
        backups := backups[w.id := w.junk];
      }
      if stop == 1 { return; }
      if outcome.BackupFails? {
        backups := backups - {w.id};
        return;
      }
      if w.key in blobs {
        AddTwice(old(backups), w.id, w.junk, blobs[w.key]);
        backups := backups[w.id := blobs[w.key]];
      }
      saved := stop > 2;
    }

    /** Journal the overwrite of a backed-up blob; `ready` when the rename may follow. */
    method WriteIntent(w: Write, outcome: Outcome, stop: nat, ghost d: Disk) returns (ready: bool)
      requires stop > 2 && !outcome.BackupFails? && Fresh(d, w.id) && View() == BackedUp(d, w, true)
      modifies this`backups, this`intents
      ensures ready <==> stop > 4 && !outcome.IntentFails?
      ensures View() == if stop == 3 then Journaled(d, w, false)
                        else if !outcome.IntentFails? then Journaled(d, w, true)
                        else if stop == 4 then BackedUp(d, w, true) else d
    {
      ready := false;
      var existing := if w.key in rows then rows[w.key].etag else None;
      var journaled := w.key in blobs && w.etag.Some?;
      if journaled {
        intents := intents[w.id := Torn];
      }
      assert View() == Journaled(d, w, false);
      if stop == 3 { return; }
      if outcome.IntentFails? {
        DropsIntent(d, w, false);
        intents := intents - {w.id};
        assert View() == BackedUp(d, w, true);
        if stop == 4 { return; }
        DropsBackup(d, w, true);
        backups := backups - {w.id};
        return;
      }
      if journaled {
        AddTwice(d.intents, w.id, Torn, Intent(w.key, w.etag.value, existing));
        intents := intents[w.id := Intent(w.key, w.etag.value, existing)];
      }
      assert View() == Journaled(d, w, true);
      ready := stop > 4;
    }

    /** Put the previous blob back after a failed metadata commit; if that fails, the record stays for a restart. */
    method RollBack(w: Write, outcome: Outcome, stop: nat, ghost d: Disk)
      requires outcome.MetadataFails? || outcome.RollbackFails?
      requires stop > 5 && Fresh(d, w.id) && View() == Renamed(Journaled(d, w, true), w)
      modifies this`blobs, this`backups, this`intents
      ensures View() == SwapStopped(d, w, outcome, stop)
    {
      if outcome.RollbackFails? { return; }
      UndoesRename(d, w);
      DropsIntent(d, w, true);
      if w.id in backups {
        blobs, backups := blobs[w.key := backups[w.id]], backups - {w.id};
      } else {
        blobs := blobs - {w.key};
      }
      assert View() == Recorded(d, w, true);
      if stop == 6 { return; }
      intents := intents - {w.id};
    }

    /** Drop what the committed overwrite left behind: the older filename, the backup, the record. Failures are ignored. */
    method CleanUp(w: Write, outcome: Outcome, stop: nat, ghost d: Disk)
      requires outcome.Commits? || (outcome.Leaves? && stop >= 9)
      requires stop > 5 && Fresh(d, w.id) && View() == Committed(Journaled(d, w, true), w)
      modifies this`fallback, this`backups, this`intents
      ensures View() == SwapStopped(d, w, outcome, stop)
    {
      DropsBackup(d, w, true);
      DropsIntent(d, w, true);
      if stop == 6 { return; }
      if !(outcome.Leaves? && outcome.older) { fallback := fallback - {w.key}; }
      if stop == 7 { return; }
      if !(outcome.Leaves? && outcome.backup) { backups := backups - {w.id}; }
      if stop == 8 { return; }
      if !(outcome.Leaves? && outcome.record) { intents := intents - {w.id}; }
    }

    /** The steps in the order the code takes them, cut after `stop` of them. `outcome` says which one fails, if any. */
    method TakeSteps(w: Write, outcome: Outcome, stop: nat) returns (committed: bool)
      requires w.id !in backups && w.id !in intents
      modifies this
      ensures View() == SwapStopped(old(View()), w, outcome, stop)
      ensures committed <==> (outcome.Commits? || outcome.Leaves?) && stop > 5
    {
      ghost var d := View();
      committed := false;
      var saved := BackUp(w, outcome, stop);
      if !saved { return; }
      var ready := WriteIntent(w, outcome, stop, d);
      if !ready { return; }
      if outcome.RenameFails? {
        DropsBackup(d, w, true);
        DropsIntent(d, w, true);
        backups := backups - {w.id};
        assert View() == Recorded(d, w, true);
        if stop == 5 { return; }
        intents := intents - {w.id};
        return;
      }
      blobs := blobs[w.key := w.staged];
      if stop == 5 { return; }
      if outcome.MetadataFails? || outcome.RollbackFails? {
        RollBack(w, outcome, stop, d);
        return;
      }
      rows := rows[w.key := Row(Some(if w.etag.Some? then w.etag.value else Blank), w.staged)];
      committed := true;
      CleanUp(w, if outcome.Leaves? && stop < 9 then Commits else outcome, stop, d);
    }

    /**
     * `swap_in_staged`. A committed overwrite has its blob and its row, an uncommitted one has changed no row, and
     * neither touches another key.
     */
    method SwapInStaged(w: Write, outcome: Outcome, stop: nat) returns (committed: bool)
      requires w.id !in backups && w.id !in intents
      modifies this
      ensures View() == SwapStopped(old(View()), w, outcome, stop)
      ensures committed <==> (outcome.Commits? || outcome.Leaves?) && stop > 5
      ensures committed ==> w.key in blobs && blobs[w.key] == w.staged
      ensures committed ==> w.key in rows && rows[w.key].body == w.staged
      ensures committed ==> rows[w.key].etag == Some(if w.etag.Some? then w.etag.value else Blank)
      ensures !committed ==> rows == old(rows)
      ensures rows - {w.key} == old(rows) - {w.key}
      ensures blobs - {w.key} == old(blobs) - {w.key} && fallback - {w.key} == old(fallback) - {w.key}
      ensures outcome.Commits? && stop >= 9 ==>
        w.key !in fallback && backups == old(backups) && intents == old(intents)
      ensures !committed && !outcome.RollbackFails? && stop >= 9 ==> View() == old(View())
    {
      ghost var d := View();
      committed := TakeSteps(w, outcome, stop);
      if committed { CommittedOutcome(d, w, outcome, stop); } else { UncommittedOutcome(d, w, outcome, stop); }
    }

    /** `recover_interrupted_swaps` over the `.swap` files in the order the directory lists them. */
    method RecoverInterruptedSwaps(order: seq<SwapId>) returns (restored: nat)
      modifies this
      ensures View() == Recover(old(View()), order)
      ensures rows == old(rows) && fallback == old(fallback)
      ensures intents.Keys == old(intents).Keys - IdsOf(order)
      ensures backups.Keys == old(backups).Keys - old(intents).Keys * IdsOf(order)
      ensures (forall i, j :: 0 <= i < j < |order| ==> order[i] != order[j]) ==>
        restored == |RestorableAmong(old(View()), order)|
    {
      RecoverClears(View(), order);
      if forall i, j :: 0 <= i < j < |order| ==> order[i] != order[j] { RestorationsCount(View(), order); }
      restored := 0;
      var i := 0;
      ghost var start := View();
      while i < |order|
        invariant 0 <= i <= |order|
        invariant Recover(View(), order[i..]) == Recover(start, order)
        invariant restored + Restorations(View(), order[i..]) == Restorations(start, order)
      {
        var id := order[i];
        ghost var before := View();
        if id in intents {
          var intent := intents[id];
          if intent.Intent? {
            var current := if intent.key in rows then rows[intent.key].etag else None;
            var isCommitted := current == Some(intent.newEtag);
            var stillPrevious := intent.oldEtag.Some? && current == intent.oldEtag;
            if !isCommitted && stillPrevious && id in backups {
              blobs, backups := blobs[intent.key := backups[id]], backups - {id};
              restored := restored + 1;
            }
          }
          backups := backups - {id};
          intents := intents - {id};
        }
        assert View() == RecoverOne(before, id, 3);
        assert order[i..][0] == id && order[i..][1..] == order[i + 1..];
        i := i + 1;
      }
    }
  }
}
