/**
 * Collection of released dedup blocks beside uploads that share them (`blocks.rs`). Every statement and every
 * section under a block's file lock is one step; steps of uploads, copies, releases and any number of
 * collection passes interleave freely, and the clock moves between any two of them.
 */
module BlockGc {
  import opened Common
  import opened Blocks

  type Id = nat

  /** An upload that stored or shared a block at `stamp` (the file's new mtime) and has not counted it yet. */
  datatype Upload = Upload(entry: Entry, stamp: nat)

  /** A pass: its cutoff second, the blocks it listed and has not looked at, those whose file it removed. */
  datatype Pass = Pass(cutoff: int, listed: set<Hash>, dropped: set<Hash>)

  datatype World = World(
    now: nat,                    // nanoseconds
    rows: map<Hash, Row>,
    files: map<Hash, nat>,       // block files and their mtimes
    uploads: map<Id, Upload>,
    counted: multiset<Hash>,     // references counted and not yet released
    passes: map<Id, Pass>
  )

  datatype Step =
    | Tick(nanos: nat)
    | Share(upload: Id, entry: Entry, stamp: nat)
    | Count(upload: Id)
    | GiveUp(upload: Id)
    | Copy(entry: Entry)              // a copy of a blob that holds the block, under the source's key lock
    | Release(entry: Entry, at: nat)  // `at`: the second `dec_refs` started in
    | Start(pass: Id)
    | List(pass: Id, hashes: set<Hash>)
    | CheckFile(pass: Id, hash: Hash)
    | KeepFile(pass: Id, hash: Hash)  // the file could not be removed
    | DropRow(pass: Id, hash: Hash)

  predicate Enabled(w: World, step: Step) {
    match step
    case Tick(_) => true
    case Share(u, e, stamp) => u !in w.uploads && stamp <= w.now && (e.hash in w.files ==> w.files[e.hash] <= stamp)
    case Count(u) => u in w.uploads
    case GiveUp(u) => u in w.uploads
    case Copy(e) => e.hash in w.counted
    case Release(e, at) => e.hash in w.counted && at <= Seconds(w.now)
    case Start(p) => p !in w.passes
    case List(p, hs) => p in w.passes && w.passes[p].listed == {} && w.passes[p].dropped == {}
                        && forall h :: h in hs ==> Collectable(w.rows, h, w.passes[p].cutoff)
    case CheckFile(p, h) => p in w.passes && h in w.passes[p].listed
    case KeepFile(p, h) => p in w.passes && h in w.passes[p].listed
    case DropRow(p, h) => p in w.passes && h in w.passes[p].dropped
  }

  function Checked(w: World, p: Id, h: Hash): World
    requires p in w.passes
  {
    var pass := w.passes[p].(listed := w.passes[p].listed - {h});
    if SharedSince(w.files, h, pass.cutoff) then w.(passes := w.passes[p := pass])
    else w.(files := w.files - {h}, passes := w.passes[p := pass.(dropped := pass.dropped + {h})])
  }

  function Next(grace: nat, w: World, step: Step): World
    requires Enabled(w, step)
  {
    match step
    case Tick(d) => w.(now := w.now + d)
    case Share(u, e, stamp) =>
      w.(files := w.files[e.hash := stamp], uploads := w.uploads[u := Upload(e, stamp)])
    case Count(u) =>
      var e := w.uploads[u].entry;
      w.(rows := Counted(w.rows, e), counted := w.counted + multiset{e.hash}, uploads := w.uploads - {u})
    case GiveUp(u) => w.(uploads := w.uploads - {u})
    case Copy(e) => w.(rows := Counted(w.rows, e), counted := w.counted + multiset{e.hash})
    case Release(e, at) => w.(rows := Released(w.rows, e, at), counted := w.counted - multiset{e.hash})
    case Start(p) => w.(passes := w.passes[p := Pass(Seconds(w.now) - grace, {}, {})])
    case List(p, hs) => w.(passes := w.passes[p := w.passes[p].(listed := hs)])
    case CheckFile(p, h) => Checked(w, p, h)
    case KeepFile(p, h) => w.(passes := w.passes[p := w.passes[p].(listed := w.passes[p].listed - {h})])
    case DropRow(p, h) =>
      w.(rows := RowDropped(w.rows, h),
         passes := w.passes[p := w.passes[p].(dropped := w.passes[p].dropped - {h})])
  }

  // ---------------------------------------------------------------- the invariant

  /** No pass that has started by now can have a cutoff at or after the stamp. */
  predicate Timely(grace: nat, now: nat, stamp: nat) {
    Seconds(now) * NANOS < stamp + grace * NANOS
  }

  ghost predicate RowsCount(w: World) {
    forall h :: Refs(w.rows, h) == w.counted[h]
  }

  /** The safety property: a counted reference has its block, and so has an upload that may still count one. */
  ghost predicate BlocksPresent(grace: nat, w: World) {
    && (forall h :: h in w.counted ==> h in w.files)
    && (forall u :: u in w.uploads && Timely(grace, w.now, w.uploads[u].stamp) ==>
          w.uploads[u].entry.hash in w.files)
  }

  ghost predicate Stamped(grace: nat, w: World) {
    forall u :: u in w.uploads && Timely(grace, w.now, w.uploads[u].stamp) ==>
      w.uploads[u].entry.hash in w.files && w.files[w.uploads[u].entry.hash] >= w.uploads[u].stamp
  }

  /** A block counted again after a pass listed it was shared after that pass's cutoff. */
  ghost predicate PassesSound(grace: nat, w: World) {
    forall p :: p in w.passes ==> PassSound(grace, w, w.passes[p])
  }

  ghost predicate PassSound(grace: nat, w: World, pass: Pass) {
    && pass.cutoff <= Seconds(w.now) - grace
    && (pass.listed != {} ==> pass.cutoff > 0)
    && forall h :: h in pass.listed && h in w.counted ==> SharedSince(w.files, h, pass.cutoff)
  }

  ghost predicate Inv(grace: nat, w: World) {
    RowsCount(w) && BlocksPresent(grace, w) && Stamped(grace, w) && PassesSound(grace, w)
  }

  lemma SecondsMonotone(a: nat, b: nat)
    requires a <= b
    ensures Seconds(a) <= Seconds(b)
  {
  }

  lemma TimelyIsAfterCutoff(grace: nat, now: nat, stamp: nat, cutoff: int)
    requires Timely(grace, now, stamp) && 0 < cutoff <= Seconds(now) - grace
    ensures CutoffTime(cutoff) < stamp
  {
    assert cutoff * NANOS <= (Seconds(now) - grace) * NANOS;
  }

  lemma TickKeepsInv(grace: nat, w: World, d: nat)
    requires Inv(grace, w)
    ensures Inv(grace, w.(now := w.now + d))
  {
    var r := w.(now := w.now + d);
    SecondsMonotone(w.now, r.now);
    assert forall s: nat :: Timely(grace, r.now, s) ==> Timely(grace, w.now, s);
    forall p | p in r.passes ensures PassSound(grace, r, r.passes[p]) {
      assert PassSound(grace, w, w.passes[p]);
    }
  }

  lemma ShareKeepsInv(grace: nat, w: World, u: Id, e: Entry, stamp: nat)
    requires Inv(grace, w) && Enabled(w, Share(u, e, stamp))
    ensures Inv(grace, Next(grace, w, Share(u, e, stamp)))
  {
    var r := Next(grace, w, Share(u, e, stamp));
    forall p | p in r.passes ensures PassSound(grace, r, r.passes[p]) {
      assert PassSound(grace, w, w.passes[p]);
    }
  }

  lemma CountKeepsInv(grace: nat, w: World, u: Id)
    requires Inv(grace, w) && Enabled(w, Count(u)) && Timely(grace, w.now, w.uploads[u].stamp)
    ensures Inv(grace, Next(grace, w, Count(u)))
  {
    var r := Next(grace, w, Count(u));
    forall p | p in r.passes ensures PassSound(grace, r, r.passes[p]) {
      assert PassSound(grace, w, w.passes[p]);
      if w.passes[p].listed != {} {
        TimelyIsAfterCutoff(grace, w.now, w.uploads[u].stamp, w.passes[p].cutoff);
      }
    }
  }

  lemma ReferenceKeepsInv(grace: nat, w: World, step: Step)
    requires Inv(grace, w) && Enabled(w, step) && (step.Copy? || step.Release? || step.GiveUp?)
    ensures Inv(grace, Next(grace, w, step))
  {
    var r := Next(grace, w, step);
    forall p | p in r.passes ensures PassSound(grace, r, r.passes[p]) {
      assert PassSound(grace, w, w.passes[p]);
    }
  }

  lemma ListKeepsInv(grace: nat, w: World, p: Id, hs: set<Hash>)
    requires Inv(grace, w) && Enabled(w, List(p, hs))
    ensures Inv(grace, Next(grace, w, List(p, hs)))
  {
    var r := Next(grace, w, List(p, hs));
    forall q | q in r.passes ensures PassSound(grace, r, r.passes[q]) {
      assert PassSound(grace, w, w.passes[q]);
      if q == p && hs != {} {
        var h :| h in hs;
        assert Collectable(w.rows, h, w.passes[p].cutoff);
      }
      forall h | h in r.passes[q].listed && h in r.counted ensures SharedSince(r.files, h, r.passes[q].cutoff) {
        assert Refs(w.rows, h) == w.counted[h];
      }
    }
  }

  lemma CheckFileKeepsInv(grace: nat, w: World, p: Id, h: Hash)
    requires Inv(grace, w) && Enabled(w, CheckFile(p, h))
    ensures Inv(grace, Checked(w, p, h))
  {
    var r := Checked(w, p, h);
    var cutoff := w.passes[p].cutoff;
    assert PassSound(grace, w, w.passes[p]);
    forall u | u in w.uploads && Timely(grace, w.now, w.uploads[u].stamp)
      ensures CutoffTime(cutoff) < w.uploads[u].stamp
    {
      TimelyIsAfterCutoff(grace, w.now, w.uploads[u].stamp, cutoff);
    }
    forall q | q in r.passes ensures PassSound(grace, r, r.passes[q]) {
      assert PassSound(grace, w, w.passes[q]);
    }
  }

  lemma PassKeepsInv(grace: nat, w: World, step: Step)
    requires Inv(grace, w) && Enabled(w, step) && (step.Start? || step.KeepFile? || step.DropRow?)
    ensures Inv(grace, Next(grace, w, step))
  {
    var r := Next(grace, w, step);
    forall p | p in r.passes ensures PassSound(grace, r, r.passes[p]) {
      if p in w.passes { assert PassSound(grace, w, w.passes[p]); }
    }
  }

  /** The one demand on uploads: a block is counted while no started pass can have a cutoff past its stamp. */
  predicate InTime(grace: nat, w: World, step: Step)
    requires Enabled(w, step)
  {
    step.Count? ==> Timely(grace, w.now, w.uploads[step.upload].stamp)
  }

  lemma StepKeepsInv(grace: nat, w: World, step: Step)
    requires Inv(grace, w) && Enabled(w, step) && InTime(grace, w, step)
    ensures Inv(grace, Next(grace, w, step))
  {
    match step
    case Tick(d) => TickKeepsInv(grace, w, d);
    case Share(u, e, stamp) => ShareKeepsInv(grace, w, u, e, stamp);
    case Count(u) => CountKeepsInv(grace, w, u);
    case List(p, hs) => ListKeepsInv(grace, w, p, hs);
    case CheckFile(p, h) => CheckFileKeepsInv(grace, w, p, h);
    case Start(_) => PassKeepsInv(grace, w, step);
    case KeepFile(_, _) => PassKeepsInv(grace, w, step);
    case DropRow(_, _) => PassKeepsInv(grace, w, step);
    case GiveUp(_) => ReferenceKeepsInv(grace, w, step);
    case Copy(_) => ReferenceKeepsInv(grace, w, step);
    case Release(_, _) => ReferenceKeepsInv(grace, w, step);
  }

  // ---------------------------------------------------------------- runs

  predicate Runnable(grace: nat, w: World, steps: seq<Step>)
    decreases |steps|
  {
    steps == [] || (Enabled(w, steps[0]) && Runnable(grace, Next(grace, w, steps[0]), steps[1..]))
  }

  function Run(grace: nat, w: World, steps: seq<Step>): World
    requires Runnable(grace, w, steps)
    decreases |steps|
  {
    if steps == [] then w else Run(grace, Next(grace, w, steps[0]), steps[1..])
  }

  predicate AllInTime(grace: nat, w: World, steps: seq<Step>)
    requires Runnable(grace, w, steps)
    decreases |steps|
  {
    steps == [] || (InTime(grace, w, steps[0]) && AllInTime(grace, Next(grace, w, steps[0]), steps[1..]))
  }

  /**
   * In every interleaving where uploads count in time, no counted block and no block an upload may still count
   * loses its file, and every count is exact.
   */
  lemma {:induction false} CollectionIsSafe(grace: nat, w: World, steps: seq<Step>)
    requires Inv(grace, w) && Runnable(grace, w, steps) && AllInTime(grace, w, steps)
    ensures BlocksPresent(grace, Run(grace, w, steps)) && RowsCount(Run(grace, w, steps))
    decreases |steps|
  {
    if steps != [] {
      StepKeepsInv(grace, w, steps[0]);
      CollectionIsSafe(grace, Next(grace, w, steps[0]), steps[1..]);
    }
  }

  /** Counting less than the grace after the stamp is always in time. */
  lemma WithinGraceIsTimely(grace: nat, now: nat, stamp: nat)
    requires now < stamp + grace * NANOS
    ensures Timely(grace, now, stamp)
  {
    assert Seconds(now) * NANOS <= now;
  }

  // ---------------------------------------------------------------- the bound is exact

  /** A block nothing has referenced since the epoch, with its file, as an earlier release leaves it. */
  function Unreferenced(now: nat, h: Hash, size: nat): World {
    World(now, map[h := Row(size, 0, Some(0))], map[h := now], map[], multiset{}, map[])
  }

  /** No interleaving in which the other uploads are in time loses the block this upload counts at `now`. */
  ghost predicate SafeToCount(grace: nat, stamp: nat, now: nat) {
    forall w: World, steps: seq<Step>, u: Id ::
      Inv(grace, w) && Runnable(grace, w, steps + [Count(u)]) && Pending(grace, w, steps, u, stamp, now) ==>
        BlocksPresent(grace, Run(grace, w, steps + [Count(u)]))
  }

  ghost predicate Pending(grace: nat, w: World, steps: seq<Step>, u: Id, stamp: nat, now: nat) {
    && Runnable(grace, w, steps) && AllInTime(grace, w, steps)
    && var r := Run(grace, w, steps);
       r.now == now && u in r.uploads && r.uploads[u].stamp == stamp
  }

  lemma {:induction false} RunThen(grace: nat, w: World, steps: seq<Step>, last: Step)
    requires Runnable(grace, w, steps)
    ensures Runnable(grace, w, steps + [last]) <==> Enabled(Run(grace, w, steps), last)
    ensures Enabled(Run(grace, w, steps), last) ==>
      Run(grace, w, steps + [last]) == Next(grace, Run(grace, w, steps), last)
    decreases |steps|
  {
    if steps == [] {
      assert [last][1..] == [];
    } else {
      assert (steps + [last])[1..] == steps[1..] + [last];
      RunThen(grace, Next(grace, w, steps[0]), steps[1..], last);
    }
  }

  lemma {:induction false} RunKeepsInv(grace: nat, w: World, steps: seq<Step>)
    requires Inv(grace, w) && Runnable(grace, w, steps) && AllInTime(grace, w, steps)
    ensures Inv(grace, Run(grace, w, steps))
    decreases |steps|
  {
    if steps != [] {
      StepKeepsInv(grace, w, steps[0]);
      RunKeepsInv(grace, Next(grace, w, steps[0]), steps[1..]);
    }
  }

  /** The block is shared at `stamp`; a pass that starts `wait` later finds its row and then its file. */
  function LateCount(e: Entry, stamp: nat, wait: nat): seq<Step> {
    [Share(0, e, stamp), Tick(wait), Start(0), List(0, {e.hash}), CheckFile(0, e.hash)]
  }

  function LateWorld(e: Entry, stamp: nat, now: nat, files: map<Hash, nat>, passes: map<Id, Pass>): World {
    World(now, map[e.hash := Row(e.size, 0, Some(0))], files, map[0 := Upload(e, stamp)], multiset{}, passes)
  }

  lemma Prepend(grace: nat, w: World, w1: World, a: Step, rest: seq<Step>)
    requires Enabled(w, a) && Next(grace, w, a) == w1 && !a.Count?
    requires Runnable(grace, w1, rest) && AllInTime(grace, w1, rest)
    ensures Runnable(grace, w, [a] + rest)
    ensures Run(grace, w, [a] + rest) == Run(grace, w1, rest) && AllInTime(grace, w, [a] + rest)
  {
    assert ([a] + rest)[1..] == rest;
  }

  lemma LateCountPending(grace: nat, e: Entry, stamp: nat, now: nat)
    requires stamp <= now && !Timely(grace, now, stamp) && Seconds(now) > grace
    ensures Pending(grace, Unreferenced(stamp, e.hash, e.size), LateCount(e, stamp, now - stamp), 0, stamp, now)
    ensures var r := Run(grace, Unreferenced(stamp, e.hash, e.size), LateCount(e, stamp, now - stamp));
      e.hash !in r.files && r.uploads == map[0 := Upload(e, stamp)]
  {
    var cutoff := Seconds(now) - grace;
    var h, wait := e.hash, now - stamp;
    var w := Unreferenced(stamp, h, e.size);
    var w1 := LateWorld(e, stamp, stamp, map[h := stamp], map[]);
    var w2 := LateWorld(e, stamp, now, map[h := stamp], map[]);
    var w3 := LateWorld(e, stamp, now, map[h := stamp], map[0 := Pass(cutoff, {}, {})]);
    var w4 := LateWorld(e, stamp, now, map[h := stamp], map[0 := Pass(cutoff, {h}, {})]);
    var w5 := LateWorld(e, stamp, now, map[], map[0 := Pass(cutoff, {}, {h})]);
    assert Next(grace, w, Share(0, e, stamp)) == w1;
    assert Next(grace, w1, Tick(wait)) == w2;
    assert Next(grace, w2, Start(0)) == w3;
    assert Next(grace, w3, List(0, {h})) == w4;
    assert Next(grace, w4, CheckFile(0, h)) == w5 by {
      assert !SharedSince(w4.files, h, cutoff);
      assert w4.files - {h} == map[] && {h} - {h} == {} && {} + {h} == {h};
    }
    Prepend(grace, w4, w5, CheckFile(0, h), []);
    Prepend(grace, w3, w4, List(0, {h}), [CheckFile(0, h)]);
    Prepend(grace, w2, w3, Start(0), [List(0, {h}), CheckFile(0, h)]);
    Prepend(grace, w1, w2, Tick(wait), [Start(0), List(0, {h}), CheckFile(0, h)]);
    Prepend(grace, w, w1, Share(0, e, stamp), [Tick(wait), Start(0), List(0, {h}), CheckFile(0, h)]);
  }

  /** A late upload counts a block whose file is gone. */
  lemma LateCountLosesBlock(grace: nat, e: Entry, stamp: nat, now: nat)
    requires stamp <= now && !Timely(grace, now, stamp) && Seconds(now) > grace
    ensures var w, steps := Unreferenced(stamp, e.hash, e.size), LateCount(e, stamp, now - stamp) + [Count(0)];
      Inv(grace, w) && Runnable(grace, w, steps) && !BlocksPresent(grace, Run(grace, w, steps))
  {
    var w, steps := Unreferenced(stamp, e.hash, e.size), LateCount(e, stamp, now - stamp);
    LateCountPending(grace, e, stamp, now);
    RunThen(grace, w, steps, Count(0));
    assert e.hash in Run(grace, w, steps + [Count(0)]).counted;
  }

  /** An upload may count a block it stamped at `stamp` exactly while `Timely` says so. */
  lemma SafeToCountIff(grace: nat, stamp: nat, now: nat)
    requires stamp <= now && Seconds(now) > grace
    ensures SafeToCount(grace, stamp, now) <==> Timely(grace, now, stamp)
  {
    if Timely(grace, now, stamp) {
      forall w: World, steps: seq<Step>, u: Id |
        Inv(grace, w) && Runnable(grace, w, steps + [Count(u)]) && Pending(grace, w, steps, u, stamp, now)
        ensures BlocksPresent(grace, Run(grace, w, steps + [Count(u)]))
      {
        RunKeepsInv(grace, w, steps);
        RunThen(grace, w, steps, Count(u));
        CountKeepsInv(grace, Run(grace, w, steps), u);
      }
    } else {
      LateCountPending(grace, Entry(0, 1), stamp, now);
      LateCountLosesBlock(grace, Entry(0, 1), stamp, now);
    }
  }

  // ---------------------------------------------------------------- a released block goes

  /** The last reference is released, the grace passes, and a pass lists the block and looks at its file. */
  function Collecting(e: Entry, at: nat, nanos: nat, p: Id): seq<Step> {
    var looking := [CheckFile(p, e.hash)] + ([DropRow(p, e.hash)] + []);
    [Release(e, at)] + ([Tick(nanos)] + ([Start(p)] + ([List(p, {e.hash})] + looking)))
  }

  /** A pass alone with a listed block whose file is old enough removes file and row. */
  lemma CheckAndDrop(grace: nat, w: World, p: Id, h: Hash, pass: Pass)
    requires p in w.passes && w.passes[p] == pass.(listed := {h}, dropped := {}) && Refs(w.rows, h) == 0
    requires !SharedSince(w.files, h, pass.cutoff)
    ensures var steps := [CheckFile(p, h)] + ([DropRow(p, h)] + []);
      && Runnable(grace, w, steps) && AllInTime(grace, w, steps)
      && Run(grace, w, steps).rows == w.rows - {h} && Run(grace, w, steps).files == w.files - {h}
  {
    var w1 := w.(files := w.files - {h}, passes := w.passes[p := Pass(pass.cutoff, {}, {h})]);
    var w2 := w1.(rows := w.rows - {h}, passes := w1.passes[p := Pass(pass.cutoff, {}, {})]);
    assert {h} - {h} == {} && {} + {h} == {h};
    Prepend(grace, w1, w2, DropRow(p, h), []);
    Prepend(grace, w, w1, CheckFile(p, h), [DropRow(p, h)] + []);
  }

  /** Once its last reference is released and the grace is over, a block nobody shared since is removed. */
  lemma ReleasedBlockGoes(grace: nat, w: World, e: Entry, at: nat, nanos: nat, p: Id)
    requires RowsCount(w) && w.counted[e.hash] == 1 && at <= Seconds(w.now) && p !in w.passes
    requires var cutoff := Seconds(w.now + nanos) - grace; at < cutoff && !SharedSince(w.files, e.hash, cutoff)
    ensures Runnable(grace, w, Collecting(e, at, nanos, p))
    ensures var r := Run(grace, w, Collecting(e, at, nanos, p));
      r.rows == w.rows - {e.hash} && r.files == w.files - {e.hash}
  {
    var h, cutoff := e.hash, Seconds(w.now + nanos) - grace;
    assert Refs(w.rows, h) == 1;
    var w1 := w.(rows := Released(w.rows, e, at), counted := w.counted - multiset{h});
    var w2 := w1.(now := w.now + nanos);
    var w3 := w2.(passes := w.passes[p := Pass(cutoff, {}, {})]);
    var w4 := w2.(passes := w3.passes[p := Pass(cutoff, {h}, {})]);
    var rest := [CheckFile(p, h)] + ([DropRow(p, h)] + []);
    CheckAndDrop(grace, w4, p, h, Pass(cutoff, {h}, {}));
    assert w1.rows - {h} == w.rows - {h};
    ListThen(grace, w3, w4, p, h, cutoff, rest);
    Prepend(grace, w2, w3, Start(p), [List(p, {h})] + rest);
    Prepend(grace, w1, w2, Tick(nanos), [Start(p)] + ([List(p, {h})] + rest));
    Prepend(grace, w, w1, Release(e, at), [Tick(nanos)] + ([Start(p)] + ([List(p, {h})] + rest)));
  }

  lemma ListThen(grace: nat, w: World, r: World, p: Id, h: Hash, cutoff: int, rest: seq<Step>)
    requires p in w.passes && w.passes[p] == Pass(cutoff, {}, {}) && Collectable(w.rows, h, cutoff)
    requires r == w.(passes := w.passes[p := Pass(cutoff, {h}, {})])
    requires Runnable(grace, r, rest) && AllInTime(grace, r, rest)
    ensures Runnable(grace, w, [List(p, {h})] + rest) && AllInTime(grace, w, [List(p, {h})] + rest)
    ensures Run(grace, w, [List(p, {h})] + rest) == Run(grace, r, rest)
  {
    Prepend(grace, w, r, List(p, {h}), rest);
  }
}
