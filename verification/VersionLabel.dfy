/**
 * The version label on object bytes sent to a peer (`routes.rs`). The server opens the bytes under the shared
 * lock, then reads the key's version, then re-reads the row's ETag, both without a lock; a writer commits its
 * row and then its version under the exclusive lock. The changes a key goes through are given as a sequence
 * with strictly increasing versions; servers interleave with them at every statement.
 */
module VersionLabel {
  import opened Common
  import opened Versions

  datatype Change =
    | Written(etag: Option<Etag>, version: Version)
    | Deleted(version: Version)

  datatype Serve =
    | Opened(bytes: nat)                  // bytes of change `bytes`
    | HasVersion(bytes: nat, read: nat)   // and the version of change `read`
    | Labelled(bytes: nat, sent: nat)
    | Unlabelled

  type Id = nat

  /** How many changes have their row, and how many their version; a writer is inside its lock between the two. */
  datatype State = State(rows: nat, versions: nat, serves: map<Id, Serve>)

  datatype Step = CommitRow | RecordVersion | Open(id: Id) | ReadVersion(id: Id) | Recheck(id: Id)

  predicate Increasing(changes: seq<Change>) {
    forall i, j :: 0 <= i < j < |changes| ==> Less(changes[i].version, changes[j].version)
  }

  /** The ETag of the active row a change leaves. */
  function EtagOf(c: Change): Option<Etag> {
    if c.Deleted? then None else c.etag
  }

  function RowEtag(changes: seq<Change>, n: nat): Option<Etag>
    requires n <= |changes|
  {
    if n == 0 then None else EtagOf(changes[n - 1])
  }

  predicate HasRow(changes: seq<Change>, n: nat)
    requires n <= |changes|
  {
    n > 0 && changes[n - 1].Written?
  }

  predicate Enabled(changes: seq<Change>, s: State, step: Step) {
    match step
    case CommitRow => s.rows == s.versions < |changes|
    case RecordVersion => s.versions < s.rows
    case Open(id) => id !in s.serves && s.rows == s.versions <= |changes| && HasRow(changes, s.rows)
    case ReadVersion(id) => id in s.serves && s.serves[id].Opened?
    case Recheck(id) => id in s.serves && s.serves[id].HasVersion? && s.rows <= |changes|
                        && s.serves[id].bytes < |changes|
  }

  function Next(changes: seq<Change>, s: State, step: Step): State
    requires Enabled(changes, s, step)
  {
    match step
    case CommitRow => s.(rows := s.rows + 1)
    case RecordVersion => s.(versions := s.versions + 1)
    case Open(id) => s.(serves := s.serves[id := Opened(s.rows - 1)])
    case ReadVersion(id) =>
      s.(serves := s.serves[id := if s.versions == 0 then Unlabelled
                                  else HasVersion(s.serves[id].bytes, s.versions - 1)])
    case Recheck(id) =>
      var v := s.serves[id];
      var current := RowEtag(changes, s.rows);
      s.(serves := s.serves[id :=
        if current.Some? && current == EtagOf(changes[v.bytes]) then Labelled(v.bytes, v.read) else Unlabelled])
  }

  // ---------------------------------------------------------------- labels are never newer than their bytes

  /** No two versions of the object share an ETag. */
  predicate DistinctEtags(changes: seq<Change>) {
    forall i, j :: 0 <= i < j < |changes| && EtagOf(changes[i]).Some? ==> EtagOf(changes[i]) != EtagOf(changes[j])
  }

  ghost predicate Inv(changes: seq<Change>, s: State) {
    && s.versions <= s.rows <= s.versions + 1 && s.rows <= |changes|
    && forall id :: id in s.serves ==> ServeOk(s, s.serves[id])
  }

  predicate ServeOk(s: State, v: Serve) {
    match v
    case Opened(bytes) => bytes < s.rows
    case HasVersion(bytes, read) => bytes < s.rows && read < s.versions
    case Labelled(bytes, sent) => sent <= bytes < s.rows
    case Unlabelled => true
  }

  ghost predicate LabelsHold(changes: seq<Change>, s: State) {
    forall id :: id in s.serves && s.serves[id].Labelled? ==>
      s.serves[id].bytes < |changes| && s.serves[id].sent < |changes|
      && AtLeast(changes[s.serves[id].bytes].version, changes[s.serves[id].sent].version)
  }

  lemma StepKeepsInv(changes: seq<Change>, s: State, step: Step)
    requires DistinctEtags(changes) && Inv(changes, s) && Enabled(changes, s, step)
    ensures Inv(changes, Next(changes, s, step))
  {
    if step.Recheck? {
      var v := s.serves[step.id];
      assert ServeOk(s, v);
    }
  }

  predicate Runnable(changes: seq<Change>, s: State, steps: seq<Step>)
    decreases |steps|
  {
    steps == [] || (Enabled(changes, s, steps[0]) && Runnable(changes, Next(changes, s, steps[0]), steps[1..]))
  }

  function Run(changes: seq<Change>, s: State, steps: seq<Step>): State
    requires Runnable(changes, s, steps)
    decreases |steps|
  {
    if steps == [] then s else Run(changes, Next(changes, s, steps[0]), steps[1..])
  }

  function Serving(id: Id): seq<Step> {
    [Open(id), ReadVersion(id), Recheck(id)]
  }

  /** A serve that nothing disturbs is labelled with its own version if its row has an ETag, and otherwise not. */
  lemma UndisturbedIsLabelled(changes: seq<Change>, s: State, id: Id)
    requires Enabled(changes, s, Open(id))
    ensures Runnable(changes, s, Serving(id))
    ensures Run(changes, s, Serving(id)) == s.(serves := s.serves[id :=
      if changes[s.rows - 1].etag.Some? then Labelled(s.rows - 1, s.rows - 1) else Unlabelled])
  {
    var n, steps := s.rows - 1, Serving(id);
    var s1 := s.(serves := s.serves[id := Opened(n)]);
    var s2 := s.(serves := s.serves[id := HasVersion(n, n)]);
    assert steps[1..] == [ReadVersion(id), Recheck(id)] && steps[1..][1..] == [Recheck(id)] && [Recheck(id)][1..] == [];
    assert s1.serves[id := HasVersion(n, n)] == s2.serves;
    assert Next(changes, s, Open(id)) == s1 && Next(changes, s1, ReadVersion(id)) == s2;
    var s3 := Next(changes, s2, Recheck(id));
    assert Runnable(changes, s3, []) && Runnable(changes, s2, [Recheck(id)]) && Run(changes, s2, [Recheck(id)]) == s3;
    assert Runnable(changes, s1, steps[1..]) && Run(changes, s1, steps[1..]) == s3;
  }

  lemma {:induction false} RunKeepsInv(changes: seq<Change>, s: State, steps: seq<Step>)
    requires DistinctEtags(changes) && Inv(changes, s) && Runnable(changes, s, steps)
    ensures Inv(changes, Run(changes, s, steps))
    decreases |steps|
  {
    if steps != [] {
      StepKeepsInv(changes, s, steps[0]);
      RunKeepsInv(changes, Next(changes, s, steps[0]), steps[1..]);
    }
  }

  const Start := State(0, 0, map[])

  /** With distinct ETags, no interleaving labels bytes with a version newer than theirs. */
  lemma LabelNeverNewer(changes: seq<Change>, steps: seq<Step>)
    requires Increasing(changes) && DistinctEtags(changes) && Runnable(changes, Start, steps)
    ensures LabelsHold(changes, Run(changes, Start, steps))
  {
    RunKeepsInv(changes, Start, steps);
    var r := Run(changes, Start, steps);
    forall id | id in r.serves && r.serves[id].Labelled?
      ensures r.serves[id].bytes < |changes| && r.serves[id].sent < |changes|
      ensures AtLeast(changes[r.serves[id].bytes].version, changes[r.serves[id].sent].version)
    {
      assert ServeOk(r, r.serves[id]);
      var b, l := r.serves[id].bytes, r.serves[id].sent;
      OrderTotal(changes[l].version, changes[b].version);
    }
  }

  // ---------------------------------------------------------------- an ETag that comes back

  /** The next `n` changes, each with its row and then its version. */
  function Changes(n: nat): seq<Step> {
    if n == 0 then [] else [CommitRow, RecordVersion] + Changes(n - 1)
  }

  lemma Prepend(changes: seq<Change>, s: State, r: State, step: Step, rest: seq<Step>)
    requires Enabled(changes, s, step) && Next(changes, s, step) == r && Runnable(changes, r, rest)
    ensures Runnable(changes, s, [step] + rest) && Run(changes, s, [step] + rest) == Run(changes, r, rest)
  {
    assert ([step] + rest)[1..] == rest;
  }

  lemma {:induction false} ChangesThen(changes: seq<Change>, s: State, n: nat, r: State, rest: seq<Step>)
    requires s.rows == s.versions && s.rows + n <= |changes|
    requires r == State(s.rows + n, s.rows + n, s.serves) && Runnable(changes, r, rest)
    ensures Runnable(changes, s, Changes(n) + rest) && Run(changes, s, Changes(n) + rest) == Run(changes, r, rest)
    decreases n
  {
    if n == 0 {
      assert Changes(0) + rest == rest;
    } else {
      var a, b := State(s.rows + 1, s.rows, s.serves), State(s.rows + 1, s.rows + 1, s.serves);
      ChangesThen(changes, b, n - 1, r, rest);
      var more := Changes(n - 1) + rest;
      Prepend(changes, a, b, RecordVersion, more);
      Prepend(changes, s, a, CommitRow, [RecordVersion] + more);
      assert Changes(n) + rest == [CommitRow] + ([RecordVersion] + more);
    }
  }

  /** Open change `i`, let the key go on to change `j`, then read the version and check the ETag. */
  function Overtaken(i: nat, j: nat): seq<Step>
    requires i < j
  {
    Changes(i + 1) + ([Open(0)] + (Changes(j - i) + ([ReadVersion(0)] + ([Recheck(0)] + []))))
  }

  lemma {:induction false} RepeatedEtagMislabels(changes: seq<Change>, i: nat, j: nat)
    requires Increasing(changes) && i < j < |changes|
    requires EtagOf(changes[i]).Some? && EtagOf(changes[i]) == EtagOf(changes[j])
    ensures Runnable(changes, Start, Overtaken(i, j))
    ensures !LabelsHold(changes, Run(changes, Start, Overtaken(i, j)))
  {
    var s1 := State(i + 1, i + 1, map[]);
    var s2 := State(i + 1, i + 1, map[0 := Opened(i)]);
    var s3 := State(j + 1, j + 1, map[0 := Opened(i)]);
    var s4 := State(j + 1, j + 1, map[0 := HasVersion(i, j)]);
    var s5 := State(j + 1, j + 1, map[0 := Labelled(i, j)]);
    Prepend(changes, s4, s5, Recheck(0), []);
    Prepend(changes, s3, s4, ReadVersion(0), [Recheck(0)] + []);
    ChangesThen(changes, s2, j - i, s3, [ReadVersion(0)] + ([Recheck(0)] + []));
    Prepend(changes, s1, s2, Open(0), Changes(j - i) + ([ReadVersion(0)] + ([Recheck(0)] + [])));
    ChangesThen(changes, Start, i + 1, s1, [Open(0)] + (Changes(j - i) + ([ReadVersion(0)] + ([Recheck(0)] + []))));
    OrderTotal(changes[i].version, changes[j].version);
    assert 0 in s5.serves && !AtLeast(changes[i].version, changes[j].version);
  }

  /** Labels hold in every interleaving exactly when no ETag of the object repeats. */
  lemma LabelsHoldIff(changes: seq<Change>)
    requires Increasing(changes)
    ensures (forall steps: seq<Step> :: Runnable(changes, Start, steps) ==> LabelsHold(changes, Run(changes, Start, steps)))
       <==> DistinctEtags(changes)
  {
    if DistinctEtags(changes) {
      forall steps: seq<Step> | Runnable(changes, Start, steps) ensures LabelsHold(changes, Run(changes, Start, steps)) {
        LabelNeverNewer(changes, steps);
      }
    } else {
      var i, j :| 0 <= i < j < |changes| && EtagOf(changes[i]).Some? && EtagOf(changes[i]) == EtagOf(changes[j]);
      RepeatedEtagMislabels(changes, i, j);
    }
  }
}
