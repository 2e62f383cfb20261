/**
 * Striped key locks and the capacity lock (`key_locks.rs`, `engine.rs`). Each lock is a fair reader-writer lock
 * with a first-in first-out queue. Tasks read-lock one stripe, write-lock one or many in ascending order, and may
 * take the capacity lock after a key lock.
 */
module KeyLocks {

  const STRIPES := 4096
  const CAPACITY := STRIPES  // the capacity lock, after every stripe

  type Lock = nat
  type Id = nat

  datatype Want = Want(at: Lock, exclusive: bool)

  // ---------------------------------------------------------------- the order locks are taken in

  predicate Ascending(stripes: seq<nat>) {
    forall i, j :: 0 <= i < j < |stripes| ==> stripes[i] < stripes[j]
  }

  function Members(stripes: seq<nat>): set<nat> {
    set s | s in stripes
  }

  /** Adds a stripe to an ascending list unless it is there. */
  method Insert(stripes: seq<nat>, stripe: nat) returns (out: seq<nat>)
    requires Ascending(stripes)
    ensures Ascending(out) && Members(out) == Members(stripes) + {stripe}
  {
    var i := 0;
    while i < |stripes| && stripes[i] < stripe
      invariant 0 <= i <= |stripes|
      invariant forall j :: 0 <= j < i ==> stripes[j] < stripe
    {
      i := i + 1;
    }
    if i < |stripes| && stripes[i] == stripe {
      assert stripe in stripes;
      return stripes;
    }
    Inserted(stripes, i, stripe);
    return stripes[..i] + [stripe] + stripes[i..];
  }

  lemma Inserted(stripes: seq<nat>, i: nat, stripe: nat)
    requires Ascending(stripes) && i <= |stripes|
    requires i > 0 ==> stripes[i - 1] < stripe
    requires i < |stripes| ==> stripe < stripes[i]
    ensures var out := stripes[..i] + [stripe] + stripes[i..];
      Ascending(out) && Members(out) == Members(stripes) + {stripe}
  {
    InsertedAscends(stripes[..i], stripe, stripes[i..]);
    InsertedMembers(stripes[..i], stripe, stripes[i..]);
    assert stripes == stripes[..i] + stripes[i..];
  }

  lemma InsertedAscends(low: seq<nat>, stripe: nat, high: seq<nat>)
    requires Ascending(low) && Ascending(high)
    requires low != [] ==> low[|low| - 1] < stripe
    requires high != [] ==> stripe < high[0]
    ensures Ascending(low + [stripe] + high)
  {
    assert forall j :: 0 <= j < |low| ==> low[j] < stripe;
    assert forall j :: 0 <= j < |high| ==> stripe < high[j];
  }

  lemma InsertedMembers(low: seq<nat>, stripe: nat, high: seq<nat>)
    ensures Members(low + [stripe] + high) == Members(low + high) + {stripe}
  {
  }

  /** The stripes `lock_many` takes: those of its keys, ascending and without repetition. */
  method LockOrder(stripes: seq<nat>) returns (order: seq<nat>)
    ensures Ascending(order) && Members(order) == Members(stripes)
  {
    order := [];
    var i := 0;
    while i < |stripes|
      invariant 0 <= i <= |stripes|
      invariant Ascending(order) && Members(order) == Members(stripes[..i])
    {
      order := Insert(order, stripes[i]);
      assert stripes[..i + 1] == stripes[..i] + [stripes[i]];
      assert Members(stripes[..i + 1]) == Members(stripes[..i]) + {stripes[i]};
      i := i + 1;
    }
    assert stripes[..i] == stripes;
  }

  /** What the engine's tasks ask for. */
  datatype Plan =
    | Read(stripe: nat)
    | Write(stripes: seq<nat>)
    | WriteWithCapacity(stripes: seq<nat>)

  predicate ValidPlan(p: Plan) {
    match p
    case Read(s) => s < STRIPES
    case Write(ss) => Ascending(ss) && forall i :: 0 <= i < |ss| ==> ss[i] < STRIPES
    case WriteWithCapacity(ss) => Ascending(ss) && forall i :: 0 <= i < |ss| ==> ss[i] < STRIPES
  }

  function Exclusively(stripes: seq<nat>): (wants: seq<Want>)
    ensures |wants| == |stripes| && forall i :: 0 <= i < |wants| ==> wants[i] == Want(stripes[i], true)
  {
    seq(|stripes|, i requires 0 <= i < |stripes| => Want(stripes[i], true))
  }

  function Wants(p: Plan): seq<Want> {
    match p
    case Read(s) => [Want(s, false)]
    case Write(ss) => Exclusively(ss)
    case WriteWithCapacity(ss) => Exclusively(ss) + [Want(CAPACITY, true)]
  }

  predicate InOrder(wants: seq<Want>) {
    forall i, j :: 0 <= i < j < |wants| ==> wants[i].at < wants[j].at
  }

  lemma PlansAreInOrder(p: Plan)
    requires ValidPlan(p)
    ensures InOrder(Wants(p))
  {
  }

  /** What `lock_many` asks for, from the stripes of its keys in any order and with repetitions. */
  method LockMany(stripes: seq<nat>, capacityToo: bool) returns (plan: Plan)
    requires forall i :: 0 <= i < |stripes| ==> stripes[i] < STRIPES
    ensures !plan.Read? && ValidPlan(plan) && InOrder(Wants(plan))
    ensures forall s: nat :: s < STRIPES ==> (Want(s, true) in Wants(plan) <==> s in stripes)
    ensures Want(CAPACITY, true) in Wants(plan) <==> capacityToo
  {
    var order := LockOrder(stripes);
    assert forall s :: s in order <==> s in Members(order);
    assert forall s :: s in stripes <==> s in Members(stripes);
    plan := if capacityToo then WriteWithCapacity(order) else Write(order);
    forall i | 0 <= i < |order| ensures order[i] < STRIPES && order[i] in stripes { assert order[i] in order; }
    PlansAreInOrder(plan);
    ExclusivelyWants(order);
  }

  lemma ExclusivelyWants(stripes: seq<nat>)
    ensures forall s: nat :: Want(s, true) in Exclusively(stripes) <==> s in stripes
  {
    var wants := Exclusively(stripes);
    forall s: nat ensures Want(s, true) in wants <==> s in stripes {
      if s in stripes {
        var i :| 0 <= i < |stripes| && stripes[i] == s;
        assert wants[i] == Want(s, true);
      }
    }
  }

  // ---------------------------------------------------------------- the machine

  /** A task holds its first `got` locks and, when queued, waits for the next. */
  datatype Task = Task(wants: seq<Want>, got: nat, queued: bool)

  datatype State = State(tasks: map<Id, Task>, queues: map<Lock, seq<Id>>)

  function Queue(s: State, l: Lock): seq<Id> {
    if l in s.queues then s.queues[l] else []
  }

  predicate HasLock(t: Task, l: Lock, exclusive: bool) {
    exists i :: 0 <= i < t.got && i < |t.wants| && t.wants[i] == Want(l, exclusive)
  }

  /** A queued task is served when it is first and nobody holds the lock in a way that excludes it. */
  ghost predicate Grantable(s: State, id: Id) {
    && id in s.tasks && s.tasks[id].queued && s.tasks[id].got < |s.tasks[id].wants|
    && var want := s.tasks[id].wants[s.tasks[id].got];
       && Queue(s, want.at) != [] && Queue(s, want.at)[0] == id
       && forall h :: h in s.tasks ==>
            !HasLock(s.tasks[h], want.at, true) && (want.exclusive ==> !HasLock(s.tasks[h], want.at, false))
  }

  /** Nobody waits for a lock that is free to them: readers share, and a lock nobody holds goes to whoever is first. */
  lemma FreeIsGranted(s: State, id: Id, want: Want)
    requires id in s.tasks && s.tasks[id].queued && s.tasks[id].got < |s.tasks[id].wants|
    requires want == s.tasks[id].wants[s.tasks[id].got] && Queue(s, want.at) != [] && Queue(s, want.at)[0] == id
    ensures !want.exclusive && (forall h :: h in s.tasks ==> !HasLock(s.tasks[h], want.at, true)) ==> Grantable(s, id)
    ensures (forall h, x :: h in s.tasks ==> !HasLock(s.tasks[h], want.at, x)) ==> Grantable(s, id)
    ensures Grantable(s, id) ==> Enabled(s, Grant(id)) && HasLock(Next(s, Grant(id)).tasks[id], want.at, want.exclusive)
  {
    if Grantable(s, id) {
      var t := Next(s, Grant(id)).tasks[id];
      assert t.wants[t.got - 1] == want;
    }
  }

  datatype Step =
    | Start(id: Id, plan: Plan)
    | Ask(id: Id)
    | Grant(id: Id)
    | Drop(id: Id)     // the last lock taken is released early, as the capacity lock is
    | Finish(id: Id)   // everything is released
    | Cancel(id: Id)   // a waiting request goes away

  ghost predicate Enabled(s: State, step: Step) {
    match step
    case Start(id, p) => id !in s.tasks && ValidPlan(p)
    case Ask(id) => id in s.tasks && !s.tasks[id].queued && s.tasks[id].got < |s.tasks[id].wants|
    case Grant(id) => Grantable(s, id)
    case Drop(id) => id in s.tasks && !s.tasks[id].queued && 0 < s.tasks[id].got == |s.tasks[id].wants|
    case Finish(id) => id in s.tasks && !s.tasks[id].queued && s.tasks[id].got == |s.tasks[id].wants|
    case Cancel(id) => id in s.tasks && s.tasks[id].queued && s.tasks[id].got < |s.tasks[id].wants|
  }

  function Without(q: seq<Id>, id: Id): (r: seq<Id>)
    ensures forall x :: x in r <==> x in q && x != id
  {
    if q == [] then [] else (if q[0] == id then [] else [q[0]]) + Without(q[1..], id)
  }

  function Next(s: State, step: Step): State
    requires Enabled(s, step)
  {
    match step
    case Start(id, p) => s.(tasks := s.tasks[id := Task(Wants(p), 0, false)])
    case Ask(id) =>
      var t := s.tasks[id];
      var l := t.wants[t.got].at;
      State(s.tasks[id := t.(queued := true)], s.queues[l := Queue(s, l) + [id]])
    case Grant(id) =>
      var t := s.tasks[id];
      var l := t.wants[t.got].at;
      State(s.tasks[id := Task(t.wants, t.got + 1, false)], s.queues[l := Queue(s, l)[1..]])
    case Drop(id) =>
      var t := s.tasks[id];
      s.(tasks := s.tasks[id := Task(t.wants[..t.got - 1], t.got - 1, false)])
    case Finish(id) => s.(tasks := s.tasks - {id})
    case Cancel(id) =>
      var l := s.tasks[id].wants[s.tasks[id].got].at;
      State(s.tasks - {id}, s.queues[l := Without(Queue(s, l), id)])
  }

  // ---------------------------------------------------------------- the invariant

  predicate TaskOk(t: Task) {
    InOrder(t.wants) && t.got <= |t.wants| && (t.queued ==> t.got < |t.wants|)
  }

  predicate WaitsAt(t: Task, l: Lock) {
    t.queued && t.got < |t.wants| && t.wants[t.got].at == l
  }

  /** Queues hold exactly the tasks that wait at them, once each. */
  ghost predicate Inv(s: State) {
    && (forall id :: id in s.tasks ==> TaskOk(s.tasks[id]))
    && (forall l, id :: id in Queue(s, l) <==> id in s.tasks && WaitsAt(s.tasks[id], l))
    && (forall l :: NoRepeats(Queue(s, l)))
  }

  /** The task is in the queue at this place or nearer its head. */
  ghost predicate Ahead(q: seq<Id>, id: Id, i: nat) {
    exists j :: 0 <= j <= i && j < |q| && q[j] == id
  }

  lemma {:induction false} WithoutMovesUp(q: seq<Id>, id: Id, i: nat)
    requires i < |q| && q[i] != id
    ensures Ahead(Without(q, id), q[i], i)
  {
    var rest := Without(q[1..], id);
    if i == 0 {
      assert Without(q, id) == [q[0]] + rest;
      assert Without(q, id)[0] == q[0];
    } else {
      WithoutMovesUp(q[1..], id, i - 1);
      var j :| 0 <= j <= i - 1 && j < |rest| && rest[j] == q[1..][i - 1];
      assert Without(q, id)[if q[0] == id then j else j + 1] == q[i];
    }
  }

  /** Nobody overtakes: whatever happens, a waiting task keeps its place or moves up, until it is served or goes away. */
  lemma NobodyOvertakes(s: State, step: Step, l: Lock, i: nat)
    requires Enabled(s, step) && i < |Queue(s, l)| && step.id != Queue(s, l)[i]
    ensures Ahead(Queue(Next(s, step), l), Queue(s, l)[i], i)
  {
    var q, r := Queue(s, l), Queue(Next(s, step), l);
    if step.Cancel? && s.tasks[step.id].wants[s.tasks[step.id].got].at == l {
      WithoutMovesUp(q, step.id, i);
      assert r == Without(q, step.id);
    } else if step.Grant? && s.tasks[step.id].wants[s.tasks[step.id].got].at == l {
      assert r == q[1..] && r[i - 1] == q[i];
    } else {
      assert r[i] == q[i];
    }
  }

  predicate NoRepeats(q: seq<Id>) {
    forall i, j :: 0 <= i < j < |q| ==> q[i] != q[j]
  }

  lemma {:induction false} WithoutNoRepeats(q: seq<Id>, id: Id)
    requires NoRepeats(q)
    ensures NoRepeats(Without(q, id))
  {
    if q != [] {
      assert forall i :: 0 <= i < |q[1..]| ==> q[1..][i] == q[i + 1];
      WithoutNoRepeats(q[1..], id);
      assert q[0] !in q[1..];
    }
  }

  lemma StepKeepsInv(s: State, step: Step)
    requires Inv(s) && Enabled(s, step)
    ensures Inv(Next(s, step))
  {
    match step
    case Start(id, p) =>
      PlansAreInOrder(p);
      QuietKeepsInv(s, Next(s, step), id);
    case Ask(id) => AskKeepsInv(s, id);
    case Grant(id) => GrantKeepsInv(s, id);
    case Drop(id) => QuietKeepsInv(s, Next(s, step), id);
    case Finish(id) => QuietKeepsInv(s, Next(s, step), id);
    case Cancel(id) => CancelKeepsInv(s, id);
  }

  /** A step of a task that waits neither before nor after it. */
  lemma QuietKeepsInv(s: State, r: State, id: Id)
    requires Inv(s) && r.queues == s.queues && r.tasks - {id} == s.tasks - {id}
    requires id in s.tasks ==> !s.tasks[id].queued
    requires id in r.tasks ==> !r.tasks[id].queued && TaskOk(r.tasks[id])
    ensures Inv(r)
  {
    assert forall x :: x != id ==> (x in r.tasks <==> x in r.tasks - {id}) && (x in s.tasks <==> x in s.tasks - {id});
    assert forall x :: x != id && x in r.tasks ==> r.tasks[x] == (r.tasks - {id})[x] == s.tasks[x];
    forall m, x ensures x in Queue(r, m) <==> x in r.tasks && WaitsAt(r.tasks[x], m) {
      assert x in Queue(s, m) <==> x in s.tasks && WaitsAt(s.tasks[x], m);
    }
    forall m ensures NoRepeats(Queue(r, m)) {
      assert Queue(r, m) == Queue(s, m);
    }
  }

  lemma AskKeepsInv(s: State, id: Id)
    requires Inv(s) && Enabled(s, Ask(id))
    ensures Inv(Next(s, Ask(id)))
  {
    var r := Next(s, Ask(id));
    var l := s.tasks[id].wants[s.tasks[id].got].at;
    forall m ensures NoRepeats(Queue(r, m)) {
      assert NoRepeats(Queue(s, m)) && id !in Queue(s, l);
    }
    forall m, x ensures x in Queue(r, m) <==> x in r.tasks && WaitsAt(r.tasks[x], m) {
      assert x in Queue(s, m) <==> x in s.tasks && WaitsAt(s.tasks[x], m);
    }
  }

  lemma GrantKeepsInv(s: State, id: Id)
    requires Inv(s) && Enabled(s, Grant(id))
    ensures Inv(Next(s, Grant(id)))
  {
    var r := Next(s, Grant(id));
    var l := s.tasks[id].wants[s.tasks[id].got].at;
    var q := Queue(s, l);
    assert NoRepeats(q);
    assert forall x :: x in q[1..] <==> x in q && x != id;
    forall m ensures NoRepeats(Queue(r, m)) {
      assert NoRepeats(Queue(s, m));
    }
    forall m, x ensures x in Queue(r, m) <==> x in r.tasks && WaitsAt(r.tasks[x], m) {
      assert x in Queue(s, m) <==> x in s.tasks && WaitsAt(s.tasks[x], m);
    }
  }

  lemma CancelKeepsInv(s: State, id: Id)
    requires Inv(s) && Enabled(s, Cancel(id))
    ensures Inv(Next(s, Cancel(id)))
  {
    var r := Next(s, Cancel(id));
    var l := s.tasks[id].wants[s.tasks[id].got].at;
    forall m ensures NoRepeats(Queue(r, m)) {
      assert NoRepeats(Queue(s, m));
      WithoutNoRepeats(Queue(s, l), id);
    }
    forall m, x ensures x in Queue(r, m) <==> x in r.tasks && WaitsAt(r.tasks[x], m) {
      assert x in Queue(s, m) <==> x in s.tasks && WaitsAt(s.tasks[x], m);
    }
  }

  // ---------------------------------------------------------------- no deadlock

  /** The task has a step of its own: it is not waiting, or it can be served. */
  ghost predicate CanStep(s: State, id: Id) {
    id in s.tasks && (!s.tasks[id].queued || Grantable(s, id))
  }

  /** Someone is waiting for the lock. */
  ghost predicate Awaited(s: State, l: Lock) {
    exists id :: id in s.tasks && WaitsAt(s.tasks[id], l)
  }

  /** A task that holds a lock waits, if at all, for a later one. */
  lemma HolderWaitsHigher(s: State, h: Id, l: Lock, exclusive: bool)
    requires Inv(s) && h in s.tasks && HasLock(s.tasks[h], l, exclusive)
    ensures s.tasks[h].queued ==> exists m :: m > l && Awaited(s, m)
  {
    var t := s.tasks[h];
    if t.queued {
      assert TaskOk(t) && WaitsAt(t, t.wants[t.got].at);
      assert t.wants[t.got].at > l && Awaited(s, t.wants[t.got].at);
    }
  }

  /** The first in the queue of the highest awaited lock can be served, or the one in its way can go on. */
  lemma HighestMoves(s: State, l: Lock) returns (id: Id)
    requires Inv(s) && Awaited(s, l) && forall m :: m > l ==> !Awaited(s, m)
    ensures CanStep(s, id)
  {
    var waiter :| waiter in s.tasks && WaitsAt(s.tasks[waiter], l);
    assert waiter in Queue(s, l);
    id := Queue(s, l)[0];
    assert id in Queue(s, l);
    if !Grantable(s, id) {
      var h, exclusive :| h in s.tasks && HasLock(s.tasks[h], l, exclusive);
      HolderWaitsHigher(s, h, l, exclusive);
      id := h;
    }
  }

  /** Climbs to the highest awaited lock; locks go no higher than the capacity lock. */
  lemma Highest(s: State, l: Lock, bound: Lock) returns (top: Lock)
    requires Awaited(s, l) && l <= bound && forall m :: m > bound ==> !Awaited(s, m)
    ensures Awaited(s, top) && forall m :: m > top ==> !Awaited(s, m)
    decreases bound - l
  {
    if exists m :: m > l && Awaited(s, m) {
      var m :| m > l && Awaited(s, m);
      top := Highest(s, m, bound);
    } else {
      top := l;
    }
  }

  ghost predicate Bounded(s: State) {
    forall id, i :: id in s.tasks && 0 <= i < |s.tasks[id].wants| ==> s.tasks[id].wants[i].at <= CAPACITY
  }

  lemma StepKeepsBounded(s: State, step: Step)
    requires Bounded(s) && Inv(s) && Enabled(s, step)
    ensures Bounded(Next(s, step))
  {
  }

  ghost predicate Runnable(s: State, steps: seq<Step>)
    decreases |steps|
  {
    steps == [] || (Enabled(s, steps[0]) && Runnable(Next(s, steps[0]), steps[1..]))
  }

  ghost function Run(s: State, steps: seq<Step>): State
    requires Runnable(s, steps)
    decreases |steps|
  {
    if steps == [] then s else Run(Next(s, steps[0]), steps[1..])
  }

  lemma {:induction false} RunKeepsInv(s: State, steps: seq<Step>)
    requires Inv(s) && Bounded(s) && Runnable(s, steps)
    ensures Inv(Run(s, steps)) && Bounded(Run(s, steps))
    decreases |steps|
  {
    if steps != [] {
      StepKeepsInv(s, steps[0]);
      StepKeepsBounded(s, steps[0]);
      RunKeepsInv(Next(s, steps[0]), steps[1..]);
    }
  }

  /** Nobody shares a lock that someone holds exclusively. */
  ghost predicate Exclusion(s: State) {
    forall a, b, l :: a in s.tasks && b in s.tasks && a != b && HasLock(s.tasks[a], l, true) ==>
      !HasLock(s.tasks[b], l, true) && !HasLock(s.tasks[b], l, false)
  }

  /** A step gives at most one task at most one more lock. */
  lemma StepHoldings(s: State, step: Step, id: Id, l: Lock, exclusive: bool)
    requires Inv(s) && Enabled(s, step)
    requires id in Next(s, step).tasks && HasLock(Next(s, step).tasks[id], l, exclusive)
    ensures (id in s.tasks && HasLock(s.tasks[id], l, exclusive))
         || (step == Grant(id) && s.tasks[id].wants[s.tasks[id].got] == Want(l, exclusive))
  {
    var r := Next(s, step);
    var i :| 0 <= i < r.tasks[id].got && i < |r.tasks[id].wants| && r.tasks[id].wants[i] == Want(l, exclusive);
    assert id in s.tasks || step.Start?;
    if id in s.tasks && i < s.tasks[id].got && i < |s.tasks[id].wants| {
      assert s.tasks[id].wants[i] == Want(l, exclusive);
    }
  }

  lemma StepKeepsExclusion(s: State, step: Step)
    requires Inv(s) && Exclusion(s) && Enabled(s, step)
    ensures Exclusion(Next(s, step))
  {
    var r := Next(s, step);
    forall a, b, l | a in r.tasks && b in r.tasks && a != b && HasLock(r.tasks[a], l, true)
      ensures !HasLock(r.tasks[b], l, true) && !HasLock(r.tasks[b], l, false)
    {
      StepHoldings(s, step, a, l, true);
      if HasLock(r.tasks[b], l, true) { StepHoldings(s, step, b, l, true); }
      if HasLock(r.tasks[b], l, false) { StepHoldings(s, step, b, l, false); }
    }
  }

  /** The locks exclude in every reachable state. */
  lemma {:induction false} RunKeepsExclusion(s: State, steps: seq<Step>)
    requires Inv(s) && Exclusion(s) && Runnable(s, steps)
    ensures Exclusion(Run(s, steps))
    decreases |steps|
  {
    if steps != [] {
      StepKeepsInv(s, steps[0]);
      StepKeepsExclusion(s, steps[0]);
      RunKeepsExclusion(Next(s, steps[0]), steps[1..]);
    }
  }

  /** In every reachable state with a waiting task, some task can step. */
  lemma NoDeadlock(steps: seq<Step>, waiting: Id)
    requires Runnable(State(map[], map[]), steps)
    requires var s := Run(State(map[], map[]), steps); waiting in s.tasks && s.tasks[waiting].queued
    ensures exists id :: CanStep(Run(State(map[], map[]), steps), id)
  {
    var s := Run(State(map[], map[]), steps);
    RunKeepsInv(State(map[], map[]), steps);
    SomeoneMoves(s, waiting);
  }

  lemma SomeoneMoves(s: State, waiting: Id)
    requires Inv(s) && Bounded(s) && waiting in s.tasks && s.tasks[waiting].queued
    ensures exists id :: CanStep(s, id)
  {
    assert TaskOk(s.tasks[waiting]);
    var l := s.tasks[waiting].wants[s.tasks[waiting].got].at;
    assert WaitsAt(s.tasks[waiting], l);
    var top := Highest(s, l, CAPACITY);
    var id := HighestMoves(s, top);
  }
}
