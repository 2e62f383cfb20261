/**
 * Admission under `NOS_MAX_LOGICAL_BYTES` (`engine.rs`). A check reads the in-flight counter, then the
 * stored total, then adds its own bytes; commits, failures, releases and deletes may happen between any
 * two of those. One write at a time holds a key, and one check at a time holds the capacity lock.
 */
module Capacity {
  import opened Common
  import opened Decimal
  import opened Sums

  /** An admitted write. Its reservation is counted until it is released, committed or not. */
  datatype Write = Write(existing: nat, incoming: nat, committed: bool)

  /** The check holding the capacity lock, and what it has read so far. */
  datatype Check = Check(key: Key, existing: nat, incoming: nat, inFlight: Option<int>, total: Option<nat>)

  datatype State = State(
    rows: map<Key, nat>,        // sizes of active rows
    writes: map<Key, Write>,    // reservations, by the key each write holds
    check: Option<Check>,
    inFlight: int               // the atomic i64 counter
  )

  function WrapI64(x: int): int {
    if x > I64_MAX then x - 0x1_0000_0000_0000_0000 else if x < I64_MIN then x + 0x1_0000_0000_0000_0000 else x
  }

  /** The 64-bit value of a sum. */
  predicate IsWrapped(value: int, sum: int) {
    I64_MIN <= value <= I64_MAX
    && (value == sum || value == sum - 0x1_0000_0000_0000_0000 || value == sum + 0x1_0000_0000_0000_0000)
  }

  function Saturate(x: int): int {
    if x > I64_MAX then I64_MAX else if x < I64_MIN then I64_MIN else x
  }

  /** `i64::try_from(u64).unwrap_or(i64::MAX)`. */
  function ClampI64(n: nat): nat {
    if n > I64_MAX then I64_MAX else n
  }

  function Projected(total: nat, inFlight: int, existing: nat, incoming: nat): int {
    Saturate(Saturate(Saturate(total + inFlight) - existing) + incoming)
  }

  datatype Step =
    | Begin(key: Key, incoming: nat)  // key lock taken, current size read, capacity lock taken
    | LoadInFlight
    | ReadTotal
    | Decide
    | Abandon                         // the total could not be read, or the request went away
    | Commit(key: Key)
    | Release(key: Key)               // after the commit, or because the write failed
    | Delete(key: Key)

  predicate Locked(s: State, k: Key) {
    k in s.writes || (s.check.Some? && s.check.value.key == k)
  }

  predicate Enabled(s: State, step: Step) {
    match step
    case Begin(k, _) => s.check.None? && !Locked(s, k)
    case LoadInFlight => s.check.Some? && s.check.value.inFlight.None?
    case ReadTotal => s.check.Some? && s.check.value.inFlight.Some? && s.check.value.total.None?
    case Decide => s.check.Some? && s.check.value.inFlight.Some? && s.check.value.total.Some?
    case Abandon => s.check.Some?
    case Commit(k) => k in s.writes && !s.writes[k].committed
    case Release(k) => k in s.writes
    case Delete(k) => !Locked(s, k)
  }

  ghost function Next(cap: int, s: State, step: Step): State
    requires Enabled(s, step)
  {
    match step
    case Begin(k, incoming) => s.(check := Some(Check(k, At(s.rows, k), ClampI64(incoming), None, None)))
    case LoadInFlight => s.(check := Some(s.check.value.(inFlight := Some(s.inFlight))))
    case ReadTotal => s.(check := Some(s.check.value.(total := Some(Sum(s.rows)))))
    case Decide =>
      var c := s.check.value;
      if Projected(c.total.value, c.inFlight.value, c.existing, c.incoming) > cap then s.(check := None)
      else s.(check := None, inFlight := WrapI64(s.inFlight + c.incoming),
              writes := s.writes[c.key := Write(c.existing, c.incoming, false)])
    case Abandon => s.(check := None)
    case Commit(k) =>
      s.(rows := s.rows[k := s.writes[k].incoming], writes := s.writes[k := s.writes[k].(committed := true)])
    case Release(k) => s.(inFlight := WrapI64(s.inFlight - s.writes[k].incoming), writes := s.writes - {k})
    case Delete(k) => s.(rows := s.rows - {k})
  }

  // ---------------------------------------------------------------- the invariant

  function Incomings(writes: map<Key, Write>): map<Key, nat> {
    map k | k in writes :: writes[k].incoming
  }

  /** What an uncommitted write may still add to the stored total. */
  function Growth(w: Write): nat {
    if !w.committed && w.incoming > w.existing then w.incoming - w.existing else 0
  }

  function Growths(writes: map<Key, Write>): map<Key, nat> {
    map k | k in writes :: Growth(writes[k])
  }

  /** Stored bytes plus everything uncommitted writes may still add. */
  ghost function Potential(s: State): nat {
    Sum(s.rows) + Sum(Growths(s.writes))
  }

  /** The row of a held key is the one its write found, or the one it committed. */
  ghost predicate RowsHeld(s: State) {
    forall k :: k in s.writes ==>
      At(s.rows, k) == if s.writes[k].committed then s.writes[k].incoming else s.writes[k].existing
  }

  /** What a check has read still bounds what it must fit under. */
  ghost predicate CheckInv(s: State) {
    s.check.Some? ==>
      var c := s.check.value;
      && c.key !in s.writes && c.existing == At(s.rows, c.key)
      && (c.inFlight.None? ==> c.total.None?)
      && (c.inFlight.Some? ==> Sum(Incomings(s.writes)) <= c.inFlight.value)
      && (c.inFlight.Some? && c.total.Some? ==> Potential(s) <= c.total.value + c.inFlight.value)
  }

  ghost predicate Inv(cap: int, s: State) {
    && Potential(s) <= cap
    && s.inFlight == Sum(Incomings(s.writes))
    && RowsHeld(s) && CheckInv(s)
  }

  /** Every reserved byte is a stored byte or one that may still be added, so the counter stays under the cap. */
  lemma ReservedFits(s: State)
    requires RowsHeld(s)
    ensures Sum(Incomings(s.writes)) <= Potential(s)
  {
    var held := map k | k in s.writes :: At(s.rows, k);
    var bound := map k | k in s.writes :: held[k] + Growth(s.writes[k]);
    SumMonotone(Incomings(s.writes), bound);
    SumAdds(held, Growths(s.writes), bound);
    SumMonotone(held, s.rows);
  }

  lemma WritesPut(writes: map<Key, Write>, k: Key, w: Write)
    ensures Sum(Incomings(writes[k := w])) == Sum(Incomings(writes)) - At(Incomings(writes), k) + w.incoming
    ensures Sum(Growths(writes[k := w])) == Sum(Growths(writes)) - At(Growths(writes), k) + Growth(w)
    ensures Sum(Incomings(writes - {k})) == Sum(Incomings(writes)) - At(Incomings(writes), k)
    ensures Sum(Growths(writes - {k})) == Sum(Growths(writes)) - At(Growths(writes), k)
  {
    assert Incomings(writes[k := w]) == Incomings(writes)[k := w.incoming];
    assert Growths(writes[k := w]) == Growths(writes)[k := Growth(w)];
    assert Incomings(writes - {k}) == Incomings(writes) - {k};
    assert Growths(writes - {k}) == Growths(writes) - {k};
    SumPut(Incomings(writes), k, w.incoming);
    SumPut(Growths(writes), k, Growth(w));
  }

  /** No saturation lets a growing write past a cap below `i64::MAX`. */
  lemma ProjectedIsExact(cap: int, total: nat, inFlight: int, existing: nat, incoming: nat)
    requires cap < I64_MAX && inFlight >= 0 && existing <= incoming
    requires Projected(total, inFlight, existing, incoming) <= cap
    ensures total + inFlight - existing + incoming <= cap
  {
  }

  function Least(a: int, b: int): int {
    if a < b then a else b
  }

  /** No sum of a check leaves the i64 range. */
  predicate FitsI64(total: nat, inFlight: int, existing: nat, incoming: nat) {
    && existing <= I64_MAX && incoming <= I64_MAX
    && total + inFlight <= I64_MAX && total + inFlight - existing + incoming <= I64_MAX
  }

  /**
   * When a check refuses. While the sums fit an i64 it is exactly when the total after the write would exceed the cap;
   * beyond that, stored plus reserved bytes and the incoming size count as no more than `i64::MAX`, and a cap of
   * `i64::MAX` refuses nothing.
   */
  lemma RefusedIff(cap: int, total: nat, inFlight: int, existing: nat, incoming: nat)
    requires 0 < cap <= I64_MAX && inFlight >= 0 && existing <= I64_MAX
    ensures Projected(total, inFlight, existing, ClampI64(incoming)) > cap <==>
      cap < I64_MAX && Least(total + inFlight, I64_MAX) - existing + Least(incoming, I64_MAX) > cap
    ensures FitsI64(total, inFlight, existing, incoming) ==>
      (Projected(total, inFlight, existing, ClampI64(incoming)) > cap <==> total + inFlight - existing + incoming > cap)
  {
  }

  lemma AdmitKeepsInv(cap: int, s: State, c: Check, r: State)
    requires 0 < cap < I64_MAX && Inv(cap, s)
    requires s.check == Some(c) && c.inFlight.Some? && c.total.Some?
    requires Projected(c.total.value, c.inFlight.value, c.existing, c.incoming) <= cap
    requires r == s.(check := None, inFlight := s.inFlight + c.incoming,
                     writes := s.writes[c.key := Write(c.existing, c.incoming, false)])
    ensures Inv(cap, r) && r.inFlight <= cap
  {
    WritesPut(s.writes, c.key, Write(c.existing, c.incoming, false));
    if c.existing <= c.incoming {
      ProjectedIsExact(cap, c.total.value, c.inFlight.value, c.existing, c.incoming);
    }
    assert Potential(r) <= cap;
    assert RowsHeld(r);
    ReservedFits(r);
  }

  lemma DecideKeepsInv(cap: int, s: State)
    requires 0 < cap < I64_MAX && Inv(cap, s) && Enabled(s, Decide)
    ensures Inv(cap, Next(cap, s, Decide))
  {
    var c := s.check.value;
    if Projected(c.total.value, c.inFlight.value, c.existing, c.incoming) <= cap {
      var r := s.(check := None, inFlight := s.inFlight + c.incoming,
                  writes := s.writes[c.key := Write(c.existing, c.incoming, false)]);
      AdmitKeepsInv(cap, s, c, r);
      assert Next(cap, s, Decide) == r;
    } else {
      assert Next(cap, s, Decide) == s.(check := None);
    }
  }

  lemma CommitKeepsInv(cap: int, s: State, k: Key)
    requires Inv(cap, s) && Enabled(s, Commit(k))
    ensures Inv(cap, Next(cap, s, Commit(k)))
  {
    WritesPut(s.writes, k, s.writes[k].(committed := true));
    SumPut(s.rows, k, s.writes[k].incoming);
  }

  lemma ReleaseKeepsInv(cap: int, s: State, k: Key)
    requires 0 < cap < I64_MAX && Inv(cap, s) && Enabled(s, Release(k))
    ensures Inv(cap, Next(cap, s, Release(k)))
  {
    WritesPut(s.writes, k, s.writes[k]);
    ReservedFits(s);
  }

  lemma DeleteKeepsInv(cap: int, s: State, k: Key)
    requires Inv(cap, s) && Enabled(s, Delete(k))
    ensures Inv(cap, Next(cap, s, Delete(k)))
  {
    SumPut(s.rows, k, 0);
  }

  /** A delete frees exactly the object's bytes. */
  lemma DeleteFrees(cap: int, s: State, k: Key)
    requires Enabled(s, Delete(k))
    ensures var r := Next(cap, s, Delete(k));
      k !in r.rows && Sum(r.rows) == Sum(s.rows) - At(s.rows, k) && r == s.(rows := r.rows)
  {
    SumPut(s.rows, k, 0);
  }

  lemma StepKeepsInv(cap: int, s: State, step: Step)
    requires 0 < cap < I64_MAX && Inv(cap, s) && Enabled(s, step)
    ensures Inv(cap, Next(cap, s, step))
  {
    match step
    case Decide => DecideKeepsInv(cap, s);
    case ReadTotal => SumMonotone(Growths(s.writes), Incomings(s.writes));
    case Commit(k) => CommitKeepsInv(cap, s, k);
    case Release(k) => ReleaseKeepsInv(cap, s, k);
    case Delete(k) => DeleteKeepsInv(cap, s, k);
    case Begin(_, _) =>
    case LoadInFlight =>
    case Abandon =>
  }

  // ---------------------------------------------------------------- runs

  ghost predicate Runnable(cap: int, s: State, steps: seq<Step>)
    decreases |steps|
  {
    steps == [] || (Enabled(s, steps[0]) && Runnable(cap, Next(cap, s, steps[0]), steps[1..]))
  }

  ghost function Run(cap: int, s: State, steps: seq<Step>): State
    requires Runnable(cap, s, steps)
    decreases |steps|
  {
    if steps == [] then s else Run(cap, Next(cap, s, steps[0]), steps[1..])
  }

  predicate Idle(s: State) {
    s.writes == map[] && s.check.None? && s.inFlight == 0
  }

  /** In no interleaving do stored bytes exceed the cap, and the counter never leaves `0 .. cap`. */
  lemma {:induction false} CapNeverExceeded(cap: int, s: State, steps: seq<Step>)
    requires 0 < cap < I64_MAX && Inv(cap, s) && Runnable(cap, s, steps)
    ensures Sum(Run(cap, s, steps).rows) <= cap
    ensures 0 <= Run(cap, s, steps).inFlight <= cap
    decreases |steps|
  {
    if steps == [] {
      ReservedFits(s);
    } else {
      StepKeepsInv(cap, s, steps[0]);
      CapNeverExceeded(cap, Next(cap, s, steps[0]), steps[1..]);
    }
  }

  /** What an operator expects of a cap: an idle store at or below it never goes above it. */
  ghost predicate Holds(cap: int, s: State, steps: seq<Step>) {
    Idle(s) && Sum(s.rows) <= cap && Runnable(cap, s, steps) ==> Sum(Run(cap, s, steps).rows) <= cap
  }

  lemma CapacityHolds(cap: int, s: State, steps: seq<Step>)
    requires 0 < cap < I64_MAX
    ensures Holds(cap, s, steps)
  {
    if Idle(s) && Sum(s.rows) <= cap && Runnable(cap, s, steps) {
      assert Incomings(s.writes) == map[] && Growths(s.writes) == map[];
      CapNeverExceeded(cap, s, steps);
    }
  }

  /** At `i64::MAX` the saturated sum never exceeds the cap, so a full store still admits a write. */
  lemma SaturationAdmits(k: Key, other: Key)
    requires k != other
    ensures !Holds(I64_MAX, State(map[k := I64_MAX], map[], None, 0),
                   [Begin(other, 1), LoadInFlight, ReadTotal, Decide, Commit(other)])
  {
    var s := State(map[k := I64_MAX], map[], None, 0);
    var full: map<Key, nat> := s.rows;
    SumPut(map[], k, I64_MAX);
    assert map[][k := I64_MAX] == full;
    SumPut(full, other, 1);
    var s1 := s.(check := Some(Check(other, 0, 1, None, None)));
    var s2 := s1.(check := Some(Check(other, 0, 1, Some(0), None)));
    var s3 := s2.(check := Some(Check(other, 0, 1, Some(0), Some(I64_MAX))));
    var s4 := s3.(check := None, inFlight := 1, writes := map[other := Write(0, 1, false)]);
    var s5 := s4.(rows := full[other := 1], writes := s4.writes[other := Write(0, 1, true)]);
    assert Next(I64_MAX, s, Begin(other, 1)) == s1;
    assert Next(I64_MAX, s1, LoadInFlight) == s2;
    assert Next(I64_MAX, s2, ReadTotal) == s3;
    assert Next(I64_MAX, s3, Decide) == s4;
    assert Next(I64_MAX, s4, Commit(other)) == s5;
    RunsFive(s, s1, s2, s3, s4, s5, Begin(other, 1), LoadInFlight, ReadTotal, Decide, Commit(other));
  }

  lemma RunsFive(s: State, s1: State, s2: State, s3: State, s4: State, s5: State,
                 a: Step, b: Step, c: Step, d: Step, e: Step)
    requires Enabled(s, a) && Next(I64_MAX, s, a) == s1
    requires Enabled(s1, b) && Next(I64_MAX, s1, b) == s2
    requires Enabled(s2, c) && Next(I64_MAX, s2, c) == s3
    requires Enabled(s3, d) && Next(I64_MAX, s3, d) == s4
    requires Enabled(s4, e) && Next(I64_MAX, s4, e) == s5
    ensures Runnable(I64_MAX, s, [a, b, c, d, e]) && Run(I64_MAX, s, [a, b, c, d, e]) == s5
  {
    assert [e][1..] == [] && [d, e][1..] == [e] && [c, d, e][1..] == [d, e];
    assert [b, c, d, e][1..] == [c, d, e] && [a, b, c, d, e][1..] == [b, c, d, e];
    assert Runnable(I64_MAX, s5, []);
    assert Runnable(I64_MAX, s4, [e]) && Run(I64_MAX, s4, [e]) == s5;
    assert Runnable(I64_MAX, s3, [d, e]) && Run(I64_MAX, s3, [d, e]) == s5;
    assert Runnable(I64_MAX, s2, [c, d, e]) && Run(I64_MAX, s2, [c, d, e]) == s5;
    assert Runnable(I64_MAX, s1, [b, c, d, e]) && Run(I64_MAX, s1, [b, c, d, e]) == s5;
  }

  /** The cap is kept in every interleaving exactly when it is below `i64::MAX`. */
  lemma CapacityHoldsIff(cap: int)
    requires 0 < cap <= I64_MAX
    ensures (forall s: State, steps: seq<Step> :: Holds(cap, s, steps)) <==> cap < I64_MAX
  {
    if cap < I64_MAX {
      forall s: State, steps: seq<Step> ensures Holds(cap, s, steps) {
        CapacityHolds(cap, s, steps);
      }
    } else {
      SaturationAdmits("a", "b");
    }
  }

  // ---------------------------------------------------------------- a write alone

  lemma {:induction false} Prepend(cap: int, s: State, next: State, step: Step, rest: seq<Step>)
    requires Enabled(s, step) && Next(cap, s, step) == next && Runnable(cap, next, rest)
    ensures Runnable(cap, s, [step] + rest) && Run(cap, s, [step] + rest) == Run(cap, next, rest)
  {
    assert ([step] + rest)[1..] == rest;
  }

  function Checking(k: Key, incoming: nat, rest: seq<Step>): seq<Step> {
    [Begin(k, incoming)] + ([LoadInFlight] + ([ReadTotal] + ([Decide] + rest)))
  }

  lemma {:induction false} CheckingRuns(cap: int, s: State, k: Key, incoming: nat, r: State, rest: seq<Step>)
    requires Idle(s) && Runnable(cap, r, rest)
    requires var n := ClampI64(incoming); var existing := At(s.rows, k);
      r == if Projected(Sum(s.rows), 0, existing, n) > cap then s
           else s.(inFlight := WrapI64(n), writes := map[k := Write(existing, n, false)])
    ensures Runnable(cap, s, Checking(k, incoming, rest)) && Run(cap, s, Checking(k, incoming, rest)) == Run(cap, r, rest)
  {
    var c := Check(k, At(s.rows, k), ClampI64(incoming), None, None);
    var s1 := s.(check := Some(c));
    var s2 := s.(check := Some(c.(inFlight := Some(0))));
    var s3 := s.(check := Some(c.(inFlight := Some(0), total := Some(Sum(s.rows)))));
    Prepend(cap, s3, r, Decide, rest);
    Prepend(cap, s2, s3, ReadTotal, [Decide] + rest);
    Prepend(cap, s1, s2, LoadInFlight, [ReadTotal] + ([Decide] + rest));
    Prepend(cap, s, s1, Begin(k, incoming), [LoadInFlight] + ([ReadTotal] + ([Decide] + rest)));
  }

  /**
   * A write alone is admitted if and only if the stored total after it is within the cap. It then leaves its size under
   * its key and an idle store; a refused one leaves everything as it was.
   */
  lemma AloneAdmittedIff(cap: int, s: State, k: Key, incoming: nat)
    requires 0 < cap < I64_MAX && Idle(s) && Sum(s.rows) <= I64_MAX
    ensures var admitted := Sum(s.rows) - At(s.rows, k) + incoming <= cap;
      var steps := Checking(k, incoming, if admitted then [Commit(k)] + ([Release(k)] + []) else []);
      && Runnable(cap, s, steps)
      && Run(cap, s, steps) == if admitted then s.(rows := s.rows[k := incoming]) else s
  {
    var existing, n := At(s.rows, k), ClampI64(incoming);
    SumPut(s.rows, k, 0);
    RefusedIff(cap, Sum(s.rows), 0, existing, incoming);
    if Sum(s.rows) - existing + incoming <= cap {
      var r := s.(inFlight := n, writes := map[k := Write(existing, n, false)]);
      var r1 := s.(rows := s.rows[k := n], inFlight := n, writes := map[k := Write(existing, n, true)]);
      var r2 := s.(rows := s.rows[k := n]);
      assert r1.writes - {k} == map[];
      Prepend(cap, r1, r2, Release(k), []);
      Prepend(cap, r, r1, Commit(k), [Release(k)] + []);
      CheckingRuns(cap, s, k, incoming, r, [Commit(k)] + ([Release(k)] + []));
    } else {
      CheckingRuns(cap, s, k, incoming, s, []);
    }
  }

  // ---------------------------------------------------------------- the counter in code

  /** The counter after a reservation. */
  function Added(inFlight: int, bytes: nat): int {
    WrapI64(inFlight + bytes)
  }

  ghost predicate Reserved(s: State, k: Key, inFlight: int, bytes: nat) {
    s.inFlight == inFlight && k in s.writes && s.writes[k].incoming == bytes
  }

  ghost predicate Deciding(s: State, inFlight: int, check: Check) {
    s.inFlight == inFlight && s.check == Some(check)
  }

  /** The part of the engine that admits writes. The stored total is read from the metadata store by the caller. */
  class Admission {
    var inFlight: int
    const cap: int

    constructor (max: int)
      ensures inFlight == 0 && cap == if max > 0 then max else 0
    {
      inFlight := 0;
      cap := if max > 0 then max else 0;
    }

    /**
     * The last part of the check, on what its two reads found. A configured cap takes exactly the `Decide`
     * step of every state that holds this counter and this check.
     */
    method Admit(key: Key, loaded: int, total: nat, existing: nat, incomingBytes: nat)
      returns (reserved: Option<nat>, insufficient: bool)
      modifies this`inFlight
      ensures cap <= 0 ==> reserved == None && !insufficient && inFlight == old(inFlight)
      ensures cap > 0 ==> (reserved.None? <==> insufficient)
      ensures reserved.Some? ==> reserved.value == Least(incomingBytes, I64_MAX)
      ensures 0 < cap <= I64_MAX && loaded >= 0 && existing <= I64_MAX ==>
        (insufficient <==>
           cap < I64_MAX && Least(total + loaded, I64_MAX) - existing + Least(incomingBytes, I64_MAX) > cap)
      ensures 0 < cap <= I64_MAX && loaded >= 0 && FitsI64(total, loaded, existing, incomingBytes) ==>
        (insufficient <==> total + loaded - existing + incomingBytes > cap)
      ensures reserved.None? ==> inFlight == old(inFlight)
      ensures reserved.Some? && I64_MIN <= old(inFlight) <= I64_MAX ==> IsWrapped(inFlight, old(inFlight) + reserved.value)
      ensures cap > 0 ==> forall s: State ::
        Deciding(s, old(inFlight), Check(key, existing, ClampI64(incomingBytes), Some(loaded), Some(total))) ==>
        Next(cap, s, Decide) == s.(check := None, inFlight := inFlight,
          writes := if insufficient then s.writes
                    else s.writes[key := Write(existing, ClampI64(incomingBytes), false)])
    {
      reserved, insufficient := None, false;
      if cap > 0 {
        var incoming := ClampI64(incomingBytes);
        if cap <= I64_MAX && loaded >= 0 && existing <= I64_MAX { RefusedIff(cap, total, loaded, existing, incomingBytes); }
        if Projected(total, loaded, existing, incoming) > cap {
          insufficient := true;
        } else {
          inFlight := Added(inFlight, incoming);
          reserved := Some(incoming);
        }
      }
    }

    /**
     * Dropping a reservation takes the counter back to what it was without it, even after a wrap, and is the
     * machine's `Release` of every write that reserved these bytes.
     */
    method Release(bytes: nat)
      modifies this`inFlight
      ensures bytes <= I64_MAX && I64_MIN <= old(inFlight) <= I64_MAX ==> IsWrapped(inFlight, old(inFlight) - bytes)
      ensures bytes <= I64_MAX ==>
        forall before: int :: I64_MIN <= before <= I64_MAX && Added(before, bytes) == old(inFlight) ==> inFlight == before
      ensures cap > 0 ==> forall s: State, k: Key :: Reserved(s, k, old(inFlight), bytes) ==>
        Next(cap, s, Step.Release(k)) == s.(inFlight := inFlight, writes := s.writes - {k})
    {
      inFlight := WrapI64(inFlight - bytes);
    }
  }
}
