/**
 * Last-writer-wins replication (`versions.rs`, `hooks.rs`, `apply.rs`, `log.rs`).
 *
 * A change and the `after` hook that versions it run under the key's write lock, so they are one step.
 * Delivery may reorder, repeat and retry: any event ever produced may be applied at any node at any time.
 */
module Replication {
  import opened Common
  import opened Decimal
  import opened Versions

  type EventId = nat
  type NodeId = string

  /** What a node has recorded for a key: the version of its last change and whether that was a delete. */
  datatype KeyVersion = KeyVersion(version: Version, deleted: bool)

  datatype Change = Put(content: Content) | Delete

  datatype Event = Event(id: EventId, origin: NodeId, key: Key, change: Change, createdAt: int, version: int)

  /** `i64::saturating_mul`. */
  function SaturatingMul(a: int, b: int): (r: int) {
    if a * b > I64_MAX then I64_MAX else if a * b < I64_MIN then I64_MIN else a * b
  }

  /** Events from nodes without versions count as made at the start of their second. */
  function EffectiveVersion(e: Event): (v: Version) {
    Version(if e.version > 0 then e.version else SaturatingMul(e.createdAt, 1_000_000), e.origin)
  }

  const MICROS := 1_000_000

  /**
   * An event without a version beats every version made before its second and loses to every one made after that
   * second began; at its very start the origins decide.
   */
  lemma UnversionedIsStartOfSecond(e: Event, v: Version)
    requires e.version <= 0 && I64_MIN <= e.createdAt * MICROS <= I64_MAX
    ensures v.micros / MICROS < e.createdAt ==> Less(v, EffectiveVersion(e))
    ensures v.micros > e.createdAt * MICROS ==> Less(EffectiveVersion(e), v)
    ensures v.micros == e.createdAt * MICROS ==> (Less(v, EffectiveVersion(e)) <==> TextLess(v.origin, e.origin))
  {
  }

  /** A version an event carries is its version. */
  lemma VersionedIsItself(e: Event)
    requires e.version > 0
    ensures EffectiveVersion(e) == Version(e.version, e.origin)
  {
  }

  /** One node: its version table, its live objects and its replication log. */
  datatype Node = Node(
    recorded: map<Key, KeyVersion>,
    objects: map<Key, Content>,
    log: map<EventId, Event>
  )

  function WithObject(n: Node, k: Key, change: Change): Node {
    match change
    case Put(c) => n.(objects := n.objects[k := c])
    case Delete => n.(objects := n.objects - {k})
  }

  // ---------------------------------------------------------------- changes made on a node

  /** `store_local`: later than the recorded version even if the clock stepped back. */
  function NextMicros(n: Node, k: Key, now: int): (micros: int)
    ensures micros >= now && (k in n.recorded ==> micros > n.recorded[k].version.micros)
    ensures micros == now || (k in n.recorded && micros == n.recorded[k].version.micros + 1)
  {
    if k in n.recorded && n.recorded[k].version.micros + 1 > now then n.recorded[k].version.micros + 1 else now
  }

  function LocalEvent(n: Node, self: NodeId, k: Key, change: Change, now: int, createdAt: int, id: EventId): Event {
    Event(id, self, k, change, createdAt, NextMicros(n, k, now))
  }

  /** Commit a local change, record its version and queue its event. */
  function CommitLocal(n: Node, self: NodeId, k: Key, change: Change, now: int, createdAt: int, id: EventId): Node {
    var e := LocalEvent(n, self, k, change, now, createdAt, id);
    WithObject(n, k, change).(
      recorded := n.recorded[k := KeyVersion(Version(e.version, self), change.Delete?)],
      log := n.log[id := e])
  }

  /** A local change of a key this node's replication rules exclude: committed, not versioned. */
  function CommitUnreplicated(n: Node, k: Key, change: Change): Node {
    WithObject(n, k, change)
  }

  // ---------------------------------------------------------------- changes received from peers

  predicate Refused(n: Node, e: Event) {
    e.key in n.recorded && AtLeast(n.recorded[e.key].version, EffectiveVersion(e))
  }

  /** `INSERT ... ON CONFLICT(event_id) DO NOTHING`. */
  function RecordApplied(n: Node, e: Event): Node {
    if e.id in n.log then n else n.(log := n.log[e.id := e])
  }

  /** The unlocked checks of `apply_event`: seen before, or already older than what is here. */
  function EarlyExit(n: Node, e: Event): Node {
    if e.id !in n.log && Refused(n, e) then RecordApplied(n, e) else n
  }

  /** The locked part: the version check is redone, then the change and its version are committed. */
  function CommitRemote(n: Node, e: Event): Node {
    if Refused(n, e) then RecordApplied(n, e)
    else
      RecordApplied(
        WithObject(n, e.key, e.change).(
          recorded := n.recorded[e.key := KeyVersion(EffectiveVersion(e), e.change.Delete?)]),
        e)
  }

  /** `apply_event` run without interruption. */
  function ApplyEvent(n: Node, e: Event): Node {
    if e.id in n.log then n else CommitRemote(n, e)
  }

  /** The unlocked checks answer as the whole would: a refused event is dealt with there, any other is left to the lock. */
  lemma EarlyExitAgrees(n: Node, e: Event)
    ensures Refused(n, e) ==> EarlyExit(n, e) == ApplyEvent(n, e)
    ensures !Refused(n, e) ==> EarlyExit(n, e) == n
  {
  }

  // ---------------------------------------------------------------- the cluster

  datatype Cluster = Cluster(nodes: map<NodeId, Node>, events: map<EventId, Event>)

  datatype Step =
    | LocalStep(node: NodeId, key: Key, change: Change, now: int, createdAt: int, id: EventId)
    | EarlyStep(node: NodeId, event: EventId)
    | CommitStep(node: NodeId, event: EventId)

  predicate Enabled(c: Cluster, s: Step) {
    && s.node in c.nodes
    && (s.LocalStep? ==> s.id !in c.events && s.now > 0)
    && (s.EarlyStep? || s.CommitStep? ==> s.event in c.events)
  }

  function Next(c: Cluster, s: Step): Cluster
    requires Enabled(c, s)
  {
    var n := c.nodes[s.node];
    match s
    case LocalStep(node, k, change, now, createdAt, id) =>
      Cluster(c.nodes[node := CommitLocal(n, node, k, change, now, createdAt, id)],
              c.events[id := LocalEvent(n, node, k, change, now, createdAt, id)])
    case EarlyStep(node, id) => c.(nodes := c.nodes[node := EarlyExit(n, c.events[id])])
    case CommitStep(node, id) => c.(nodes := c.nodes[node := CommitRemote(n, c.events[id])])
  }

  predicate Runnable(c: Cluster, steps: seq<Step>)
    decreases |steps|
  {
    steps == [] || (Enabled(c, steps[0]) && Runnable(Next(c, steps[0]), steps[1..]))
  }

  function Run(c: Cluster, steps: seq<Step>): Cluster
    requires Runnable(c, steps)
    decreases |steps|
  {
    if steps == [] then c else Run(Next(c, steps[0]), steps[1..])
  }

  /** Nodes that have not seen any change yet. */
  ghost predicate Initial(c: Cluster) {
    c.events == map[] && forall id :: id in c.nodes ==> c.nodes[id] == Node(map[], map[], map[])
  }

  // ---------------------------------------------------------------- what every step keeps

  /** The node's state for the key is exactly what this event left. */
  predicate Shows(n: Node, k: Key, e: Event) {
    && k in n.recorded && n.recorded[k] == KeyVersion(EffectiveVersion(e), e.change.Delete?)
    && (if e.change.Put? then k in n.objects && n.objects[k] == e.change.content else k !in n.objects)
  }

  /** The node shows the newest of the events it has logged for the key, or nothing if there is none. */
  ghost predicate ShowsNewest(n: Node, k: Key) {
    && (forall id :: id in n.log && n.log[id].key == k ==>
          k in n.recorded && AtLeast(n.recorded[k].version, EffectiveVersion(n.log[id])))
    && (k in n.recorded ==> exists id :: id in n.log && n.log[id].key == k && Shows(n, k, n.log[id]))
    && (k !in n.recorded ==> k !in n.objects)
  }

  ghost predicate AllNewest(n: Node) {
    forall k :: ShowsNewest(n, k)
  }

  /** Everything the node has logged is an event of the cluster. */
  ghost predicate LogKnown(c: Cluster, n: Node) {
    forall id :: id in n.log ==> id in c.events && n.log[id] == c.events[id]
  }

  ghost predicate NodeInv(c: Cluster, n: Node) {
    LogKnown(c, n) && AllNewest(n)
  }

  ghost predicate EventsInv(c: Cluster) {
    && (forall id :: id in c.events ==>
          var e := c.events[id];
          e.id == id && e.version > 0 && e.origin in c.nodes && id in c.nodes[e.origin].log)
    && (forall i, j :: i in c.events && j in c.events && i != j && c.events[i].key == c.events[j].key ==>
          EffectiveVersion(c.events[i]) != EffectiveVersion(c.events[j]))
  }

  ghost predicate Inv(c: Cluster) {
    EventsInv(c) && forall node :: node in c.nodes ==> NodeInv(c, c.nodes[node])
  }

  /** Keeping a refused event, or one about another key, leaves the key showing its newest. */
  lemma RecordKeepsNewest(n: Node, e: Event, k: Key, r: Node)
    requires ShowsNewest(n, k) && (e.id in n.log ==> n.log[e.id] == e)
    requires e.key == k ==> Refused(n, e)
    requires r.log == n.log[e.id := e]
    requires (k in r.recorded <==> k in n.recorded) && (k in n.recorded ==> r.recorded[k] == n.recorded[k])
    requires (k in r.objects <==> k in n.objects) && (k in n.objects ==> r.objects[k] == n.objects[k])
    ensures ShowsNewest(r, k)
  {
    if k in n.recorded {
      var id :| id in n.log && n.log[id].key == k && Shows(n, k, n.log[id]);
      assert id in r.log && r.log[id] == n.log[id] && Shows(r, k, r.log[id]);
    }
  }

  /** An accepted event is newer than everything logged for its key, and the node now shows it. */
  lemma AcceptedIsNewest(n: Node, e: Event)
    requires ShowsNewest(n, e.key) && !Refused(n, e) && (e.id in n.log ==> n.log[e.id] == e)
    ensures ShowsNewest(CommitRemote(n, e), e.key)
  {
    var r, k := CommitRemote(n, e), e.key;
    assert e.id in r.log && r.log[e.id] == e && Shows(r, k, e);
    OrderTotal(EffectiveVersion(e), EffectiveVersion(e));
    forall id | id in r.log && r.log[id].key == k
      ensures AtLeast(r.recorded[k].version, EffectiveVersion(r.log[id]))
    {
      if id != e.id {
        OrderTotal(n.recorded[k].version, EffectiveVersion(e));
        OrderTransitive(EffectiveVersion(n.log[id]), n.recorded[k].version, EffectiveVersion(e));
      }
    }
  }

  lemma RemoteKeepsNewest(n: Node, e: Event, k: Key)
    requires ShowsNewest(n, k) && (e.id in n.log ==> n.log[e.id] == e)
    ensures ShowsNewest(CommitRemote(n, e), k) && ShowsNewest(EarlyExit(n, e), k)
  {
    assert e.id in n.log ==> n.log[e.id := e] == n.log;
    if k == e.key && !Refused(n, e) {
      AcceptedIsNewest(n, e);
    } else {
      RecordKeepsNewest(n, e, k, CommitRemote(n, e));
      if Refused(n, e) { RecordKeepsNewest(n, e, k, RecordApplied(n, e)); }
    }
  }

  /** A local change is newer than everything its node has logged for the key. */
  lemma LocalKeepsNewest(n: Node, self: NodeId, k: Key, change: Change, now: int, createdAt: int, id: EventId, j: Key)
    requires ShowsNewest(n, j) && id !in n.log && now > 0
    ensures ShowsNewest(CommitLocal(n, self, k, change, now, createdAt, id), j)
  {
    var r := CommitLocal(n, self, k, change, now, createdAt, id);
    var e := r.log[id];
    if j == k {
      OrderTotal(EffectiveVersion(e), EffectiveVersion(e));
      assert Shows(r, k, r.log[id]);
    } else if j in n.recorded {
      var i :| i in n.log && n.log[i].key == j && Shows(n, j, n.log[i]);
      assert i in r.log && Shows(r, j, r.log[i]);
    }
  }

  /** A new version differs from every version its node produced before, and from every other node's. */
  lemma LocalVersionIsNew(c: Cluster, s: Step, i: EventId)
    requires Inv(c) && Enabled(c, s) && s.LocalStep? && i in c.events && c.events[i].key == s.key
    ensures EffectiveVersion(c.events[i]) != EffectiveVersion(Next(c, s).events[s.id])
  {
    var n := c.nodes[s.node];
    if c.events[i].origin == s.node {
      assert NodeInv(c, n);
      assert i in n.log && ShowsNewest(n, s.key);
    }
  }

  /** A node's log only grows. */
  ghost predicate LogGrows(n: Node, m: Node) {
    forall id :: id in n.log ==> id in m.log && m.log[id] == n.log[id]
  }

  /** Replacing one node's state and adding events keeps the invariant if the new state keeps its part. */
  lemma NodeChangeKeepsInv(c: Cluster, r: Cluster, node: NodeId, m: Node)
    requires Inv(c) && node in c.nodes && r.nodes == c.nodes[node := m] && LogGrows(c.nodes[node], m)
    requires forall id :: id in c.events ==> id in r.events && r.events[id] == c.events[id]
    requires EventsInv(r) && NodeInv(r, m)
    ensures Inv(r)
  {
    forall other | other in r.nodes ensures NodeInv(r, r.nodes[other]) {
      if other != node {
        assert NodeInv(c, c.nodes[other]);
      }
    }
  }

  /** An event that its origin has logged and whose version is new to the key joins the others. */
  lemma NewEventKeepsEvents(c: Cluster, r: Cluster, node: NodeId, m: Node, e: Event)
    requires EventsInv(c) && node in c.nodes && r == Cluster(c.nodes[node := m], c.events[e.id := e])
    requires LogGrows(c.nodes[node], m) && e.id !in c.events && e.version > 0 && e.origin == node && e.id in m.log
    requires forall i :: i in c.events && c.events[i].key == e.key ==> EffectiveVersion(c.events[i]) != EffectiveVersion(e)
    ensures EventsInv(r)
  {
    forall i | i in r.events ensures r.events[i].origin in r.nodes && i in r.nodes[r.events[i].origin].log {
      if i != e.id {
        assert i in c.nodes[c.events[i].origin].log;
      }
    }
  }

  lemma LogGrowthKeepsEvents(c: Cluster, r: Cluster, node: NodeId, m: Node)
    requires EventsInv(c) && node in c.nodes && r == c.(nodes := c.nodes[node := m]) && LogGrows(c.nodes[node], m)
    ensures EventsInv(r)
  {
    forall i | i in r.events ensures r.events[i].origin in r.nodes && i in r.nodes[r.events[i].origin].log {
      assert i in c.nodes[c.events[i].origin].log;
    }
  }

  lemma RemoteGrowsLog(n: Node, e: Event)
    ensures LogGrows(n, CommitRemote(n, e)) && LogGrows(n, EarlyExit(n, e))
    ensures forall id :: id in CommitRemote(n, e).log ==> id in n.log || (id == e.id && CommitRemote(n, e).log[id] == e)
    ensures forall id :: id in EarlyExit(n, e).log ==> id in n.log || (id == e.id && EarlyExit(n, e).log[id] == e)
  {
  }

  lemma OriginKeepsInv(c: Cluster, node: NodeId, m: Node, e: Event)
    requires Inv(c) && node in c.nodes && e.id !in c.events && e.version > 0 && e.origin == node
    requires m.log == c.nodes[node].log[e.id := e]
    requires AllNewest(m)
    requires forall i :: i in c.events && c.events[i].key == e.key ==> EffectiveVersion(c.events[i]) != EffectiveVersion(e)
    ensures Inv(Cluster(c.nodes[node := m], c.events[e.id := e]))
  {
    var r := Cluster(c.nodes[node := m], c.events[e.id := e]);
    OriginLogKnown(c, r, c.nodes[node], m, e);
    NewEventKeepsEvents(c, r, node, m, e);
    NodeChangeKeepsInv(c, r, node, m);
  }

  lemma OriginLogKnown(c: Cluster, r: Cluster, n: Node, m: Node, e: Event)
    requires LogKnown(c, n) && e.id !in c.events
    requires m.log == n.log[e.id := e] && r.events == c.events[e.id := e]
    ensures LogKnown(r, m) && LogGrows(n, m)
  {
  }

  lemma LocalStepKeepsInv(c: Cluster, s: Step)
    requires Inv(c) && Enabled(c, s) && s.LocalStep?
    ensures Inv(Next(c, s))
  {
    var n := c.nodes[s.node];
    var e := LocalEvent(n, s.node, s.key, s.change, s.now, s.createdAt, s.id);
    var m := CommitLocal(n, s.node, s.key, s.change, s.now, s.createdAt, s.id);
    assert NodeInv(c, n);
    forall j ensures ShowsNewest(m, j) {
      assert ShowsNewest(n, j);
      LocalKeepsNewest(n, s.node, s.key, s.change, s.now, s.createdAt, s.id, j);
    }
    forall i | i in c.events && c.events[i].key == e.key
      ensures EffectiveVersion(c.events[i]) != EffectiveVersion(e)
    {
      LocalVersionIsNew(c, s, i);
    }
    OriginKeepsInv(c, s.node, m, e);
  }

  lemma ReceiverKeepsInv(c: Cluster, node: NodeId, m: Node, e: Event)
    requires Inv(c) && node in c.nodes && e.id in c.events && c.events[e.id] == e
    requires LogGrows(c.nodes[node], m)
    requires forall id :: id in m.log ==> id in c.nodes[node].log || (id == e.id && m.log[id] == e)
    requires AllNewest(m)
    ensures Inv(c.(nodes := c.nodes[node := m]))
  {
    var r := c.(nodes := c.nodes[node := m]);
    assert NodeInv(c, c.nodes[node]);
    LogGrowthKeepsEvents(c, r, node, m);
    NodeChangeKeepsInv(c, r, node, m);
  }

  lemma RemoteStepKeepsInv(c: Cluster, s: Step)
    requires Inv(c) && Enabled(c, s) && !s.LocalStep?
    ensures Inv(Next(c, s))
  {
    var n, e := c.nodes[s.node], c.events[s.event];
    assert NodeInv(c, n);
    forall j ensures ShowsNewest(CommitRemote(n, e), j) && ShowsNewest(EarlyExit(n, e), j) {
      assert ShowsNewest(n, j);
      RemoteKeepsNewest(n, e, j);
    }
    RemoteGrowsLog(n, e);
    ReceiverKeepsInv(c, s.node, if s.EarlyStep? then EarlyExit(n, e) else CommitRemote(n, e), e);
  }

  lemma {:induction false} RunKeepsInv(c: Cluster, steps: seq<Step>)
    requires Inv(c) && Runnable(c, steps)
    ensures Inv(Run(c, steps))
    decreases |steps|
  {
    if steps != [] {
      if steps[0].LocalStep? {
        LocalStepKeepsInv(c, steps[0]);
      } else {
        RemoteStepKeepsInv(c, steps[0]);
      }
      RunKeepsInv(Next(c, steps[0]), steps[1..]);
    }
  }

  // ---------------------------------------------------------------- convergence

  /** Both nodes have processed the same changes to the key. */
  ghost predicate SameChanges(c: Cluster, a: NodeId, b: NodeId, k: Key)
    requires a in c.nodes && b in c.nodes
  {
    forall id :: id in c.events && c.events[id].key == k ==> (id in c.nodes[a].log <==> id in c.nodes[b].log)
  }

  /** Same version, same deleted flag, same content. */
  predicate Agree(m: Node, n: Node, k: Key) {
    && (k in m.recorded <==> k in n.recorded)
    && (k in m.recorded ==> m.recorded[k] == n.recorded[k])
    && (k in m.objects <==> k in n.objects)
    && (k in m.objects ==> m.objects[k] == n.objects[k])
  }

  /** If each node has processed the event the other shows, they show the same one. */
  lemma ShownEventsAgree(c: Cluster, a: NodeId, b: NodeId, k: Key)
    requires Inv(c) && a in c.nodes && b in c.nodes && SameChanges(c, a, b, k)
    ensures Agree(c.nodes[a], c.nodes[b], k)
  {
    var m, n := c.nodes[a], c.nodes[b];
    assert NodeInv(c, m) && NodeInv(c, n);
    assert ShowsNewest(m, k) && ShowsNewest(n, k);
    if k in m.recorded {
      var i :| i in m.log && m.log[i].key == k && Shows(m, k, m.log[i]);
      assert i in n.log;
      var j :| j in n.log && n.log[j].key == k && Shows(n, k, n.log[j]);
      assert j in m.log;
      OrderTotal(EffectiveVersion(c.events[i]), EffectiveVersion(c.events[j]));
      assert i == j;
    }
  }

  /**
   * Convergence. Whatever the nodes, the order, repetition and retries of deliveries and the clocks, two
   * nodes that have processed the same changes to a key hold the same version, deleted flag and content.
   */
  lemma Convergence(c: Cluster, steps: seq<Step>, a: NodeId, b: NodeId, k: Key)
    requires Initial(c) && Runnable(c, steps)
    requires a in Run(c, steps).nodes && b in Run(c, steps).nodes && SameChanges(Run(c, steps), a, b, k)
    ensures Agree(Run(c, steps).nodes[a], Run(c, steps).nodes[b], k)
  {
    RunKeepsInv(c, steps);
    ShownEventsAgree(Run(c, steps), a, b, k);
  }

  /** A node that has processed the newest change to a key shows it, whatever else it has or has not seen. */
  lemma NewestChangeWins(c: Cluster, steps: seq<Step>, node: NodeId, id: EventId)
    requires Initial(c) && Runnable(c, steps)
    requires var r := Run(c, steps);
             && node in r.nodes && id in r.nodes[node].log && id in r.events
             && forall i :: i in r.events && r.events[i].key == r.events[id].key ==>
                  AtLeast(EffectiveVersion(r.events[id]), EffectiveVersion(r.events[i]))
    ensures var r := Run(c, steps); Shows(r.nodes[node], r.events[id].key, r.events[id])
  {
    RunKeepsInv(c, steps);
    var r := Run(c, steps);
    var n, k := r.nodes[node], r.events[id].key;
    assert NodeInv(r, n) && ShowsNewest(n, k);
    var i :| i in n.log && n.log[i].key == k && Shows(n, k, n.log[i]);
    OrderTotal(EffectiveVersion(r.events[i]), EffectiveVersion(r.events[id]));
    assert i == id;
  }

  // ---------------------------------------------------------------- delivery always gets there

  /** Deliveries still to be made: a node and an event it has not logged. */
  ghost function Undelivered(c: Cluster): set<(NodeId, EventId)> {
    set node, id | node in c.nodes && id in c.events && id !in c.nodes[node].log :: (node, id)
  }

  ghost predicate AllDelivered(c: Cluster) {
    forall node, id :: node in c.nodes && id in c.events ==> id in c.nodes[node].log
  }

  lemma {:induction false} Prepend(c: Cluster, next: Cluster, s: Step, rest: seq<Step>)
    requires Enabled(c, s) && Next(c, s) == next && Runnable(next, rest)
    ensures Runnable(c, [s] + rest) && Run(c, [s] + rest) == Run(next, rest)
  {
    assert ([s] + rest)[1..] == rest;
  }

  lemma RemoteLogs(n: Node, e: Event)
    ensures CommitRemote(n, e).log.Keys == n.log.Keys + {e.id}
  {
  }

  lemma UndeliveredShrinks(c: Cluster, r: Cluster, node: NodeId, id: EventId, m: Node)
    requires node in c.nodes && id in c.events && id !in c.nodes[node].log
    requires r.events == c.events && r.nodes == c.nodes[node := m] && m.log.Keys == c.nodes[node].log.Keys + {id}
    ensures Undelivered(r) < Undelivered(c)
  {
    assert (node, id) in Undelivered(c) && (node, id) !in Undelivered(r);
    forall p | p in Undelivered(r) ensures p in Undelivered(c) {
      assert p.0 != node ==> r.nodes[p.0] == c.nodes[p.0];
    }
  }

  lemma DeliveryShrinks(c: Cluster, node: NodeId, id: EventId)
    requires EventsInv(c) && node in c.nodes && id in c.events && id !in c.nodes[node].log
    ensures Undelivered(Next(c, CommitStep(node, id))) < Undelivered(c)
  {
    assert c.events[id].id == id;
    RemoteLogs(c.nodes[node], c.events[id]);
    UndeliveredShrinks(c, Next(c, CommitStep(node, id)), node, id, CommitRemote(c.nodes[node], c.events[id]));
  }

  /** One delivery of an event that a node has not logged. */
  lemma DeliverOne(c: Cluster, node: NodeId, id: EventId, next: Cluster)
    requires Inv(c) && node in c.nodes && id in c.events && id !in c.nodes[node].log
    requires next == Next(c, CommitStep(node, id))
    ensures Inv(next) && next.events == c.events && next.nodes.Keys == c.nodes.Keys && Undelivered(next) < Undelivered(c)
  {
    RemoteStepKeepsInv(c, CommitStep(node, id));
    DeliveryShrinks(c, node, id);
  }

  lemma {:induction false} DeliverThen(c: Cluster, node: NodeId, id: EventId, next: Cluster, rest: seq<Step>, r: Cluster)
    requires Enabled(c, CommitStep(node, id)) && next == Next(c, CommitStep(node, id))
    requires Runnable(next, rest) && Run(next, rest) == r
    ensures Runnable(c, [CommitStep(node, id)] + rest) && Run(c, [CommitStep(node, id)] + rest) == r
  {
    Prepend(c, next, CommitStep(node, id), rest);
  }

  /** Whatever the state, some run of deliveries brings every event to every node. */
  lemma {:induction false} DeliverAll(c: Cluster) returns (steps: seq<Step>, r: Cluster)
    requires Inv(c)
    ensures Runnable(c, steps) && Run(c, steps) == r && Inv(r) && AllDelivered(r)
    ensures r.events == c.events && r.nodes.Keys == c.nodes.Keys
    decreases Undelivered(c)
  {
    if node, id :| node in c.nodes && id in c.events && id !in c.nodes[node].log {
      var next := Next(c, CommitStep(node, id));
      DeliverOne(c, node, id, next);
      var rest;
      rest, r := DeliverAll(next);
      DeliverThen(c, node, id, next, rest, r);
      steps := [CommitStep(node, id)] + rest;
    } else {
      steps, r := [], c;
    }
  }

  ghost predicate AllAgree(c: Cluster) {
    forall a, b, k :: a in c.nodes && b in c.nodes ==> Agree(c.nodes[a], c.nodes[b], k)
  }

  /** Some further run keeps the changes as they are and makes all nodes agree on every key. */
  ghost predicate CanAgree(c: Cluster) {
    exists more :: Runnable(c, more) && Run(c, more).events == c.events && AllAgree(Run(c, more))
  }

  /** From every reachable state the deliveries still to be made can be made, and then all nodes agree on every key. */
  lemma EventuallyAllAgree(c: Cluster, steps: seq<Step>)
    requires Initial(c) && Runnable(c, steps)
    ensures CanAgree(Run(c, steps))
  {
    RunKeepsInv(c, steps);
    var more, r := DeliverAll(Run(c, steps));
    forall a, b, k | a in r.nodes && b in r.nodes ensures Agree(r.nodes[a], r.nodes[b], k) {
      ShownEventsAgree(r, a, b, k);
    }
    assert AllAgree(r);
  }

  // ---------------------------------------------------------------- events without versions

  /** Events delivered one after the other. */
  function Delivered(n: Node, es: seq<Event>): Node
    decreases |es|
  {
    if es == [] then n else Delivered(ApplyEvent(n, es[0]), es[1..])
  }

  /** The same events in some order, some perhaps more than once. */
  ghost predicate SameEvents(xs: seq<Event>, es: seq<Event>) {
    forall e :: e in xs <==> e in es
  }

  /** The node has seen nothing of the key and none of the events, and an event id names one event. */
  ghost predicate Unseen(n: Node, k: Key, es: seq<Event>) {
    && k !in n.recorded && k !in n.objects && (forall id :: id in n.log ==> n.log[id].key != k)
    && (forall e :: e in es ==> e.id !in n.log)
    && (forall d, e :: d in es && e in es && d.id == e.id ==> d == e)
  }

  /** No event of the key among them is newer. */
  ghost predicate Top(es: seq<Event>, k: Key, e: Event) {
    && e in es && e.key == k
    && forall d :: d in es && d.key == k ==> AtLeast(EffectiveVersion(e), EffectiveVersion(d))
  }

  /** All the newest events of the key make the same change. */
  ghost predicate TopAgree(es: seq<Event>, k: Key) {
    forall d, e :: Top(es, k, d) && Top(es, k, e) ==> d.change == e.change
  }

  /** The node shows the newest of what it has logged for the key, all of it from these events. */
  ghost predicate FedBy(n: Node, es: seq<Event>, k: Key) {
    && ShowsNewest(n, k)
    && (forall id :: id in n.log && n.log[id].key == k ==> n.log[id] in es)
    && (forall e :: e in es && e.id in n.log ==> n.log[e.id] == e)
    && (forall d, e :: d in es && e in es && d.id == e.id ==> d == e)
  }

  lemma ApplyKeepsFed(n: Node, es: seq<Event>, k: Key, e: Event)
    requires FedBy(n, es, k) && e in es
    ensures FedBy(ApplyEvent(n, e), es, k) && e.id in ApplyEvent(n, e).log && LogGrows(n, ApplyEvent(n, e))
  {
    RemoteKeepsNewest(n, e, k);
    RemoteGrowsLog(n, e);
  }

  lemma {:induction false} DeliveryKeepsFed(n: Node, es: seq<Event>, k: Key, xs: seq<Event>)
    requires FedBy(n, es, k) && forall e :: e in xs ==> e in es
    ensures FedBy(Delivered(n, xs), es, k) && LogGrows(n, Delivered(n, xs))
    ensures forall e :: e in xs ==> e.id in Delivered(n, xs).log
    decreases |xs|
  {
    if xs != [] {
      var m := ApplyEvent(n, xs[0]);
      ApplyKeepsFed(n, es, k, xs[0]);
      assert forall e :: e in xs[1..] ==> e in xs;
      DeliveryKeepsFed(m, es, k, xs[1..]);
      assert xs == [xs[0]] + xs[1..];
    }
  }

  /** A node that has all the events shows one of the newest, or nothing if there is none for the key. */
  lemma {:induction false} FullyFedShowsTop(n: Node, es: seq<Event>, k: Key)
    requires FedBy(n, es, k) && forall e :: e in es ==> e.id in n.log
    ensures k in n.recorded <==> exists e :: e in es && e.key == k
    ensures k in n.recorded ==> exists e :: Top(es, k, e) && Shows(n, k, e)
    ensures k !in n.recorded ==> k !in n.objects
  {
    if e :| e in es && e.key == k {
      assert n.log[e.id] == e;
    }
    if k in n.recorded {
      var id :| id in n.log && n.log[id].key == k && Shows(n, k, n.log[id]);
      forall d | d in es && d.key == k ensures AtLeast(EffectiveVersion(n.log[id]), EffectiveVersion(d)) {
        assert n.log[d.id] == d;
      }
      assert Top(es, k, n.log[id]);
    }
  }

  lemma {:induction false} TopAgreeSuffices(m: Node, n: Node, es: seq<Event>, k: Key)
    requires FedBy(m, es, k) && FedBy(n, es, k) && TopAgree(es, k)
    requires forall e :: e in es ==> e.id in m.log && e.id in n.log
    ensures Agree(m, n, k)
  {
    FullyFedShowsTop(m, es, k);
    FullyFedShowsTop(n, es, k);
    if k in m.recorded {
      var d :| Top(es, k, d) && Shows(m, k, d);
      var e :| Top(es, k, e) && Shows(n, k, e);
      OrderTotal(EffectiveVersion(d), EffectiveVersion(e));
      ShowsDecidesAgreement(m, n, k, d, e);
    }
  }

  lemma ShowsDecidesAgreement(m: Node, n: Node, k: Key, d: Event, e: Event)
    requires Shows(m, k, d) && Shows(n, k, e)
    ensures Agree(m, n, k) <==> EffectiveVersion(d) == EffectiveVersion(e) && d.change == e.change
  {
  }

  /** A shown event stays while nothing newer is delivered. */
  lemma {:induction false} ShownStays(n: Node, k: Key, d: Event, xs: seq<Event>)
    requires Shows(n, k, d)
    requires forall e :: e in xs && e.key == k ==> AtLeast(EffectiveVersion(d), EffectiveVersion(e))
    ensures Shows(Delivered(n, xs), k, d)
    decreases |xs|
  {
    if xs != [] {
      assert xs[0] in xs;
      assert forall e :: e in xs[1..] ==> e in xs;
      ShownStays(ApplyEvent(n, xs[0]), k, d, xs[1..]);
    }
  }

  lemma {:induction false} FirstTopIsShown(n: Node, k: Key, es: seq<Event>, d: Event)
    requires Unseen(n, k, es) && Top(es, k, d)
    ensures SameEvents([d] + es, es) && Shows(Delivered(n, [d] + es), k, d)
  {
    assert ([d] + es)[1..] == es;
    assert Shows(ApplyEvent(n, d), k, d);
    ShownStays(ApplyEvent(n, d), k, d, es);
  }

  /** These two deliveries of the events, if that is what they are, end alike. */
  ghost predicate EndAlike(n: Node, es: seq<Event>, k: Key, xs: seq<Event>, ys: seq<Event>) {
    SameEvents(xs, es) && SameEvents(ys, es) ==> Agree(Delivered(n, xs), Delivered(n, ys), k)
  }

  ghost predicate OrderIndependent(n: Node, es: seq<Event>, k: Key) {
    forall xs: seq<Event>, ys: seq<Event> :: EndAlike(n, es, k, xs, ys)
  }

  lemma {:induction false} AnyOrderAgrees(n: Node, es: seq<Event>, k: Key, xs: seq<Event>, ys: seq<Event>)
    requires Unseen(n, k, es) && TopAgree(es, k)
    ensures EndAlike(n, es, k, xs, ys)
  {
    if SameEvents(xs, es) && SameEvents(ys, es) {
      DeliveryKeepsFed(n, es, k, xs);
      DeliveryKeepsFed(n, es, k, ys);
      TopAgreeSuffices(Delivered(n, xs), Delivered(n, ys), es, k);
    }
  }

  lemma {:induction false} TwoTopsDisagree(n: Node, es: seq<Event>, k: Key, d: Event, e: Event)
    requires Unseen(n, k, es) && Top(es, k, d) && Top(es, k, e)
    ensures EndAlike(n, es, k, [d] + es, [e] + es) ==> d.change == e.change
  {
    FirstTopIsShown(n, k, es, d);
    FirstTopIsShown(n, k, es, e);
    ShowsDecidesAgreement(Delivered(n, [d] + es), Delivered(n, [e] + es), k, d, e);
  }

  lemma {:induction false} TopAgreeIsEnough(n: Node, es: seq<Event>, k: Key)
    requires Unseen(n, k, es) && TopAgree(es, k)
    ensures OrderIndependent(n, es, k)
  {
    forall xs: seq<Event>, ys: seq<Event> ensures EndAlike(n, es, k, xs, ys) {
      AnyOrderAgrees(n, es, k, xs, ys);
    }
  }

  lemma {:induction false} TopsEndAlike(n: Node, es: seq<Event>, k: Key, d: Event, e: Event)
    requires Unseen(n, k, es) && OrderIndependent(n, es, k) && Top(es, k, d) && Top(es, k, e)
    ensures d.change == e.change
  {
    assert EndAlike(n, es, k, [d] + es, [e] + es);
    TwoTopsDisagree(n, es, k, d, e);
  }

  lemma {:induction false} TopAgreeIsNeeded(n: Node, es: seq<Event>, k: Key)
    requires Unseen(n, k, es) && OrderIndependent(n, es, k)
    ensures TopAgree(es, k)
  {
    forall d, e | Top(es, k, d) && Top(es, k, e) ensures d.change == e.change {
      TopsEndAlike(n, es, k, d, e);
    }
  }

  /**
   * Any events, versioned or not, leave a key in the same state in every order and with any repetition if and
   * only if all the newest ones make the same change.
   */
  lemma {:induction false} OrderIndependentIff(n: Node, es: seq<Event>, k: Key)
    requires Unseen(n, k, es)
    ensures OrderIndependent(n, es, k) <==> TopAgree(es, k)
  {
    if TopAgree(es, k) { TopAgreeIsEnough(n, es, k); }
    if OrderIndependent(n, es, k) { TopAgreeIsNeeded(n, es, k); }
  }

  /** Two puts that an older node made within one second carry no version: the first one delivered stays. */
  lemma UnversionedEventsDiverge(a: Content, b: Content)
    requires a != b
    ensures
      var d, e := Event(1, "n1", "k", Put(a), 100, 0), Event(2, "n1", "k", Put(b), 100, 0);
      !OrderIndependent(Node(map[], map[], map[]), [d, e], "k")
  {
    var d, e := Event(1, "n1", "k", Put(a), 100, 0), Event(2, "n1", "k", Put(b), 100, 0);
    OrderTotal(EffectiveVersion(d), EffectiveVersion(e));
    assert Top([d, e], "k", d) && Top([d, e], "k", e);
    OrderIndependentIff(Node(map[], map[], map[]), [d, e], "k");
  }

  // ---------------------------------------------------------------- tombstones

  /** A key recorded as deleted has no live object. */
  predicate TombstoneHolds(n: Node, k: Key) {
    k in n.recorded && n.recorded[k].deleted ==> k !in n.objects
  }

  /** Heal of an object missing here: refused over a tombstone or an object; records the copy's version if newer. */
  function RestoreAbsent(n: Node, k: Key, copy: Content, version: Option<Version>): Node {
    if (k in n.recorded && n.recorded[k].deleted) || k in n.objects then n
    else
      var restored := n.(objects := n.objects[k := copy]);
      if version.Some? && (k !in n.recorded || Less(n.recorded[k].version, version.value)) then
        restored.(recorded := n.recorded[k := KeyVersion(version.value, false)])
      else restored
  }

  /** Heal of damaged bytes: only over a live object of exactly that version, without a hook. */
  function HealDamaged(n: Node, k: Key, expected: Etag, copy: Content): Node {
    if k in n.objects && Digest(n.objects[k]) == expected && Digest(copy) == expected then
      n.(objects := n.objects[k := copy])
    else n
  }

  /** A live row whose blob is gone is dropped by reconciliation; no version changes. */
  function LoseObject(n: Node, k: Key): Node {
    n.(objects := n.objects - {k})
  }

  datatype NodeStep =
    | Local(key: Key, change: Change, now: int, createdAt: int, id: EventId)
    | Early(event: Event)
    | Remote(event: Event)
    | HealAbsent(key: Key, copy: Content, version: Option<Version>)
    | HealVersion(key: Key, expected: Etag, copy: Content)
    | Lose(key: Key)

  /** One step of a node whose rules exclude the keys in `excluded`. */
  function NodeNext(n: Node, self: NodeId, excluded: set<Key>, s: NodeStep): Node {
    match s
    case Local(k, change, now, createdAt, id) =>
      if k in excluded then CommitUnreplicated(n, k, change)
      else CommitLocal(n, self, k, change, now, createdAt, id)
    case Early(e) => EarlyExit(n, e)
    case Remote(e) => CommitRemote(n, e)
    case HealAbsent(k, copy, version) => RestoreAbsent(n, k, copy, version)
    case HealVersion(k, expected, copy) => HealDamaged(n, k, expected, copy)
    case Lose(k) => LoseObject(n, k)
  }

  function NodeRun(n: Node, self: NodeId, excluded: set<Key>, steps: seq<NodeStep>): Node
    decreases |steps|
  {
    if steps == [] then n else NodeRun(NodeNext(n, self, excluded, steps[0]), self, excluded, steps[1..])
  }

  lemma StepHoldsTombstone(n: Node, self: NodeId, excluded: set<Key>, s: NodeStep, k: Key)
    requires TombstoneHolds(n, k) && k !in excluded
    ensures var r := NodeNext(n, self, excluded, s);
            && TombstoneHolds(r, k)
            && (k in n.recorded ==> k in r.recorded && AtLeast(r.recorded[k].version, n.recorded[k].version))
            && (k in n.recorded && n.recorded[k].deleted && k in r.objects ==>
                  Less(n.recorded[k].version, r.recorded[k].version))
  {
    var r := NodeNext(n, self, excluded, s);
    if k in n.recorded {
      OrderTotal(n.recorded[k].version, n.recorded[k].version);
      OrderTotal(r.recorded[k].version, n.recorded[k].version);
    }
  }

  /**
   * Tombstones hold. Over any mix of local changes, late remote events and both heal forms, with clocks
   * that step back, a key recorded as deleted has no live object, recorded versions never decrease, and
   * a deleted key is live again only under a strictly greater version.
   */
  lemma {:induction false} TombstonesHold(n: Node, self: NodeId, excluded: set<Key>, steps: seq<NodeStep>, k: Key)
    requires TombstoneHolds(n, k) && k !in excluded
    ensures var r := NodeRun(n, self, excluded, steps);
            && TombstoneHolds(r, k)
            && (k in n.recorded ==> k in r.recorded && AtLeast(r.recorded[k].version, n.recorded[k].version))
            && (k in n.recorded && n.recorded[k].deleted && k in r.objects ==>
                  Less(n.recorded[k].version, r.recorded[k].version))
    decreases |steps|
  {
    if steps == [] {
      if k in n.recorded {
        OrderTotal(n.recorded[k].version, n.recorded[k].version);
      }
    } else {
      var m := NodeNext(n, self, excluded, steps[0]);
      var r := NodeRun(n, self, excluded, steps);
      StepHoldsTombstone(n, self, excluded, steps[0], k);
      TombstonesHold(m, self, excluded, steps[1..], k);
      if k in n.recorded {
        OrderTransitive(n.recorded[k].version, m.recorded[k].version, r.recorded[k].version);
        OrderTotal(n.recorded[k].version, m.recorded[k].version);
        OrderTotal(n.recorded[k].version, r.recorded[k].version);
        OrderTotal(m.recorded[k].version, r.recorded[k].version);
        assert k in r.objects && n.recorded[k].deleted && n.recorded[k].version == m.recorded[k].version ==>
                 m.recorded[k].deleted by {
          StillTheTombstone(n, self, excluded, steps[0], k);
        }
      }
    }
  }

  /** A step that leaves the version alone leaves the deleted flag alone. */
  lemma StillTheTombstone(n: Node, self: NodeId, excluded: set<Key>, s: NodeStep, k: Key)
    requires k in n.recorded && k in NodeNext(n, self, excluded, s).recorded
    ensures NodeNext(n, self, excluded, s).recorded[k].version == n.recorded[k].version ==>
              NodeNext(n, self, excluded, s).recorded[k] == n.recorded[k]
  {
    OrderTotal(n.recorded[k].version, n.recorded[k].version);
  }

  /**
   * A local put keeps the tombstone law exactly when its key is versioned here or has no tombstone. A key
   * this node's rules exclude while a peer replicates it gets tombstones its own puts do not lift.
   */
  lemma LocalPutHoldsTombstoneIff(n: Node, self: NodeId, excluded: set<Key>, k: Key, c: Content, now: int,
                                  createdAt: int, id: EventId)
    requires TombstoneHolds(n, k)
    ensures TombstoneHolds(NodeNext(n, self, excluded, Local(k, Put(c), now, createdAt, id)), k)
       <==> k !in excluded || k !in n.recorded || !n.recorded[k].deleted
  {
  }

  const Blank := Node(map[], map[], map[])

  /** A peer's delete of a key this node's rules exclude, then a put of it here. */
  function PutOverForeignDelete(k: Key, c: Content): seq<NodeStep> {
    [Remote(Event(1, "peer", k, Delete, 100, 5)), Local(k, Put(c), 6, 100, 2)]
  }

  lemma ForeignDeleteStays(self: NodeId, excluded: set<Key>, k: Key, c: Content)
    requires k in excluded
    ensures !TombstoneHolds(NodeRun(Blank, self, excluded, PutOverForeignDelete(k, c)), k)
  {
    var steps := PutOverForeignDelete(k, c);
    var n := NodeNext(Blank, self, excluded, steps[0]);
    var m := NodeNext(n, self, excluded, steps[1]);
    assert steps[1..][0] == steps[1] && steps[1..][1..] == [];
    assert NodeRun(n, self, excluded, steps[1..]) == NodeRun(m, self, excluded, []);
  }

  /** From an empty node, a deleted key never has an object in any run exactly when the rules replicate the key. */
  lemma TombstoneLawIff(self: NodeId, excluded: set<Key>, k: Key)
    ensures (forall steps: seq<NodeStep> :: TombstoneHolds(NodeRun(Blank, self, excluded, steps), k)) <==> k !in excluded
  {
    if k in excluded {
      ForeignDeleteStays(self, excluded, k, Content([]));
    } else {
      forall steps: seq<NodeStep> ensures TombstoneHolds(NodeRun(Blank, self, excluded, steps), k) {
        TombstonesHold(Blank, self, excluded, steps, k);
      }
    }
  }

  // ---------------------------------------------------------------- a node's tables, changed in place

  class Replica {
    const self: NodeId
    const excluded: set<Key>
    var recorded: map<Key, KeyVersion>
    var objects: map<Key, Content>
    var log: map<EventId, Event>
    var damaged: set<Key>  // objects whose stored bytes do not read back

    constructor (self: NodeId, excluded: set<Key>)
      ensures View() == Node(map[], map[], map[]) && this.self == self && this.excluded == excluded && damaged == {}
    {
      this.self, this.excluded := self, excluded;
      recorded, objects, log, damaged := map[], map[], map[], {};
    }

    /** The node shows this change of the key. */
    predicate Shows(k: Key, change: Change)
      reads this`objects
    {
      if change.Delete? then k !in objects else k in objects && objects[k] == change.content
    }

    ghost function View(): Node
      reads this
    {
      Node(recorded, objects, log)
    }

    /** `store_local`: the UPSERT that hands out a local change's version. */
    method StoreLocal(k: Key, now: int, deleted: bool) returns (micros: int)
      modifies this`recorded
      ensures micros == NextMicros(old(View()), k, now)
      ensures recorded == old(recorded)[k := KeyVersion(Version(micros, self), deleted)]
    {
      micros := now;
      if k in recorded {
        var next := recorded[k].version.micros + 1;
        if next > micros {
          micros := next;
        }
      }
      recorded := recorded[k := KeyVersion(Version(micros, self), deleted)];
    }

    method CommitObject(k: Key, change: Change)
      modifies this`objects, this`damaged
      ensures View() == WithObject(old(View()), k, change)
      ensures Shows(k, change) && objects - {k} == old(objects) - {k} && damaged == old(damaged) - {k}
    {
      damaged := damaged - {k};
      match change {
        case Put(c) => objects := objects[k := c];
        case Delete => objects := objects - {k};
      }
    }

    /** A change made here: committed, then versioned and queued by `LocalChange::after`. */
    method Change(k: Key, change: Change, now: int, createdAt: int, id: EventId)
      modifies this
      ensures View() == NodeNext(old(View()), self, excluded, Local(k, change, now, createdAt, id))
      ensures Shows(k, change) && objects - {k} == old(objects) - {k} && damaged == old(damaged) - {k}
      ensures k in excluded ==> recorded == old(recorded) && log == old(log)
      ensures k !in excluded ==> k in recorded && recorded[k].version.origin == self && recorded[k].deleted == change.Delete?
      ensures k !in excluded ==> recorded[k].version.micros >= now
      ensures k !in excluded && k in old(recorded) ==> recorded[k].version.micros > old(recorded)[k].version.micros
      ensures k !in excluded ==> log == old(log)[id := Event(id, self, k, change, createdAt, recorded[k].version.micros)]
      ensures recorded - {k} == old(recorded) - {k}
    {
      CommitObject(k, change);
      if k in excluded {
        return;
      }
      var micros := StoreLocal(k, now, change.Delete?);
      log := log[id := Event(id, self, k, change, createdAt, micros)];
    }

    method KeepEvent(e: Event)
      modifies this`log
      ensures View() == RecordApplied(old(View()), e)
    {
      if e.id !in log {
        log := log[e.id := e];
      }
    }

    method IsRefused(e: Event) returns (refused: bool)
      ensures refused == Refused(View(), e)
    {
      refused := e.key in recorded && AtLeast(recorded[e.key].version, EffectiveVersion(e));
    }

    /** The locked part of `apply_event`, under the `RemoteChange` hook. */
    method ApplyLocked(e: Event)
      modifies this
      ensures View() == CommitRemote(old(View()), e)
      ensures e.key !in old(recorded) || Less(old(recorded)[e.key].version, EffectiveVersion(e)) ==>
        Shows(e.key, e.change) && recorded == old(recorded)[e.key := KeyVersion(EffectiveVersion(e), e.change.Delete?)]
      ensures e.key in old(recorded) && !Less(old(recorded)[e.key].version, EffectiveVersion(e)) ==>
        objects == old(objects) && recorded == old(recorded)
      ensures objects - {e.key} == old(objects) - {e.key}
      ensures log == if e.id in old(log) then old(log) else old(log)[e.id := e]
    {
      var refused := IsRefused(e);
      if refused {
        KeepEvent(e);
        return;
      }
      CommitObject(e.key, e.change);
      recorded := recorded[e.key := KeyVersion(EffectiveVersion(e), e.change.Delete?)];
      KeepEvent(e);
    }

    /** `apply_event`: seen before, too old, or committed under the key's lock. */
    method Apply(e: Event)
      modifies this
      ensures View() == ApplyEvent(old(View()), e)
      ensures e.id in old(log) ==> View() == old(View())
      ensures e.id !in old(log) ==> log == old(log)[e.id := e]
      ensures e.id !in old(log) && (e.key !in old(recorded) || Less(old(recorded)[e.key].version, EffectiveVersion(e))) ==>
        Shows(e.key, e.change) && recorded == old(recorded)[e.key := KeyVersion(EffectiveVersion(e), e.change.Delete?)]
      ensures e.key in old(recorded) && !Less(old(recorded)[e.key].version, EffectiveVersion(e)) ==>
        objects == old(objects) && recorded == old(recorded)
      ensures objects - {e.key} == old(objects) - {e.key}
    {
      if e.id in log {
        return;
      }
      var tooOld := IsRefused(e);
      if tooOld {
        KeepEvent(e);
      } else {
        ApplyLocked(e);
      }
    }

    /** Heal of a missing object under the `Restore` hook. */
    method Restore(k: Key, copy: Content, version: Option<Version>) returns (healed: bool)
      modifies this
      ensures View() == RestoreAbsent(old(View()), k, copy, version)
      ensures healed <==> k !in old(objects) && !(k in old(recorded) && old(recorded)[k].deleted)
      ensures healed ==> k in objects && objects[k] == copy && k !in damaged
      ensures healed && version.Some? && (k !in old(recorded) || Less(old(recorded)[k].version, version.value)) ==>
        recorded == old(recorded)[k := KeyVersion(version.value, false)]
      ensures healed && (version.None? || (k in old(recorded) && !Less(old(recorded)[k].version, version.value))) ==>
        recorded == old(recorded)
      ensures objects - {k} == old(objects) - {k} && log == old(log)
      ensures !healed ==> View() == old(View()) && damaged == old(damaged)
    {
      if k in recorded && recorded[k].deleted {
        return false;
      }
      if k in objects {
        return false;
      }
      CommitObject(k, Put(copy));
      if version.Some? {
        var newer := k !in recorded || Less(recorded[k].version, version.value);
        if newer {
          recorded := recorded[k := KeyVersion(version.value, false)];
        }
      }
      return true;
    }

    /**
     * Heal of damaged bytes from a peer's copy, under `If-Match` with the version that was found damaged. It runs no
     * hook: the bytes read back again, and what the node shows and has recorded stays as it is.
     */
    method HealDamagedBytes(k: Key, expected: Etag, copy: Content) returns (healed: bool)
      modifies this
      ensures View() == HealDamaged(old(View()), k, expected, copy)
      ensures healed <==> k in old(objects) && Digest(old(objects)[k]) == expected && Digest(copy) == expected
      ensures healed ==> k !in damaged && k in objects && objects[k] == copy
      ensures damaged == if healed then old(damaged) - {k} else old(damaged)
      ensures View() == old(View())
    {
      healed := k in objects && Digest(objects[k]) == expected && Digest(copy) == expected;
      if healed {
        CommitObject(k, Put(copy));
        assert objects == old(objects);
      }
    }
  }
}
