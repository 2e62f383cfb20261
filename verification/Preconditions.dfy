/**
 * Conditional writes (`precondition.rs`, and the re-check under the key lock in `write_path.rs` and `engine.rs`).
 * Writers of one key interleave at every statement; what they commit is a sequence of compare-and-swaps.
 */
module Preconditions {
  import opened Common
  import opened Decimal

  /** An active row as far as conditions see it; a row may have no ETag. */
  datatype Meta = Meta(etag: Option<string>)

  // ---------------------------------------------------------------- entity-tag lists

  function Split(s: string): (parts: seq<string>)
    ensures parts != []
    decreases |s|
  {
    match SplitOnce(s, ',')
    case None => [s]
    case Some(p) =>
      assert |s| == |p.0| + 1 + |p.1|;
      [p.0] + Split(p.1)
  }

  function StripWeak(tag: string): string {
    if |tag| >= 2 && tag[0] == 'W' && tag[1] == '/' then tag[2..] else tag
  }

  function TrimQuotesStart(s: string): (t: string)
    ensures |t| <= |s|
  {
    if s != [] && s[0] == '"' then TrimQuotesStart(s[1..]) else s
  }

  function TrimQuotesEnd(s: string): string {
    if s != [] && s[|s| - 1] == '"' then TrimQuotesEnd(s[..|s| - 1]) else s
  }

  /** The tag a list member names: weak prefix and quotes stripped. */
  function TagOf(member: string): string {
    TrimQuotesEnd(TrimQuotesStart(StripWeak(Trim(member))))
  }

  predicate EtagMatches(stored: string, candidate: string) {
    exists i :: 0 <= i < |Split(candidate)| && TagOf(Split(candidate)[i]) == stored
  }

  /** The loop over the list's members. */
  method MatchesAny(stored: string, candidate: string) returns (found: bool)
    ensures found <==> EtagMatches(stored, candidate)
  {
    var members := Split(candidate);
    var i := 0;
    while i < |members|
      invariant 0 <= i <= |members|
      invariant forall j :: 0 <= j < i ==> TagOf(members[j]) != stored
    {
      if TagOf(members[i]) == stored { return true; }
      i := i + 1;
    }
    return false;
  }

  /** A tag as this server issues them: no quotes, commas, spaces or weak prefix. */
  predicate PlainTag(tag: string) {
    && tag != "" && (forall i :: 0 <= i < |tag| ==> tag[i] != '"' && tag[i] != ',' && !IsWhitespace(tag[i]))
    && StripWeak(tag) == tag
  }

  function Quoted(tag: string): string {
    "\"" + tag + "\""
  }

  /** The list a client sends: quoted tags, comma and space between. */
  function TagList(tags: seq<string>): string {
    if tags == [] then "" else if |tags| == 1 then Quoted(tags[0]) else Quoted(tags[0]) + "," + (" " + TagList(tags[1..]))
  }

  lemma QuotedNames(tag: string)
    requires PlainTag(tag)
    ensures TagOf(Quoted(tag)) == tag && ',' !in Quoted(tag)
  {
    var q := Quoted(tag);
    TrimOfTrimmed(q);
    assert StripWeak(q) == q;
    assert q[1..] == tag + "\"" && TrimQuotesStart(q[1..]) == tag + "\"";
    assert (tag + "\"")[..|tag|] == tag;
    assert TrimQuotesEnd(tag) == tag;
  }

  /** A tag is named bare, quoted, weak, and with blanks around it. */
  lemma TagForms(tag: string)
    requires PlainTag(tag)
    ensures TagOf(tag) == tag && TagOf(Quoted(tag)) == tag && TagOf("W/" + Quoted(tag)) == tag
    ensures TagOf(" " + Quoted(tag)) == tag && TagOf(Quoted(tag) + " ") == tag
  {
    QuotedNames(tag);
    BareTag(tag);
    WeakTag(Quoted(tag));
    SpacedTag(Quoted(tag));
    TrimOfTrailing(Quoted(tag));
    TrimOfTrimmed(Quoted(tag));
  }

  lemma BareTag(tag: string)
    requires PlainTag(tag)
    ensures TagOf(tag) == tag
  {
    TrimOfTrimmed(tag);
    assert TrimQuotesStart(tag) == tag && TrimQuotesEnd(tag) == tag;
  }

  lemma WeakTag(q: string)
    requires q != [] && q[0] == '"' && q[|q| - 1] == '"'
    ensures TagOf("W/" + q) == TagOf(q)
  {
    TrimOfTrimmed("W/" + q);
    TrimOfTrimmed(q);
    assert ("W/" + q)[2..] == q && StripWeak(q) == q;
  }

  lemma TrimOfTrailing(s: string)
    requires s != [] && !IsWhitespace(s[0]) && !IsWhitespace(s[|s| - 1])
    ensures Trim(s + " ") == s
  {
    TrimOfTrimmed(s);
    assert (s + " ")[..|s|] == s;
  }

  lemma SpacedTag(member: string)
    ensures TagOf(" " + member) == TagOf(member)
  {
    assert (" " + member)[1..] == member;
  }

  lemma SplitFirst(a: string, b: string)
    requires ',' !in a
    ensures Split(a + "," + b) == [a] + Split(b)
  {
    SplitOnceAt(a, ',', b);
  }

  lemma SplitSpaced(s: string)
    ensures Split(" " + s) == [" " + Split(s)[0]] + Split(s)[1..]
  {
    var t := " " + s;
    assert t[1..] == s && ',' !in " ";
    match SplitOnce(s, ',')
    case None =>
      assert ',' !in t;
    case Some(p) =>
      assert t == (" " + p.0) + "," + p.1;
      SplitFirst(" " + p.0, p.1);
  }

  /** A conditional header lists exactly the tags the client named. */
  lemma {:induction false} ListMatchesMembers(tags: seq<string>, stored: string)
    requires tags != [] && forall i :: 0 <= i < |tags| ==> PlainTag(tags[i])
    ensures EtagMatches(stored, TagList(tags)) <==> stored in tags
  {
    ListMembers(tags);
    var members := Split(TagList(tags));
    if stored in tags {
      var i :| 0 <= i < |tags| && tags[i] == stored;
      assert TagOf(members[i]) == stored;
    }
  }

  lemma SplitNext(q: string, list: string)
    requires ',' !in q
    ensures var members := Split(list);
      Split(q + "," + (" " + list)) == [q] + ([" " + members[0]] + members[1..])
  {
    SplitFirst(q, " " + list);
    SplitSpaced(list);
  }

  predicate NamesAll(tagOf: string -> string, members: seq<string>, tags: seq<string>) {
    |members| == |tags| && forall i :: 0 <= i < |tags| ==> tagOf(members[i]) == tags[i]
  }

  lemma NamesNext(tagOf: string -> string, q: string, spaced: string, members: seq<string>, tag: string, tags: seq<string>)
    requires members != [] && NamesAll(tagOf, members, tags)
    requires tagOf(q) == tag && tagOf(spaced) == tagOf(members[0])
    ensures NamesAll(tagOf, [q] + ([spaced] + members[1..]), [tag] + tags)
  {
    var all := [q] + ([spaced] + members[1..]);
    assert forall i :: 2 <= i < |all| ==> all[i] == members[i - 1];
  }

  lemma ListNext(tagOf: string -> string, tag: string, q: string, list: string, tags: seq<string>)
    requires ',' !in q && tagOf(q) == tag && NamesAll(tagOf, Split(list), tags)
    requires tagOf(" " + Split(list)[0]) == tagOf(Split(list)[0])
    ensures NamesAll(tagOf, Split(q + "," + (" " + list)), [tag] + tags)
  {
    SplitNext(q, list);
    NamesNext(tagOf, q, " " + Split(list)[0], Split(list), tag, tags);
  }

  lemma TagsOfRest(tags: seq<string>)
    requires |tags| > 1 && forall i :: 0 <= i < |tags| ==> PlainTag(tags[i])
    ensures forall i :: 0 <= i < |tags[1..]| ==> PlainTag(tags[1..][i])
    ensures TagList(tags) == Quoted(tags[0]) + "," + (" " + TagList(tags[1..])) && tags == [tags[0]] + tags[1..]
  {
  }

  lemma {:induction false} ListMembers(tags: seq<string>)
    requires tags != [] && forall i :: 0 <= i < |tags| ==> PlainTag(tags[i])
    ensures NamesAll(TagOf, Split(TagList(tags)), tags)
  {
    QuotedNames(tags[0]);
    if |tags| > 1 {
      var rest := tags[1..];
      TagsOfRest(tags);
      ListMembers(rest);
      SpacedTag(Split(TagList(rest))[0]);
      ListNext(TagOf, tags[0], Quoted(tags[0]), TagList(rest), rest);
    } else {
      assert Split(TagList(tags)) == [Quoted(tags[0])];
    }
  }

  // ---------------------------------------------------------------- the check

  predicate CheckWrite(existing: Option<Meta>, ifMatch: Option<string>, ifNoneMatch: Option<string>) {
    if ifNoneMatch == Some("*") && existing.Some? then false
    else if ifMatch.None? then true
    else if existing.None? then false
    else if ifMatch.value == "*" then true
    else existing.value.etag.Some? && EtagMatches(existing.value.etag.value, ifMatch.value)
  }

  /** Some member of the list names the row's ETag. */
  predicate Names(meta: Meta, list: string) {
    meta.etag.Some? && EtagMatches(meta.etag.value, list)
  }

  /**
   * What lets a write through: `If-None-Match: *` wants no object; `If-Match` wants one and, unless it is `*`, an ETag
   * that some member of its list names. Nothing else is looked at.
   */
  lemma CheckWriteIff(existing: Option<Meta>, ifMatch: Option<string>, ifNoneMatch: Option<string>)
    ensures CheckWrite(existing, ifMatch, ifNoneMatch) <==>
      && (ifNoneMatch == Some("*") ==> existing.None?)
      && (ifMatch.Some? ==> existing.Some? && (ifMatch.value == "*" || Names(existing.value, ifMatch.value)))
  {
  }

  /** The check as the code makes it, one early answer after the other. */
  method CheckWritePreconditions(existing: Option<Meta>, ifMatch: Option<string>, ifNoneMatch: Option<string>)
    returns (ok: bool)
    ensures ok <==> CheckWrite(existing, ifMatch, ifNoneMatch)
    ensures ifMatch.None? && ifNoneMatch != Some("*") ==> ok
    ensures ifMatch == Some("*") && ifNoneMatch != Some("*") ==> (ok <==> existing.Some?)
  {
    if ifNoneMatch.Some? && ifNoneMatch.value == "*" && existing.Some? { return false; }
    if ifMatch.None? { return true; }
    if existing.None? { return false; }
    if ifMatch.value == "*" { return true; }
    if existing.value.etag.None? { return false; }
    ok := MatchesAny(existing.value.etag.value, ifMatch.value);
  }

  /** A list in `If-None-Match` never stops a write: only `*` is looked at. */
  lemma NoneMatchListIsIgnored(existing: Option<Meta>, ifMatch: Option<string>, list: string)
    requires list != "*"
    ensures CheckWrite(existing, ifMatch, Some(list)) == CheckWrite(existing, ifMatch, None)
  {
  }

  // ---------------------------------------------------------------- writers of one key

  /** A request: what it requires and the row it leaves (`None` for a delete). */
  datatype Request = Request(ifMatch: Option<string>, ifNoneMatch: Option<string>, leaves: Option<Meta>)

  datatype Commit = Commit(request: Request, replaced: Option<Meta>)

  datatype Writer =
    | Waiting(request: Request)
    | Locked(request: Request)
    | Checked(request: Request)

  type Id = nat

  datatype State = State(row: Option<Meta>, log: seq<Commit>, writers: map<Id, Writer>)

  datatype Step = Arrive(id: Id, request: Request) | Acquire(id: Id) | Check(id: Id) | Write(id: Id) | Leave(id: Id)

  predicate Holds(w: Writer) { !w.Waiting? }

  ghost predicate Enabled(s: State, step: Step) {
    match step
    case Arrive(id, _) => id !in s.writers
    case Acquire(id) => id in s.writers && s.writers[id].Waiting?
                        && forall other :: other in s.writers ==> !Holds(s.writers[other])
    case Check(id) => id in s.writers && s.writers[id].Locked?
                      && CheckWrite(s.row, s.writers[id].request.ifMatch, s.writers[id].request.ifNoneMatch)
    case Write(id) => id in s.writers && s.writers[id].Checked?
    case Leave(id) => id in s.writers  // refused, failed, vetoed or gone
  }

  function Next(s: State, step: Step): State
    requires Enabled(s, step)
  {
    match step
    case Arrive(id, r) => s.(writers := s.writers[id := Waiting(r)])
    case Acquire(id) => s.(writers := s.writers[id := Locked(s.writers[id].request)])
    case Check(id) => s.(writers := s.writers[id := Checked(s.writers[id].request)])
    case Write(id) =>
      var r := s.writers[id].request;
      State(r.leaves, s.log + [Commit(r, s.row)], s.writers - {id})
    case Leave(id) => s.(writers := s.writers - {id})
  }

  /** The row after the first `n` commits. */
  function RowAfter(first: Option<Meta>, log: seq<Commit>, n: nat): Option<Meta>
    requires n <= |log|
  {
    if n == 0 then first else log[n - 1].request.leaves
  }

  /** The committed writes, in order, as atomic compare-and-swaps on a row that starts as `first`. */
  ghost predicate IsHistory(first: Option<Meta>, log: seq<Commit>, row: Option<Meta>) {
    && row == RowAfter(first, log, |log|)
    && forall i :: 0 <= i < |log| ==> log[i].replaced == RowAfter(first, log, i) && Allowed(log[i])
  }

  predicate Allowed(c: Commit) {
    CheckWrite(c.replaced, c.request.ifMatch, c.request.ifNoneMatch)
  }

  ghost predicate Inv(first: Option<Meta>, s: State) {
    && IsHistory(first, s.log, s.row)
    && (forall a, b :: a in s.writers && b in s.writers && Holds(s.writers[a]) && Holds(s.writers[b]) ==> a == b)
    && (forall a :: a in s.writers && s.writers[a].Checked? ==>
          CheckWrite(s.row, s.writers[a].request.ifMatch, s.writers[a].request.ifNoneMatch))
  }

  lemma HistoryGrows(first: Option<Meta>, log: seq<Commit>, row: Option<Meta>, c: Commit)
    requires IsHistory(first, log, row) && c.replaced == row && Allowed(c)
    ensures IsHistory(first, log + [c], c.request.leaves)
  {
    var more := log + [c];
    forall i | 0 <= i < |more| ensures more[i].replaced == RowAfter(first, more, i) && Allowed(more[i]) {
      assert RowAfter(first, more, i) == RowAfter(first, log, i);
      if i < |log| { assert more[i] == log[i]; }
    }
  }

  lemma StepKeepsInv(first: Option<Meta>, s: State, step: Step)
    requires Inv(first, s) && Enabled(s, step)
    ensures Inv(first, Next(s, step))
  {
    if step.Write? {
      var r := Next(s, step);
      HistoryGrows(first, s.log, s.row, Commit(s.writers[step.id].request, s.row));
      assert forall a :: a in r.writers ==> !Holds(r.writers[a]);
    }
  }

  ghost predicate Runnable(s: State, steps: seq<Step>)
    decreases |steps|
  {
    steps == [] || (Enabled(s, steps[0]) && Runnable(Next(s, steps[0]), steps[1..]))
  }

  ghost function Run(s: State, steps: seq<Step>): State
    requires Runnable(s, steps)
    decreases |steps|
  {
    if steps == [] then s else Run(Next(s, steps[0]), steps[1..])
  }

  lemma {:induction false} RunKeepsInv(first: Option<Meta>, s: State, steps: seq<Step>)
    requires Inv(first, s) && Runnable(s, steps)
    ensures Inv(first, Run(s, steps))
    decreases |steps|
  {
    if steps != [] {
      StepKeepsInv(first, s, steps[0]);
      RunKeepsInv(first, Next(s, steps[0]), steps[1..]);
    }
  }

  /** In every interleaving each committed If-Match write replaced a version it named. */
  lemma WritesAreSwaps(first: Option<Meta>, steps: seq<Step>, i: nat)
    requires Runnable(State(first, [], map[]), steps)
    requires i < |Run(State(first, [], map[]), steps).log|
    ensures var r := Run(State(first, [], map[]), steps);
      var c := r.log[i];
      && IsHistory(first, r.log, r.row)
      && (c.request.ifMatch.Some? ==> c.replaced.Some?)
      && (c.request.ifMatch.Some? && c.request.ifMatch.value != "*" ==>
            c.replaced.value.etag.Some? && EtagMatches(c.replaced.value.etag.value, c.request.ifMatch.value))
      && (c.request.ifNoneMatch == Some("*") ==> c.replaced.None?)
  {
    RunKeepsInv(first, State(first, [], map[]), steps);
  }

  lemma {:induction false} Prepend(s: State, next: State, step: Step, rest: seq<Step>)
    requires Enabled(s, step) && Next(s, step) == next && Runnable(next, rest)
    ensures Runnable(s, [step] + rest) && Run(s, [step] + rest) == Run(next, rest)
  {
    assert ([step] + rest)[1..] == rest;
  }

  /** The conditions of a request, met by a row. */
  predicate Met(row: Option<Meta>, r: Request) {
    && (r.ifNoneMatch == Some("*") ==> row.None?)
    && (r.ifMatch.Some? ==> row.Some? && (r.ifMatch.value == "*" || Names(row.value, r.ifMatch.value)))
  }

  /**
   * No writer is refused without cause: one that gets the lock can check and write exactly when its conditions are met,
   * and the row is then what it leaves.
   */
  lemma MetConditionsCommit(s: State, id: Id)
    requires id in s.writers && s.writers[id].Waiting?
    requires forall other :: other in s.writers ==> !Holds(s.writers[other])
    ensures var r := s.writers[id].request; var steps := [Acquire(id)] + ([Check(id)] + ([Write(id)] + []));
      && (Runnable(s, steps) <==> Met(s.row, r))
      && (Runnable(s, steps) ==> Run(s, steps) == State(r.leaves, s.log + [Commit(r, s.row)], s.writers - {id}))
  {
    var r, steps := s.writers[id].request, [Acquire(id)] + ([Check(id)] + ([Write(id)] + []));
    var s1 := s.(writers := s.writers[id := Locked(r)]);
    CheckWriteIff(s.row, r.ifMatch, r.ifNoneMatch);
    if Met(s.row, r) {
      var s2 := s.(writers := s.writers[id := Checked(r)]);
      var s3 := State(r.leaves, s.log + [Commit(r, s.row)], s.writers - {id});
      assert s2.writers - {id} == s.writers - {id};
      Prepend(s2, s3, Write(id), []);
      Prepend(s1, s2, Check(id), [Write(id)] + []);
      Prepend(s, s1, Acquire(id), [Check(id)] + ([Write(id)] + []));
    } else {
      assert steps[1..] == [Check(id)] + ([Write(id)] + []);
      assert Next(s, steps[0]) == s1 && !Enabled(s1, steps[1..][0]);
    }
  }

  lemma HistorySeparates(first: Option<Meta>, log: seq<Commit>, row: Option<Meta>, i: nat, j: nat)
    requires IsHistory(first, log, row) && i < j < |log|
    requires log[i].request.leaves.Some? && log[j].request.ifNoneMatch == Some("*")
    ensures exists k :: i < k < j && log[k].request.leaves.None?
  {
    assert Allowed(log[j]) && log[j].replaced == RowAfter(first, log, j);
    assert i < j - 1 < j && log[j - 1].request.leaves.None?;
  }

  /** Between two creations that both demanded an absent key, a delete committed. */
  lemma CreationsAreSeparated(first: Option<Meta>, steps: seq<Step>, log: seq<Commit>, i: nat, j: nat)
    requires Runnable(State(first, [], map[]), steps) && log == Run(State(first, [], map[]), steps).log
    requires i < j < |log| && log[i].request.leaves.Some? && log[j].request.ifNoneMatch == Some("*")
    ensures exists k :: i < k < j && log[k].request.leaves.None?
  {
    RunKeepsInv(first, State(first, [], map[]), steps);
    HistorySeparates(first, log, Run(State(first, [], map[]), steps).row, i, j);
  }
}
