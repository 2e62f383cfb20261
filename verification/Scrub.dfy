/**
 * The periodic scrub: a saved cursor and epoch, a page of objects per batch, and a hash sample that moves on with
 * every full pass (`scrub.rs`, `engine.rs`, `maintenance.rs`).
 */
module Scrub {
  import opened Common
  import opened Decimal
  import opened KeyPages
  import opened Residues
  import opened Versions

  const WORD := 0x1_0000_0000_0000_0000  // epochs are u64 and wrap

  /** The saved state: "" is the start of a pass. */
  datatype Progress = Progress(cursor: string, epoch: nat)

  function Denominator(sampleDenom: nat): (d: nat)
    ensures d > 0
  {
    if sampleDenom == 0 then 1 else sampleDenom
  }

  /** Whether an object with this hash is in the epoch's sample slice; the sum is taken in 128 bits. */
  predicate Selected(hash: nat, sampleDenom: nat, epoch: nat) {
    Denominator(sampleDenom) == 1 || Rem(hash + epoch, Denominator(sampleDenom)) == 0
  }

  /** The remainder is the machine's. */
  lemma SelectedIsMod(hash: nat, sampleDenom: nat, epoch: nat)
    ensures var d := Denominator(sampleDenom);
      Selected(hash, sampleDenom, epoch) <==> d == 1 || (hash + epoch) % d == 0
  {
    RemIsMod(hash + epoch, Denominator(sampleDenom));
  }

  function Start(p: Progress): Option<Key> {
    if p.cursor == "" then None else Some(p.cursor)
  }

  /** What is saved after a batch: the page's end, or the start of the next pass in the next slice. */
  function Save(p: Progress, page: Page): Progress {
    if page.truncated && page.cursor.Some? then Progress(page.cursor.value, p.epoch)
    else Progress("", (p.epoch + 1) % WORD)
  }

  // ---------------------------------------------------------------- how often an object is checked

  /** Times the batches check `o`: visits in whose epoch it is selected. */
  function Checks(hash: nat, denom: nat, p: Progress, pages: seq<Page>, o: Object): nat
    decreases |pages|
  {
    if pages == [] then 0
    else (if Selected(hash, denom, p.epoch) then multiset(pages[0].rows)[o] else 0)
         + Checks(hash, denom, Save(p, pages[0]), pages[1..], o)
  }

  function Passes(pages: seq<Page>): nat {
    if pages == [] then 0 else (if pages[0].truncated then 0 else 1) + Passes(pages[1..])
  }

  function End(p: Progress, pages: seq<Page>): Progress
    decreases |pages|
  {
    if pages == [] then p else End(Save(p, pages[0]), pages[1..])
  }

  /** Every batch is a page of the fixed object set, resumed where the saved state says. */
  ghost predicate Batches(objects: set<Object>, p: Progress, pages: seq<Page>)
    decreases |pages|
  {
    pages == [] || (PageOk(objects, Start(p), pages[0]) && Batches(objects, Save(p, pages[0]), pages[1..]))
  }

  /** In how many of `n` epochs from `epoch` on the hash is selected. */
  function Slices(hash: nat, denom: nat, epoch: nat, n: nat): nat
    decreases n
  {
    if n == 0 then 0
    else (if Selected(hash, denom, epoch) then 1 else 0) + Slices(hash, denom, (epoch + 1) % WORD, n - 1)
  }

  /** The current pass has been past the object, and its slice selects it. */
  function Behind(hash: nat, denom: nat, p: Progress, o: Object): nat {
    if p.cursor != "" && NotAfter(o.key, p.cursor) && Selected(hash, denom, p.epoch) then 1 else 0
  }

  /** A sanitised key is never empty, so a saved cursor never reads as the start of a pass. */
  ghost predicate NamedKeys(objects: set<Object>) {
    forall o :: o in objects ==> o.key != ""
  }

  lemma {:induction false} OnceIn(rows: seq<Object>, o: Object)
    requires Distinct(rows)
    ensures multiset(rows)[o] == if o in rows then 1 else 0
  {
    if rows != [] {
      assert rows == [rows[0]] + rows[1..];
      OnceIn(rows[1..], o);
    }
  }

  lemma PageVisits(objects: set<Object>, p: Progress, page: Page, o: Object)
    requires PageOk(objects, Start(p), page) && o in objects && NamedKeys(objects)
    ensures multiset(page.rows)[o] ==
      (if p.cursor != "" && NotAfter(o.key, p.cursor) then 0
       else if page.truncated && !NotAfter(o.key, Save(p, page).cursor) then 0 else 1)
    ensures page.truncated ==> Save(p, page).cursor != "" && (p.cursor != "" && NotAfter(o.key, p.cursor) ==>
      NotAfter(o.key, Save(p, page).cursor))
  {
    OnceIn(page.rows, o);
    if page.cursor.Some? {
      var c := page.cursor.value;
      var first := page.rows[0];
      assert first in page.rows;
      if p.cursor != "" && TextLess(c, o.key) { TextOrderTransitive(p.cursor, c, o.key); }
    }
  }

  /** Over any run of batches, visits add up to the slices of the finished passes and of the part under way. */
  lemma {:induction false} ChecksAddUp(objects: set<Object>, hash: nat, denom: nat, p: Progress, pages: seq<Page>,
                                       o: Object)
    requires Batches(objects, p, pages) && o in objects && NamedKeys(objects)
    ensures Checks(hash, denom, p, pages, o) + Behind(hash, denom, p, o) ==
      Slices(hash, denom, p.epoch, Passes(pages)) + Behind(hash, denom, End(p, pages), o)
    decreases |pages|
  {
    if pages != [] {
      PageVisits(objects, p, pages[0], o);
      ChecksAddUp(objects, hash, denom, Save(p, pages[0]), pages[1..], o);
    }
  }

  // ---------------------------------------------------------------- exactly once in `denom` passes

  predicate WrapsCleanly(denom: nat, epoch: nat) {
    epoch + Denominator(denom) <= WORD || Rem(WORD, Denominator(denom)) == 0
  }

  /** Epochs are counted modulo the word; selection does not notice while the wrap keeps the residue. */
  lemma WrapKeepsSelected(hash: nat, denom: nat, epoch: nat)
    requires epoch < WORD || Rem(WORD, Denominator(denom)) == 0
    requires epoch < 2 * WORD
    ensures Selected(hash, denom, epoch % WORD) <==> Selected(hash, denom, epoch)
  {
    if epoch >= WORD {
      RemAdd(hash + (epoch - WORD), WORD, Denominator(denom));
      assert hash + (epoch - WORD) + WORD == hash + epoch;
    }
  }

  /** Slices over true (unwrapped) epochs `from .. from + n`. */
  function Hits(hash: nat, denom: nat, from: nat, n: nat): nat
    decreases n
  {
    if n == 0 then 0 else (if Selected(hash, denom, from) then 1 else 0) + Hits(hash, denom, from + 1, n - 1)
  }

  lemma {:induction false} SlicesAreHits(hash: nat, denom: nat, epoch: nat, from: nat, n: nat)
    requires epoch == from % WORD && from + n <= 2 * WORD
    requires from + n <= WORD || Rem(WORD, Denominator(denom)) == 0
    ensures Slices(hash, denom, epoch, n) == Hits(hash, denom, from, n)
    decreases n
  {
    if n > 0 {
      WrapKeepsSelected(hash, denom, from);
      assert (epoch + 1) % WORD == (from + 1) % WORD;
      SlicesAreHits(hash, denom, (epoch + 1) % WORD, from + 1, n - 1);
    }
  }

  lemma {:induction false} NoHits(hash: nat, denom: nat, from: nat, n: nat)
    requires forall e: nat :: from <= e < from + n ==> !Selected(hash, denom, e)
    ensures Hits(hash, denom, from, n) == 0
    decreases n
  {
    if n > 0 { NoHits(hash, denom, from + 1, n - 1); }
  }

  lemma {:induction false} OneHit(hash: nat, denom: nat, from: nat, n: nat, at: nat)
    requires from <= at < from + n
    requires forall e: nat :: from <= e < from + n ==> (Selected(hash, denom, e) <==> e == at)
    ensures Hits(hash, denom, from, n) == 1
    decreases n
  {
    if from == at {
      NoHits(hash, denom, from + 1, n - 1);
    } else {
      OneHit(hash, denom, from + 1, n - 1, at);
    }
  }

  /** In any `denom` consecutive numbers exactly one is congruent to minus the hash. */
  lemma WindowHitsOnce(hash: nat, denom: nat, from: nat)
    requires Denominator(denom) > 1
    ensures Hits(hash, denom, from, Denominator(denom)) == 1
  {
    var d := Denominator(denom);
    var r := Rem(hash + from, d);
    var gap := if r == 0 then 0 else d - r;
    RemAdd(gap, hash + from, d);
    assert Rem(hash + from + gap, d) == 0;
    forall e: nat | from <= e < from + d ensures Selected(hash, denom, e) <==> e == from + gap {
      var at := from + gap;
      if Rem(hash + e, d) == 0 {
        if e <= at { RemInjective(hash + e, hash + at, d); } else { RemInjective(hash + at, hash + e, d); }
      }
    }
    OneHit(hash, denom, from, d, from + gap);
  }

  /** A residue that a wrapping epoch misses: it is due just after the wrap, and too big for the restart. */
  function Missed(d: nat, epoch: nat): (x: nat)
    requires 1 < d && epoch < WORD < epoch + d && Rem(WORD, d) != 0
    ensures epoch + d - WORD <= x < d
  {
    var r, k := Rem(WORD, d), epoch + d - WORD;
    if r >= k then r else if r + k - 1 < d then r + k - 1 else d - 1
  }

  lemma MissedIsDueAfterWrap(d: nat, epoch: nat) returns (t: nat)
    requires 1 < d && epoch < WORD < epoch + d && Rem(WORD, d) != 0
    ensures t < epoch + d - WORD && Rem(WORD + t, d) == Missed(d, epoch)
  {
    var r, k := Rem(WORD, d), epoch + d - WORD;
    t := if r >= k then 0 else if r + k - 1 < d then k - 1 else d - 1 - r;
    RemAdd(t, WORD, d);
    assert t + WORD == WORD + t;
  }

  lemma MissedNotSelected(denom: nat, first: nat, i: nat)
    requires first < WORD < first + denom && denom > 1 && Rem(WORD, denom) != 0 && i < denom
    requires denom <= WORD
    ensures !Selected(denom - Missed(denom, first), denom, (first + i) % WORD)
  {
    var x, e := Missed(denom, first), (first + i) % WORD;
    if Rem(denom - x + e, denom) == 0 {
      SameResidue(e, x, denom);
      if first + i < WORD {
        var t := MissedIsDueAfterWrap(denom, first);
        RemInjective(e, WORD + t, denom);
      }
    }
  }

  lemma SameResidue(e: nat, x: nat, d: nat)
    requires 0 < d && x < d && Rem(d - x + e, d) == 0
    ensures Rem(e, d) == x
  {
    RemAdd(x, d - x + e, d);
    assert x + (d - x + e) == d + e;
  }

  lemma {:induction false} MissedSlices(denom: nat, first: nat, i: nat)
    requires first < WORD < first + denom && 1 < denom <= WORD && Rem(WORD, denom) != 0 && i <= denom
    ensures Slices(denom - Missed(denom, first), denom, (first + i) % WORD, denom - i) == 0
    decreases denom - i
  {
    if i < denom {
      MissedNotSelected(denom, first, i);
      assert ((first + i) % WORD + 1) % WORD == (first + (i + 1)) % WORD;
      MissedSlices(denom, first, i + 1);
    }
  }

  /** `denom` consecutive passes check every hash exactly once, if and only if the epoch wraps cleanly. */
  lemma SlicesOnceIff(denom: nat, epoch: nat)
    requires epoch < WORD && denom < WORD
    ensures (forall hash: nat :: hash < WORD ==> Slices(hash, denom, epoch, Denominator(denom)) == 1) <==>
      epoch + Denominator(denom) <= WORD || WORD % Denominator(denom) == 0
  {
    RemIsMod(WORD, Denominator(denom));
    WrapsCleanlyIff(denom, epoch);
  }

  lemma WrapsCleanlyIff(denom: nat, epoch: nat)
    requires epoch < WORD && denom < WORD
    ensures (forall hash: nat :: hash < WORD ==> Slices(hash, denom, epoch, Denominator(denom)) == 1) <==>
      WrapsCleanly(denom, epoch)
  {
    var d := Denominator(denom);
    if WrapsCleanly(denom, epoch) {
      forall hash: nat | hash < WORD ensures Slices(hash, denom, epoch, d) == 1 {
        SlicesOnce(hash, denom, epoch);
      }
    } else {
      var h := d - Missed(d, epoch);
      MissedSlices(d, epoch, 0);
      assert h < WORD && Slices(h, denom, epoch, d) == 0;
    }
  }

  lemma SlicesOnce(hash: nat, denom: nat, epoch: nat)
    requires epoch < WORD && denom < WORD && WrapsCleanly(denom, epoch)
    ensures Slices(hash, denom, epoch, Denominator(denom)) == 1
  {
    var d := Denominator(denom);
    if d == 1 {
      assert Slices(hash, denom, (epoch + 1) % WORD, 0) == 0;
    } else {
      SlicesAreHits(hash, denom, epoch, epoch, d);
      WindowHitsOnce(hash, denom, epoch);
    }
  }

  /** From the start of a pass, once `sample_denom` passes are complete every object has been checked exactly once. */
  lemma ScrubCoversOnce(objects: set<Object>, hash: nat, denom: nat, p: Progress, pages: seq<Page>, o: Object)
    requires Batches(objects, p, pages) && o in objects && NamedKeys(objects)
    requires p.cursor == "" && End(p, pages).cursor == "" && Passes(pages) == Denominator(denom)
    requires p.epoch < WORD && denom < WORD && WrapsCleanly(denom, p.epoch)
    ensures Checks(hash, denom, p, pages, o) == 1
  {
    ChecksAddUp(objects, hash, denom, p, pages, o);
    SlicesOnce(hash, denom, p.epoch);
  }

  // ---------------------------------------------------------------- the batch in code

  /** The rows of a page that the epoch's slice selects. */
  function Sampled(hash: Object -> nat, denom: nat, epoch: nat, rows: seq<Object>): seq<Object> {
    if rows == [] then []
    else
      var front := Sampled(hash, denom, epoch, rows[..|rows| - 1]);
      var o := rows[|rows| - 1];
      if Selected(hash(o), denom, epoch) then front + [o] else front
  }

  lemma {:induction false} SampledCounts(hash: Object -> nat, denom: nat, epoch: nat, rows: seq<Object>, o: Object)
    ensures multiset(Sampled(hash, denom, epoch, rows))[o] ==
      if Selected(hash(o), denom, epoch) then multiset(rows)[o] else 0
  {
    if rows != [] {
      assert rows == rows[..|rows| - 1] + [rows[|rows| - 1]];
      SampledCounts(hash, denom, epoch, rows[..|rows| - 1], o);
    }
  }

  lemma ParseOfPrintedEpoch(epoch: nat)
    requires epoch < WORD
    ensures ParseU64(PrintNat(epoch)) == Some(epoch)
  {
    ValueOfPrint(epoch);
    assert IsDigit(PrintNat(epoch)[0]);
  }

  method IsSelected(hash: nat, sampleDenom: nat, epoch: nat) returns (selected: bool)
    ensures selected <==> Selected(hash, sampleDenom, epoch)
  {
    var d := if sampleDenom < 1 then 1 else sampleDenom;
    if d == 1 { return true; }
    SelectedIsMod(hash, sampleDenom, epoch);
    return (hash + epoch) % d == 0;
  }

  /** The periodic scrub over its two saved strings. */
  class Scrubber {
    var cursor: Option<string>
    var epoch: Option<string>

    /** Missing or unreadable values read as the first pass. */
    function State(): (p: Progress)
      reads this
      ensures p.epoch < WORD
    {
      Progress(if cursor.Some? then cursor.value else "",
               if epoch.Some? && ParseU64(epoch.value).Some? then ParseU64(epoch.value).value else 0)
    }

    /** One batch: the sampled rows of the page at the saved cursor are checked, and the progress is saved. */
    method Batch(hash: Object -> nat, denom: nat, page: Page) returns (checked: seq<Object>, sampledOut: nat)
      modifies this
      ensures checked == Sampled(hash, denom, old(State()).epoch, page.rows)
      ensures |checked| + sampledOut == |page.rows|
      ensures State() == Save(old(State()), page)
    {
      var p := State();
      checked, sampledOut := [], 0;
      var i := 0;
      while i < |page.rows|
        invariant 0 <= i <= |page.rows| && |checked| + sampledOut == i && unchanged(this)
        invariant checked == Sampled(hash, denom, p.epoch, page.rows[..i])
      {
        var o := page.rows[i];
        assert page.rows[..i + 1][..i] == page.rows[..i];
        var selected := IsSelected(hash(o), denom, p.epoch);
        if selected {
          checked := checked + [o];
        } else {
          sampledOut := sampledOut + 1;
        }
        i := i + 1;
      }
      assert page.rows[..i] == page.rows;
      if page.truncated && page.cursor.Some? {
        cursor := page.cursor;
      } else {
        var next := (p.epoch + 1) % WORD;
        ParseOfPrintedEpoch(next);
        epoch := Some(PrintNat(next));
        cursor := Some("");
      }
    }
  }
}
