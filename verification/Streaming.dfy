/**
 * The readers behind ranged GETs (`streaming.rs`). Each is specified by the bytes it has still to deliver,
 * whatever sizes its source hands out and wherever the source pauses or fails.
 */
module Streaming {
  import opened Common
  import opened Blocks
  import opened ByteRange
  import opened DedupManifest

  /** `count` bytes of `data` after the first `skip`, as far as there are any. */
  function Slice(data: Bytes, skip: nat, count: nat): (s: Bytes)
    ensures |s| <= count
  {
    if skip >= |data| then [] else if skip + count >= |data| then data[skip..] else data[skip..skip + count]
  }

  /** A range inside the data is delivered whole. */
  lemma SliceInside(data: Bytes, skip: nat, count: nat)
    requires skip + count <= |data|
    ensures Slice(data, skip, count) == data[skip..skip + count]
  {
  }

  lemma SliceDrop(data: Bytes, n: nat, skip: nat, count: nat)
    requires n <= skip && n <= |data|
    ensures Slice(data, skip, count) == Slice(data[n..], skip - n, count)
  {
    if skip < |data| {
      assert data[n..][skip - n..] == data[skip..];
      if skip + count < |data| { assert data[n..][skip - n..skip - n + count] == data[skip..skip + count]; }
    }
  }

  lemma SliceTake(data: Bytes, n: nat, count: nat)
    requires n <= count && n <= |data|
    ensures Slice(data, 0, count) == data[..n] + Slice(data[n..], 0, count - n)
  {
    if count < |data| {
      assert data[0..count] == data[..n] + data[n..][0..count - n];
    } else {
      assert data[0..] == data[..n] + data[n..][0..];
    }
  }

  /** A range that starts beyond the first piece of the data is a range of the rest. */
  lemma SliceBeyond(piece: Bytes, rest: Bytes, skip: nat, count: nat)
    requires skip >= |piece|
    ensures Slice(piece + rest, skip, count) == Slice(rest, skip - |piece|, count)
  {
    SliceDrop(piece + rest, |piece|, skip, count);
    assert (piece + rest)[|piece|..] == rest;
  }

  /** A range that starts in the first piece: what that piece gives, then what the rest gives. */
  lemma SlicePiece(piece: Bytes, rest: Bytes, skip: nat, n: nat, count: nat)
    requires skip <= |piece|
    requires n == if |piece| - skip < count then |piece| - skip else count
    ensures Slice(piece + rest, skip, count) == piece[skip..skip + n] + Slice(rest, 0, count - n)
  {
    var data := piece + rest;
    SliceDrop(data, skip, skip, count);
    SliceTake(data[skip..], n, count);
    assert data[skip..][..n] == piece[skip..skip + n] && data[skip..][n..] == data[skip + n..];
    if n == |piece| - skip { assert data[skip + n..] == rest; }
  }

  // ---------------------------------------------------------------- a polled source

  datatype Outcome = Give(n: nat) | Wait | Fail

  datatype Poll = Ready(bytes: Bytes) | Pending | Failed

  /** An `AsyncRead`: each poll hands out what its script says, at least a byte while there are any. */
  class Source {
    var data: Bytes
    var script: seq<Outcome>

    /** The source never pauses or fails. */
    predicate Steady()
      reads this
    {
      forall i :: 0 <= i < |script| ==> script[i].Give?
    }

    /** Positions a file that was opened at its start. */
    method Seek(start: nat)
      modifies this`data
      ensures data == if start <= |old(data)| then old(data)[start..] else []
    {
      data := if start <= |data| then data[start..] else [];
    }

    method PollRead(capacity: nat) returns (r: Poll)
      modifies this
      ensures r.Ready? ==> |r.bytes| <= capacity && old(data) == r.bytes + data
      ensures r.Ready? && r.bytes == [] ==> capacity == 0 || data == []
      ensures !r.Ready? ==> data == old(data)
      ensures old(Steady()) ==> Steady() && r.Ready?
    {
      var next := if script == [] then Give(capacity) else script[0];
      script := if script == [] then [] else script[1..];
      match next
      case Wait => return Pending;
      case Fail => return Failed;
      case Give(n) =>
        var most := if n == 0 then 1 else n;
        most := if most > capacity then capacity else most;
        most := if most > |data| then |data| else most;
        r := Ready(data[..most]);
        data := data[most..];
    }
  }

  const DISCARD := 8192

  predicate AllPositive(buffers: seq<nat>) {
    forall i :: 0 <= i < |buffers| ==> buffers[i] > 0
  }

  /** Non-empty buffers, one more than there are bytes to read. */
  predicate Enough(buffers: seq<nat>, bytes: nat) {
    AllPositive(buffers) && |buffers| > bytes
  }

  /** Skips an offset and stops after a byte budget. */
  class LimitedRead {
    const inner: Source
    var skip: nat
    var remaining: nat

    constructor (source: Source, offset: nat, limit: nat)
      ensures inner == source && skip == offset && remaining == limit
      ensures ToCome() == Slice(source.data, offset, limit)
    {
      inner, skip, remaining := source, offset, limit;
    }

    function ToCome(): Bytes
      reads this, inner
    {
      Slice(inner.data, skip, remaining)
    }

    /** Drops what precedes the range; a pause in the middle loses nothing. */
    method Discard() returns (r: Poll)
      modifies this`skip, inner
      ensures ToCome() == old(ToCome())
      ensures r.Ready? ==> r.bytes == [] && (skip == 0 || inner.data == [])
      ensures old(inner.Steady()) ==> inner.Steady() && r.Ready?
    {
      while skip > 0
        invariant ToCome() == old(ToCome())
        invariant old(inner.Steady()) ==> inner.Steady()
        decreases skip
      {
        var chunk := if skip < DISCARD then skip else DISCARD;
        ghost var before := inner.data;
        var got := inner.PollRead(chunk);
        if !got.Ready? { return got; }
        if got.bytes == [] { return Ready([]); }
        var n := |got.bytes|;
        assert inner.data == before[n..];
        SliceDrop(before, n, skip, remaining);
        skip := skip - n;
      }
      return Ready([]);
    }

    /**
     * Delivers the next bytes of the range. Nothing but the end of the range, the end of the source or an empty
     * buffer reads as the end of the stream.
     */
    method PollRead(capacity: nat) returns (r: Poll)
      modifies this`skip, this`remaining, inner
      ensures r.Ready? ==> |r.bytes| <= capacity && old(ToCome()) == r.bytes + ToCome()
      ensures r.Ready? && r.bytes == [] ==> capacity == 0 || ToCome() == []
      ensures !r.Ready? ==> ToCome() == old(ToCome())
      ensures old(inner.Steady()) ==> inner.Steady() && r.Ready?
    {
      if remaining == 0 { return Ready([]); }
      var skipped := Discard();
      if !skipped.Ready? { return skipped; }
      if skip > 0 { return Ready([]); }
      var most := if remaining < capacity then remaining else capacity;
      if most == 0 { return Ready([]); }
      ghost var before := inner.data;
      r := inner.PollRead(most);
      if r.Ready? {
        var n := |r.bytes|;
        assert before[..n] == r.bytes && before[n..] == inner.data;
        SliceTake(before, n, remaining);
        remaining := remaining - n;
      }
    }

    /**
     * Polling with any buffers until the stream ends delivers exactly the range. A source that does not pause or
     * fail gives at least a byte each time, so the stream ends after at most one more read than there are bytes.
     */
    method Drain(buffers: seq<nat>) returns (out: Bytes, ended: bool)
      modifies this`skip, this`remaining, inner
      ensures old(ToCome()) == out + ToCome()
      ensures ended ==> out == old(ToCome())
      ensures old(inner.Steady()) && Enough(buffers, |old(ToCome())|) ==> ended
    {
      out, ended := [], false;
      var i := 0;
      while i < |buffers| && !ended
        invariant 0 <= i <= |buffers|
        invariant old(ToCome()) == out + ToCome()
        invariant ended ==> ToCome() == []
        invariant old(inner.Steady()) ==> inner.Steady()
        invariant old(inner.Steady()) && AllPositive(buffers) && !ended ==> |out| >= i
      {
        var capacity := buffers[i];
        var r := PollRead(capacity);
        if r.Ready? {
          Regroup(out, r.bytes, ToCome());
          out := out + r.bytes;
          ended := r.bytes == [] && capacity > 0;
        }
        i := i + 1;
      }
    }
  }

  // ---------------------------------------------------------------- a source of chunks

  datatype Read = Chunk(bytes: Bytes) | End | Error

  function Flat(chunks: seq<Bytes>): Bytes {
    if chunks == [] then [] else chunks[0] + Flat(chunks[1..])
  }

  class Chunks {
    var chunks: seq<Bytes>
    var failsAt: Option<nat>  // reads left before the source fails

    method ReadChunk() returns (r: Read)
      modifies this
      ensures r.Chunk? ==> old(chunks) != [] && r.bytes == old(chunks)[0] && chunks == old(chunks)[1..]
      ensures r.End? ==> old(chunks) == [] && chunks == []
      ensures !r.Chunk? ==> chunks == old(chunks)
      ensures r.Error? ==> old(failsAt).Some?
      ensures old(failsAt).None? ==> failsAt.None?
    {
      if failsAt.Some? {
        if failsAt.value == 0 { return Error; }
        failsAt := Some(failsAt.value - 1);
      }
      if chunks == [] { return End; }
      r := Chunk(chunks[0]);
      chunks := chunks[1..];
    }
  }

  /** The piece of the range a chunk gives, and what is then left to skip and to deliver. */
  function Advanced(chunk: Bytes, skip: nat, remaining: nat): (Bytes, nat, nat) {
    if skip >= |chunk| then ([], skip - |chunk|, remaining)
    else if |chunk| - skip < remaining then (chunk[skip..], 0, remaining - (|chunk| - skip))
    else (chunk[skip..skip + remaining], 0, 0)
  }

  lemma AdvancedOk(chunk: Bytes, rest: Bytes, skip: nat, remaining: nat)
    requires remaining > 0
    ensures var (piece, s, m) := Advanced(chunk, skip, remaining);
      && m == remaining - |piece|
      && Slice(chunk + rest, skip, remaining) == piece + Slice(rest, s, m)
      && (skip + remaining <= |chunk| + |rest| && m > 0 ==> s + m <= |rest|)
  {
    if skip >= |chunk| {
      SliceBeyond(chunk, rest, skip, remaining);
    } else {
      var n := if |chunk| - skip < remaining then |chunk| - skip else remaining;
      SlicePiece(chunk, rest, skip, n, remaining);
    }
  }

  /** A range of a stream that cannot seek. */
  class RangeOf {
    const inner: Chunks
    var skip: nat
    var remaining: nat

    constructor (source: Chunks, offset: nat, length: nat)
      ensures inner == source && skip == offset && remaining == length
      ensures ToCome() == Slice(Flat(source.chunks), offset, length)
    {
      inner, skip, remaining := source, offset, length;
    }

    function ToCome(): Bytes
      reads this, inner
    {
      Slice(Flat(inner.chunks), skip, remaining)
    }

    /** The source holds the whole range. */
    predicate Covered()
      reads this, inner
    {
      remaining > 0 ==> skip + remaining <= |Flat(inner.chunks)|
    }

    /** One chunk of the source: all of it before the range, or a piece of the range. */
    method Advance() returns (r: Option<Read>)
      requires remaining > 0
      modifies this`skip, this`remaining, inner
      ensures r.None? ==> remaining == old(remaining) && |inner.chunks| < |old(inner.chunks)|
      ensures r.None? ==> ToCome() == old(ToCome())
      ensures r.Some? && r.value.Chunk? ==>
        r.value.bytes != [] && old(ToCome()) == r.value.bytes + ToCome() && remaining == old(remaining) - |r.value.bytes|
      ensures r.Some? && !r.value.Chunk? ==> r.value.Error? && (old(Covered()) ==> old(inner.failsAt).Some?)
      ensures old(Covered()) && (r.None? || r.value.Chunk?) ==> Covered()
      ensures old(inner.failsAt).None? ==> inner.failsAt.None?
    {
      var got := inner.ReadChunk();
      if !got.Chunk? { return Some(Error); }
      AdvancedOk(got.bytes, Flat(inner.chunks), skip, remaining);
      var (piece, s, m) := Advanced(got.bytes, skip, remaining);
      skip, remaining := s, m;
      return if piece == [] then None else Some(Chunk(piece));
    }

    /** Delivers the range a piece at a time; a covered range fails only where its source does. */
    method ReadChunk() returns (r: Read)
      modifies this`skip, this`remaining, inner
      ensures r.Chunk? ==> r.bytes != [] && old(ToCome()) == r.bytes + ToCome() && remaining < old(remaining)
      ensures r.End? ==> old(ToCome()) == [] && remaining == 0
      ensures old(Covered()) && !r.Error? ==> Covered()
      ensures r.Error? && old(Covered()) ==> old(inner.failsAt).Some?
      ensures old(inner.failsAt).None? ==> inner.failsAt.None?
    {
      while remaining > 0
        invariant remaining == old(remaining)
        invariant ToCome() == old(ToCome())
        invariant old(Covered()) ==> Covered()
        invariant old(inner.failsAt).None? ==> inner.failsAt.None?
        decreases |inner.chunks|
      {
        var step := Advance();
        if step.Some? { return step.value; }
      }
      return End;
    }

    /** Reads until the end or an error: at the end the range has been delivered, and only the source can fail it. */
    method Drain() returns (out: Bytes, last: Read)
      modifies this`skip, this`remaining, inner
      ensures !last.Chunk? && out <= old(ToCome())
      ensures last.End? ==> out == old(ToCome())
      ensures old(Covered()) && old(inner.failsAt).None? ==> last.End?
    {
      out := [];
      while true
        invariant old(ToCome()) == out + ToCome()
        invariant old(Covered()) ==> Covered()
        invariant old(inner.failsAt).None? ==> inner.failsAt.None?
        decreases remaining
      {
        last := ReadChunk();
        if !last.Chunk? { return; }
        Regroup(out, last.bytes, ToCome());
        out := out + last.bytes;
      }
    }
  }

  // ---------------------------------------------------------------- dedup blobs

  /** The object a manifest stands for, when every block reads back. */
  function Assembled(blocks: seq<Entry>, content: Entry -> Bytes): Bytes {
    if blocks == [] then [] else content(blocks[0]) + Assembled(blocks[1..], content)
  }

  /** A successful block read has the manifest's length and the block's hash. */
  ghost predicate ReadsBack(blocks: seq<Entry>, content: Entry -> Bytes) {
    forall i :: 0 <= i < |blocks| ==> |content(blocks[i])| == blocks[i].size
  }

  lemma ReadsBackFrom(blocks: seq<Entry>, content: Entry -> Bytes, n: nat)
    requires ReadsBack(blocks, content) && n <= |blocks|
    ensures ReadsBack(blocks[n..], content)
  {
    assert forall i :: 0 <= i < |blocks| - n ==> blocks[n..][i] == blocks[n + i];
  }

  lemma {:induction false} AssembledSize(blocks: seq<Entry>, content: Entry -> Bytes)
    requires ReadsBack(blocks, content)
    ensures |Assembled(blocks, content)| == TotalSize(blocks)
  {
    if blocks != [] {
      ReadsBackFrom(blocks, content, 1);
      AssembledSize(blocks[1..], content);
    }
  }

  /** Serves a manifest one block at a time, from the block that holds the range's first byte. */
  class DedupReader {
    const content: Entry -> Bytes
    var blocks: seq<Entry>
    var skip: nat
    var remaining: nat

    ghost predicate Valid()
      reads this
    {
      ReadsBack(blocks, content) && (blocks != [] ==> skip <= blocks[0].size)
    }

    function ToCome(): Bytes
      reads this
    {
      Slice(Assembled(blocks, content), skip, remaining)
    }

    constructor (read: Entry -> Bytes)
      ensures content == read && Valid() && ToCome() == []
    {
      content, blocks, skip, remaining := read, [], 0, 0;
    }

    /** Positions the reader: the blocks before the range are dropped without being read. */
    method Open(entries: seq<Entry>, start: nat, length: nat)
      requires ReadsBack(entries, content)
      modifies this
      ensures Valid() && ToCome() == Slice(Assembled(entries, content), start, length)
      ensures blocks != [] ==> skip < blocks[0].size
      ensures remaining == length && forall e :: e in blocks ==> e in entries
    {
      var offset, first := 0, 0;
      assert entries[0..] == entries;
      while first < |entries| && start >= offset + entries[first].size
        invariant 0 <= first <= |entries| && offset <= start
        invariant Slice(Assembled(entries[first..], content), start - offset, length)
               == Slice(Assembled(entries, content), start, length)
      {
        DropBlock(entries, first, start - offset, length);
        offset := offset + entries[first].size;
        first := first + 1;
      }
      ReadsBackFrom(entries, content, first);
      blocks, skip, remaining := entries[first..], start - offset, length;
    }

    lemma DropBlock(entries: seq<Entry>, first: nat, skip: nat, length: nat)
      requires ReadsBack(entries, content) && first < |entries| && skip >= entries[first].size
      ensures Slice(Assembled(entries[first..], content), skip, length)
           == Slice(Assembled(entries[first + 1..], content), skip - entries[first].size, length)
    {
      assert entries[first..][1..] == entries[first + 1..];
      SliceBeyond(content(entries[first]), Assembled(entries[first + 1..], content), skip, length);
    }

    /** The next piece of the range; it fails when a block does not read back or the manifest is too short. */
    method ReadChunk(readable: bool) returns (r: Read)
      requires Valid()
      modifies this`blocks, this`skip, this`remaining
      ensures r.Chunk? ==> Valid() && old(ToCome()) == r.bytes + ToCome()
      ensures r.End? <==> old(remaining) == 0
      ensures r.End? ==> old(ToCome()) == []
      ensures r.Error? && readable ==> |old(ToCome())| < old(remaining)
      ensures r.Chunk? ==> old(blocks) != [] && blocks == old(blocks)[1..] && remaining == old(remaining) - |r.bytes|
    {
      if remaining == 0 { return End; }
      if blocks == [] { return Error; }
      var e := blocks[0];
      blocks := blocks[1..];
      if !readable { return Error; }
      var block := content(e);
      var start := skip;
      skip := 0;
      var take := if |block| - start < remaining then |block| - start else remaining;
      SlicePiece(block, Assembled(blocks, content), start, take, remaining);
      ReadsBackFrom(old(blocks), content, 1);
      remaining := remaining - take;
      return Chunk(block[start..start + take]);
    }

    /** Reads until the end or an error: a range inside the object fails only where a block does not read back. */
    method Drain(readable: set<Hash>) returns (out: Bytes, last: Read)
      requires Valid()
      modifies this`blocks, this`skip, this`remaining
      ensures !last.Chunk? && out <= old(ToCome())
      ensures last.End? ==> out == old(ToCome())
      ensures |old(ToCome())| == old(remaining) && (forall e :: e in old(blocks) ==> e.hash in readable) ==> last.End?
    {
      out := [];
      while true
        invariant Valid() && old(ToCome()) == out + ToCome()
        invariant |old(ToCome())| == old(remaining) ==> |ToCome()| == remaining
        invariant forall e :: e in blocks ==> e in old(blocks)
        decreases |blocks|
      {
        var whole := blocks != [] && blocks[0].hash in readable;
        last := ReadChunk(whole);
        if !last.Chunk? { return; }
        Regroup(out, last.bytes, ToCome());
        out := out + last.bytes;
      }
    }
  }

  // ---------------------------------------------------------------- a ranged GET, from header to bytes

  /** The bytes of a span of the object. */
  function Part(data: Bytes, span: (nat, nat)): Bytes
    requires span.0 + span.1 <= |data|
  {
    data[span.0..span.0 + span.1]
  }

  /** The body a GET answers with, or nothing when the range cannot be satisfied. */
  function Body(header: Option<string>, data: Bytes): Option<Bytes> {
    var span := Span(header, |data|);
    if span.None? then None else Some(Part(data, span.value))
  }

  method ReadRaw(source: Source, span: (nat, nat), buffers: seq<nat>) returns (out: Bytes, ended: bool)
    requires span.0 + span.1 <= |source.data|
    modifies source
    ensures out <= Part(old(source.data), span) && (ended ==> out == Part(old(source.data), span))
    ensures old(source.Steady()) && Enough(buffers, span.1) ==> ended
  {
    source.Seek(span.0);
    SliceInside(source.data, 0, span.1);
    assert source.data[0..span.1] == Part(old(source.data), span);
    var reader := new LimitedRead(source, 0, span.1);
    out, ended := reader.Drain(buffers);
  }

  method ReadStream(source: Chunks, span: (nat, nat)) returns (out: Bytes, last: Read)
    requires span.0 + span.1 <= |Flat(source.chunks)|
    modifies source
    ensures out <= Part(Flat(old(source.chunks)), span)
    ensures last.End? ==> out == Part(Flat(old(source.chunks)), span)
    ensures old(source.failsAt).None? ==> last.End?
  {
    SliceInside(Flat(source.chunks), span.0, span.1);
    var reader := new RangeOf(source, span.0, span.1);
    out, last := reader.Drain();
  }

  method ReadDedup(entries: seq<Entry>, content: Entry -> Bytes, span: (nat, nat), readable: set<Hash>)
    returns (out: Bytes, last: Read)
    requires ReadsBack(entries, content) && span.0 + span.1 <= |Assembled(entries, content)|
    ensures out <= Part(Assembled(entries, content), span)
    ensures last.End? ==> out == Part(Assembled(entries, content), span)
    ensures (forall e :: e in entries ==> e.hash in readable) ==> last.End?
  {
    SliceInside(Assembled(entries, content), span.0, span.1);
    var reader := new DedupReader(content);
    reader.Open(entries, span.0, span.1);
    out, last := reader.Drain(readable);
  }

  /** A raw blob: whatever the buffers and pauses, the stream delivers the body, and a steady one comes to its end. */
  method ServeRaw(header: Option<string>, source: Source, buffers: seq<nat>) returns (out: Option<Bytes>, ended: bool)
    modifies source
    ensures out.None? <==> Body(header, old(source.data)).None?
    ensures out.Some? ==> out.value <= Body(header, old(source.data)).value
    ensures out.Some? && ended ==> out == Body(header, old(source.data))
    ensures out.Some? && old(source.Steady()) && Enough(buffers, |Body(header, old(source.data)).value|) ==> ended
  {
    var span := Span(header, |source.data|);
    if span.None? { return None, true; }
    var bytes, done := ReadRaw(source, span.value, buffers);
    return Some(bytes), done;
  }

  /** A stream that cannot seek: unless it fails itself, it ends with the body. */
  method ServeStream(header: Option<string>, source: Chunks) returns (out: Option<Bytes>, last: Read)
    modifies source
    ensures out.None? <==> Body(header, Flat(old(source.chunks))).None?
    ensures out.Some? && last.End? ==> out == Body(header, Flat(old(source.chunks)))
    ensures out.Some? && old(source.failsAt).None? ==> last.End?
  {
    var span := Span(header, |Flat(source.chunks)|);
    if span.None? { return None, End; }
    var bytes, r := ReadStream(source, span.value);
    return Some(bytes), r;
  }

  /** A dedup blob: over every accepted manifest whose blocks read back, the reader ends with the body. */
  method ServeDedup(header: Option<string>, manifest: Bytes, size: nat, content: Entry -> Bytes, readable: set<Hash>)
    returns (out: Option<Bytes>, last: Read)
    requires forall e: Entry :: |content(e)| == e.size
    ensures Parsed(manifest, size).None? ==> out.None? && last.Error?
    ensures Parsed(manifest, size).Some? ==>
      var whole := Assembled(Parsed(manifest, size).value, content);
      && |whole| == size
      && (out.None? <==> Body(header, whole).None?)
      && (out.Some? && last.End? ==> out == Body(header, whole))
      && (out.Some? && (forall e :: e in Parsed(manifest, size).value ==> e.hash in readable) ==> last.End?)
  {
    var parsed := ParseDedupManifest(manifest, size);
    if parsed.None? { return None, Error; }
    AssembledSize(parsed.value, content);
    ParsedTotal(manifest, size);
    var span := Span(header, size);
    if span.None? { return None, End; }
    var bytes, r := ReadDedup(parsed.value, content, span.value, readable);
    return Some(bytes), r;
  }

  lemma ParsedTotal(manifest: Bytes, size: nat)
    ensures Parsed(manifest, size).Some? ==> TotalSize(Parsed(manifest, size).value) == size
  {
  }

  /** The bytes are those at the requested positions, which are the ones from `a` on. */
  ghost predicate ServesFrom(bytes: Bytes, data: Bytes, spec: Spec, a: nat) {
    && a + |bytes| <= |data| && bytes == data[a..a + |bytes|]
    && forall p: nat :: Requests(spec, |data|, p) <==> a <= p < a + |bytes|
  }

  lemma PartServes(data: Bytes, spec: Spec, span: (nat, nat))
    requires span.0 + span.1 <= |data|
    requires forall p: nat :: Requests(spec, |data|, p) <==> span.0 <= p < span.0 + span.1
    ensures ServesFrom(Part(data, span), data, spec, span.0)
  {
  }

  /** The body of a header that reads as a range is exactly the bytes it requests, in order. */
  lemma BodyIsRequested(header: string, data: Bytes, spec: Spec)
    requires Denotes(header, spec)
    ensures Body(Some(header), data).None? <==> forall p: nat :: !Requests(spec, |data|, p)
    ensures Body(Some(header), data).Some? ==> exists a: nat :: ServesFrom(Body(Some(header), data).value, data, spec, a)
  {
    SpanIsRequested(Some(header), |data|, spec);
    var span := Span(Some(header), |data|);
    if span.Some? { PartServes(data, spec, span.value); }
  }
}
