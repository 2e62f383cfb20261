/**
 * The NOSD dedup manifest (`compression/legacy.rs`, written by `blocks.rs`): a magic, the object's size, the
 * number of entries, then a 64-bit hash and a 32-bit size for each block, all little-endian.
 */
module DedupManifest {
  import opened Common
  import opened Decimal
  import opened Blocks

  type Bytes = seq<byte>

  const MAGIC: Bytes := [0x4e, 0x4f, 0x53, 0x44]  // NOSD
  const HEADER_LEN := 16
  const ENTRY_LEN := 12
  const WIDE: nat := 8    // bytes of a u64
  const NARROW: nat := 4  // bytes of a u32
  const U32_MAX := 0xffff_ffff

  // ---------------------------------------------------------------- little-endian integers

  function Pow256(k: nat): (p: nat)
    ensures p > 0
  {
    if k == 0 then 1 else 256 * Pow256(k - 1)
  }

  function ToLe(n: nat, k: nat): (s: Bytes)
    ensures |s| == k
    decreases k
  {
    if k == 0 then [] else [(n % 256) as byte] + ToLe(n / 256, k - 1)
  }

  function FromLe(s: Bytes): (n: nat)
    ensures n < Pow256(|s|)
  {
    if s == [] then 0 else s[0] as nat + 256 * FromLe(s[1..])
  }

  lemma {:induction false} LeRoundTrip(n: nat, k: nat)
    requires n < Pow256(k)
    ensures FromLe(ToLe(n, k)) == n
    decreases k
  {
    if k > 0 {
      LeRoundTrip(n / 256, k - 1);
      assert ToLe(n, k)[1..] == ToLe(n / 256, k - 1);
    }
  }

  lemma {:induction false} LeCanonical(s: Bytes)
    ensures ToLe(FromLe(s), |s|) == s
  {
    if s != [] {
      LeCanonical(s[1..]);
      var n := FromLe(s);
      assert n % 256 == s[0] as nat && n / 256 == FromLe(s[1..]);
      assert s == [s[0]] + s[1..];
    }
  }

  lemma Widths()
    ensures Pow256(NARROW) == U32_MAX + 1 && Pow256(WIDE) == U64_MAX + 1
  {
    assert Pow256(1) == 256 && Pow256(2) == 0x1_0000 && Pow256(3) == 0x100_0000 && Pow256(4) == 0x1_0000_0000;
    assert Pow256(5) == 0x100_0000_0000 && Pow256(6) == 0x1_0000_0000_0000 && Pow256(7) == 0x100_0000_0000_0000;
  }

  // ---------------------------------------------------------------- writing

  predicate EntryFits(e: Entry) {
    e.hash <= U64_MAX && e.size <= U32_MAX
  }

  predicate AllFit(entries: seq<Entry>) {
    forall i :: 0 <= i < |entries| ==> EntryFits(entries[i])
  }

  function EncodeEntry(e: Entry): (s: Bytes)
    ensures |s| == ENTRY_LEN
  {
    ToLe(e.hash, WIDE) + ToLe(e.size, NARROW)
  }

  function EncodeEntries(entries: seq<Entry>): (s: Bytes)
    ensures |s| == ENTRY_LEN * |entries|
  {
    if entries == [] then [] else EncodeEntry(entries[0]) + EncodeEntries(entries[1..])
  }

  function Header(logical: nat, count: nat): (s: Bytes)
    ensures |s| == HEADER_LEN
  {
    MAGIC + ToLe(logical, WIDE) + ToLe(count, NARROW)
  }

  function Encode(logical: nat, entries: seq<Entry>): Bytes {
    Header(logical, |entries|) + EncodeEntries(entries)
  }

  function TotalSize(entries: seq<Entry>): nat {
    if entries == [] then 0 else entries[0].size + TotalSize(entries[1..])
  }

  /** The parser's 64-bit sum of a 32-bit number of 32-bit sizes cannot overflow. */
  lemma {:induction false} TotalSizeFits(entries: seq<Entry>)
    requires AllFit(entries)
    ensures TotalSize(entries) <= U32_MAX * |entries|
    ensures |entries| <= U32_MAX ==> TotalSize(entries) <= U64_MAX
  {
    if entries != [] { TotalSizeFits(entries[1..]); }
  }

  // ---------------------------------------------------------------- where each byte is

  lemma DivDiv(n: nat, p: nat)
    requires p > 0
    ensures n / 256 / p == n / (256 * p)
  {
    var q, r := n / 256, n % 256;
    var a, b := q / p, q % p;
    assert n == 256 * (p * a + b) + r;
    QuotientIs(n, 256 * p, a, 256 * b + r) by { assert 256 * (p * a) == (256 * p) * a; }
  }

  lemma QuotientIs(n: nat, d: nat, q: nat, r: nat)
    requires d > 0 && n == d * q + r && r < d
    ensures n / d == q
  {
    var k := n / d;
    assert n == d * k + n % d;
    Spaced(d, k, q);
    Spaced(d, q, k);
  }

  lemma {:induction false} Spaced(d: nat, a: nat, b: nat)
    ensures a < b ==> d * a + d <= d * b
    decreases b
  {
    if a + 1 < b {
      Spaced(d, a, b - 1);
      assert d * b == d * (b - 1) + d;
    } else if a < b {
      assert d * (a + 1) == d * a + d;
    }
  }

  /** Byte `j` of a little-endian integer is its `j`-th digit in base 256. */
  lemma {:induction false} LeByte(n: nat, k: nat, j: nat)
    requires j < k
    ensures ToLe(n, k)[j] as nat == n / Pow256(j) % 256
    decreases k
  {
    if j > 0 {
      LeByte(n / 256, k - 1, j - 1);
      DivDiv(n, Pow256(j - 1));
    }
  }

  lemma BytesBeyond(first: Bytes, rest: Bytes, n: nat)
    requires n < |rest|
    ensures |first| + n < |first + rest| && (first + rest)[|first| + n] == rest[n]
  {
  }

  lemma BytesWithin(first: Bytes, rest: Bytes, n: nat)
    requires n < |first|
    ensures n < |first + rest| && (first + rest)[n] == first[n]
  {
  }

  lemma {:induction false} EntryBytes(entries: seq<Entry>, i: nat, j: nat)
    requires i < |entries| && j < 12
    ensures 12 * i + j < |EncodeEntries(entries)|
    ensures EncodeEntries(entries)[12 * i + j] == EncodeEntry(entries[i])[j]
    decreases i
  {
    if i == 0 {
      BytesWithin(EncodeEntry(entries[0]), EncodeEntries(entries[1..]), j);
    } else {
      EntryBytes(entries[1..], i - 1, j);
      BytesBeyond(EncodeEntry(entries[0]), EncodeEntries(entries[1..]), 12 * (i - 1) + j);
      assert 12 + (12 * (i - 1) + j) == 12 * i + j && entries[1..][i - 1] == entries[i];
    }
  }

  /** The header: "NOSD", the object's size in 8 bytes, the number of entries in 4, least significant byte first. */
  lemma HeaderLayout(logical: nat, entries: seq<Entry>, j: nat)
    ensures var m := Encode(logical, entries);
      && |m| == 16 + 12 * |entries| && m[..4] == [0x4e, 0x4f, 0x53, 0x44]
      && (j < 8 ==> m[4 + j] as nat == logical / Pow256(j) % 256)
      && (j < 4 ==> m[12 + j] as nat == |entries| / Pow256(j) % 256)
  {
    var m := Encode(logical, entries);
    assert m[..4] == MAGIC;
    if j < 8 {
      LeByte(logical, WIDE, j);
      assert m[4 + j] == ToLe(logical, WIDE)[j];
    }
    if j < 4 {
      LeByte(|entries|, NARROW, j);
      assert m[12 + j] == ToLe(|entries|, NARROW)[j];
    }
  }

  /** Byte `j` of an entry. */
  function EntryByte(e: Entry, j: nat): nat
    requires j < 12
  {
    if j < 8 then e.hash / Pow256(j) % 256 else e.size / Pow256(j - 8) % 256
  }

  lemma EncodedByte(e: Entry, j: nat)
    requires j < 12
    ensures EncodeEntry(e)[j] as nat == EntryByte(e, j)
  {
    if j < 8 { LeByte(e.hash, WIDE, j); } else { LeByte(e.size, NARROW, j - 8); }
  }

  /** From byte 16 on each entry: its hash in 8 bytes and its size in 4, least significant byte first. */
  lemma EntryLayout(logical: nat, entries: seq<Entry>, i: nat, j: nat)
    requires i < |entries| && j < 12
    ensures 16 + 12 * i + j < |Encode(logical, entries)|
    ensures Encode(logical, entries)[16 + 12 * i + j] as nat == EntryByte(entries[i], j)
  {
    EntryBytes(entries, i, j);
    EncodedByte(entries[i], j);
    BytesBeyond(Header(logical, |entries|), EncodeEntries(entries), 12 * i + j);
  }

  // ---------------------------------------------------------------- parsing

  function EntryAt(s: Bytes): Entry
    requires |s| >= ENTRY_LEN
  {
    Entry(FromLe(s[..8]), FromLe(s[8..12]))
  }

  function EntriesOf(s: Bytes, count: nat): (entries: seq<Entry>)
    requires |s| == ENTRY_LEN * count
    ensures |entries| == count
    decreases count
  {
    if count == 0 then [] else [EntryAt(s)] + EntriesOf(s[ENTRY_LEN..], count - 1)
  }

  predicate HasMagic(data: Bytes) {
    |data| >= HEADER_LEN && data[..4] == MAGIC
  }

  function Logical(data: Bytes): nat requires |data| >= HEADER_LEN { FromLe(data[4..12]) }
  function Count(data: Bytes): nat requires |data| >= HEADER_LEN { FromLe(data[12..16]) }

  lemma EntryRoundTrip(e: Entry, rest: Bytes)
    requires EntryFits(e)
    ensures EntryAt(EncodeEntry(e) + rest) == e && (EncodeEntry(e) + rest)[ENTRY_LEN..] == rest
  {
    var s := EncodeEntry(e) + rest;
    Widths();
    LeRoundTrip(e.hash, WIDE);
    LeRoundTrip(e.size, NARROW);
    assert s[..8] == ToLe(e.hash, WIDE) && s[8..12] == ToLe(e.size, NARROW);
  }

  lemma {:induction false} EntriesRoundTrip(entries: seq<Entry>)
    requires AllFit(entries)
    ensures EntriesOf(EncodeEntries(entries), |entries|) == entries
  {
    if entries != [] {
      EntryRoundTrip(entries[0], EncodeEntries(entries[1..]));
      EntriesRoundTrip(entries[1..]);
      assert entries == [entries[0]] + entries[1..];
    }
  }

  lemma EntryCanonical(s: Bytes)
    requires |s| >= ENTRY_LEN
    ensures EntryFits(EntryAt(s)) && EncodeEntry(EntryAt(s)) == s[..ENTRY_LEN]
  {
    Widths();
    LeCanonical(s[..8]);
    LeCanonical(s[8..12]);
    assert s[..8] + s[8..12] == s[..12];
  }

  lemma {:induction false} EntriesCanonical(s: Bytes, count: nat)
    requires |s| == ENTRY_LEN * count
    ensures AllFit(EntriesOf(s, count)) && EncodeEntries(EntriesOf(s, count)) == s
    decreases count
  {
    if count > 0 {
      EntryCanonical(s);
      EntriesCanonical(s[ENTRY_LEN..], count - 1);
      assert EntriesOf(s, count)[1..] == EntriesOf(s[ENTRY_LEN..], count - 1);
      assert s == s[..ENTRY_LEN] + s[ENTRY_LEN..];
    }
  }

  /** The manifests the parser must take: exactly an encoding of entries that add up to the object. */
  predicate IsManifest(data: Bytes, logical: nat, entries: seq<Entry>) {
    && data == Encode(logical, entries) && TotalSize(entries) == logical
    && AllFit(entries) && |entries| <= U32_MAX && logical <= U64_MAX
  }

  lemma Fields(a: Bytes, b: Bytes, c: Bytes, d: Bytes)
    requires |a| == 4 && |b| == 8 && |c| == 4
    ensures var s := (a + b + c) + d; s[..4] == a && s[4..12] == b && s[12..16] == c && s[16..] == d
  {
  }

  lemma HeaderFields(logical: nat, count: nat, body: Bytes)
    requires logical <= U64_MAX && count <= U32_MAX
    ensures var data := Header(logical, count) + body;
      HasMagic(data) && Logical(data) == logical && Count(data) == count && data[HEADER_LEN..] == body
  {
    Widths();
    LeRoundTrip(logical, WIDE);
    LeRoundTrip(count, NARROW);
    Fields(MAGIC, ToLe(logical, WIDE), ToLe(count, NARROW), body);
  }

  lemma HeaderCanonical(data: Bytes)
    requires HasMagic(data)
    ensures Logical(data) <= U64_MAX && Count(data) <= U32_MAX
    ensures data == Header(Logical(data), Count(data)) + data[HEADER_LEN..]
  {
    Widths();
    LeCanonical(data[4..12]);
    LeCanonical(data[12..16]);
    Reassemble(data);
  }

  lemma Reassemble(s: Bytes)
    requires |s| >= 16
    ensures s == (s[..4] + s[4..12] + s[12..16]) + s[16..]
  {
  }

  /** What parsing succeeds with, and when. */
  function Parsed(data: Bytes, expected: nat): Option<seq<Entry>> {
    if !HasMagic(data) || Logical(data) != expected || |data| != ENTRY_LEN * Count(data) + HEADER_LEN then None
    else
      var entries := EntriesOf(data[HEADER_LEN..], Count(data));
      if TotalSize(entries) != expected then None else Some(entries)
  }

  /** The parser accepts a file with these entries exactly when the file is their manifest. */
  lemma ParsedIff(data: Bytes, expected: nat, entries: seq<Entry>)
    ensures Parsed(data, expected) == Some(entries) <==> IsManifest(data, expected, entries)
  {
    if IsManifest(data, expected, entries) {
      HeaderFields(expected, |entries|, EncodeEntries(entries));
      EntriesRoundTrip(entries);
    }
    if Parsed(data, expected) == Some(entries) {
      HeaderCanonical(data);
      EntriesCanonical(data[HEADER_LEN..], Count(data));
    }
  }

  lemma EntriesStep(data: Bytes, off: nat, n: nat)
    requires n > 0 && off + ENTRY_LEN * n == |data|
    ensures EntriesOf(data[off..], n) == [EntryAt(data[off..])] + EntriesOf(data[off + ENTRY_LEN..], n - 1)
  {
    assert data[off..][ENTRY_LEN..] == data[off + ENTRY_LEN..];
  }

  method ReadEntries(data: Bytes, count: nat) returns (entries: seq<Entry>)
    requires |data| == HEADER_LEN + ENTRY_LEN * count
    ensures entries == EntriesOf(data[HEADER_LEN..], count)
  {
    ghost var all := EntriesOf(data[HEADER_LEN..], count);
    entries := [];
    var off, i := HEADER_LEN, 0;
    while i < count
      invariant 0 <= i <= count && off == HEADER_LEN + ENTRY_LEN * i
      invariant entries + EntriesOf(data[off..], count - i) == all
    {
      EntriesStep(data, off, count - i);
      var e := EntryAt(data[off..]);
      Regroup(entries, [e], EntriesOf(data[off + ENTRY_LEN..], count - i - 1));
      entries := entries + [e];
      off, i := off + ENTRY_LEN, i + 1;
    }
  }

  /** The sizes' sum. It is kept in 64 bits and cannot overflow, so it is the true total. */
  method SumSizes(entries: seq<Entry>) returns (total: nat)
    requires AllFit(entries) && |entries| <= U32_MAX
    ensures total == TotalSize(entries) <= U64_MAX
  {
    TotalSizeFits(entries);
    total := 0;
    var i := 0;
    assert entries[0..] == entries;
    while i < |entries|
      invariant 0 <= i <= |entries|
      invariant total + TotalSize(entries[i..]) == TotalSize(entries)
    {
      assert entries[i..][1..] == entries[i + 1..];
      total := total + entries[i].size;
      i := i + 1;
    }
  }

  method ParseDedupManifest(data: Bytes, expected: nat) returns (r: Option<seq<Entry>>)
    ensures r == Parsed(data, expected)
  {
    if !HasMagic(data) || Logical(data) != expected { return None; }
    var count := Count(data);
    HeaderCanonical(data);
    if |data| != ENTRY_LEN * count + HEADER_LEN { return None; }
    var entries := ReadEntries(data, count);
    EntriesCanonical(data[HEADER_LEN..], count);
    var total := SumSizes(entries);
    return if total != expected then None else Some(entries);
  }
}
