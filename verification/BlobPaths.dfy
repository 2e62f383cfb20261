/**
 * Blob filenames (`blob_paths.rs`): the plain encoding, the portable one for filesystems that fold case, and
 * the one decoder for both. Keys and names are UTF-8 byte strings.
 */
module BlobPaths {
  import opened Common

  type Bytes = seq<byte>

  const PERCENT: byte := 0x25
  const SLASH: byte := 0x2f
  const DOT: byte := 0x2e
  const SPACE: byte := 0x20
  const PLUS: byte := 0x2b

  // ---------------------------------------------------------------- UTF-8

  predicate Continuation(b: byte) {
    0x80 <= b <= 0xbf
  }

  /** The length of the well-formed character at the front, or 0 (the table of section 4 of RFC 3629). */
  function CharLength(s: Bytes): (n: nat)
    ensures n <= |s|
    ensures n > 0 ==> !Continuation(s[0]) && (s[0] < 0x80 ==> n == 1)
    ensures forall i :: 0 < i < n ==> Continuation(s[i])
  {
    if s == [] then 0
    else if s[0] < 0x80 then 1
    else if |s| >= 2 && 0xc2 <= s[0] <= 0xdf && Continuation(s[1]) then 2
    else if |s| >= 3 && 0xe0 <= s[0] <= 0xef && Continuation(s[1]) && Continuation(s[2])
      && (s[0] == 0xe0 ==> s[1] >= 0xa0) && (s[0] == 0xed ==> s[1] <= 0x9f) then 3
    else if |s| >= 4 && 0xf0 <= s[0] <= 0xf4 && Continuation(s[1]) && Continuation(s[2]) && Continuation(s[3])
      && (s[0] == 0xf0 ==> s[1] >= 0x90) && (s[0] == 0xf4 ==> s[1] <= 0x8f) then 4
    else 0
  }

  predicate ValidUtf8(s: Bytes) {
    s == [] || (CharLength(s) > 0 && ValidUtf8(s[CharLength(s)..]))
  }

  /** The second byte may follow the first in a longer character. */
  predicate SecondFits(first: byte, second: byte) {
    && Continuation(second)
    && (first == 0xe0 ==> second >= 0xa0) && (first == 0xed ==> second <= 0x9f)
    && (first == 0xf0 ==> second >= 0x90) && (first == 0xf4 ==> second <= 0x8f)
  }

  /** How many bytes at the front are replaced together: the longest start of a character, or one stray byte. */
  function BadLength(s: Bytes): (n: nat)
    requires s != []
    ensures 1 <= n <= |s|
  {
    if |s| < 2 || s[0] < 0xe0 || s[0] > 0xf4 || !SecondFits(s[0], s[1]) then 1
    else if s[0] >= 0xf0 && |s| >= 3 && Continuation(s[2]) then 3
    else 2
  }

  const REPLACEMENT: Bytes := [0xef, 0xbf, 0xbd]

  /** `String::from_utf8_lossy`. */
  function Lossy(s: Bytes): Bytes {
    if s == [] then []
    else if CharLength(s) > 0 then s[..CharLength(s)] + Lossy(s[CharLength(s)..])
    else REPLACEMENT + Lossy(s[BadLength(s)..])
  }

  /** Valid text is kept as it is. */
  lemma {:induction false} LossyKeepsValid(s: Bytes)
    requires ValidUtf8(s)
    ensures Lossy(s) == s
  {
    if s != [] {
      LossyKeepsValid(s[CharLength(s)..]);
      assert s == s[..CharLength(s)] + s[CharLength(s)..];
    }
  }

  lemma CharLengthOfFront(s: Bytes, rest: Bytes)
    requires CharLength(s) > 0
    ensures CharLength(s[..CharLength(s)] + rest) == CharLength(s)
  {
    var n := CharLength(s);
    var t := s[..n] + rest;
    assert forall i :: 0 <= i < n ==> t[i] == s[i];
  }

  /** Whatever was decoded, the result is text. */
  lemma {:induction false} LossyIsValid(s: Bytes)
    ensures ValidUtf8(Lossy(s))
  {
    if s != [] {
      if CharLength(s) > 0 {
        var n := CharLength(s);
        var rest := Lossy(s[n..]);
        LossyIsValid(s[n..]);
        CharLengthOfFront(s, rest);
        assert (s[..n] + rest)[n..] == rest;
      } else {
        var rest := Lossy(s[BadLength(s)..]);
        LossyIsValid(s[BadLength(s)..]);
        assert CharLength(REPLACEMENT + rest) == 3 && (REPLACEMENT + rest)[3..] == rest;
      }
    }
  }

  /** What the proofs need of it: an ASCII byte ends a character. */
  predicate AsciiEndsChars(s: Bytes) {
    forall i :: 0 <= i < |s| - 1 && s[i] < 0x80 ==> !Continuation(s[i + 1])
  }

  lemma {:induction false} ValidEndsChars(s: Bytes)
    requires ValidUtf8(s)
    ensures AsciiEndsChars(s)
    ensures s != [] ==> !Continuation(s[0])
  {
    if s != [] {
      var n := CharLength(s);
      ValidEndsChars(s[n..]);
      forall i | 0 <= i < |s| - 1 && s[i] < 0x80 ensures !Continuation(s[i + 1]) {
        if i >= n { assert s[n..][i - n] == s[i] && s[n..][i - n + 1] == s[i + 1]; }
        else { assert i == n - 1 && s[n..][0] == s[i + 1]; }
      }
    }
  }

  // ---------------------------------------------------------------- escapes

  function HexDigit(n: nat): (b: byte)
    requires n < 16
  {
    if n < 10 then (0x30 + n) as byte else (0x41 + n - 10) as byte
  }

  function HexValue(b: byte): (v: Option<nat>)
    ensures v.Some? ==> v.value < 16
  {
    if 0x30 <= b <= 0x39 then Some((b - 0x30) as nat)
    else if 0x41 <= b <= 0x46 then Some((b - 0x41) as nat + 10)
    else if 0x61 <= b <= 0x66 then Some((b - 0x61) as nat + 10)
    else None
  }

  /** `u8::from_str_radix` of two bytes, which takes either case and a leading plus sign. */
  function FromHex(a: byte, b: byte): Option<byte> {
    if a == PLUS && HexValue(b).Some? then Some(HexValue(b).value as byte)
    else if HexValue(a).Some? && HexValue(b).Some? then Some((16 * HexValue(a).value + HexValue(b).value) as byte)
    else None
  }

  function Escape(b: byte): (s: Bytes)
    ensures |s| == 3 && s[0] == PERCENT && FromHex(s[1], s[2]) == Some(b)
    ensures s[1] < 0x80 && s[2] < 0x80
  {
    [PERCENT, HexDigit(b as nat / 16), HexDigit(b as nat % 16)]
  }

  /** An escape at the front: two hex digits between character boundaries. */
  function EscapeAt(s: Bytes): Option<byte> {
    if |s| >= 3 && s[0] == PERCENT && !Continuation(s[1]) && (|s| == 3 || !Continuation(s[3]))
    then FromHex(s[1], s[2]) else None
  }

  function Decoded(s: Bytes): Bytes {
    if s == [] then []
    else if EscapeAt(s).Some? then [EscapeAt(s).value] + Decoded(s[3..])
    else [s[0]] + Decoded(s[1..])
  }

  /** The key a blob filename stands for. */
  function KeyOf(encoded: Bytes): Bytes {
    Lossy(Decoded(encoded))
  }

  method DecodeBlobFilename(encoded: Bytes) returns (key: Bytes)
    ensures key == KeyOf(encoded) && ValidUtf8(key)
  {
    var out: Bytes := [];
    var i := 0;
    assert encoded[0..] == encoded;
    while i < |encoded|
      invariant 0 <= i <= |encoded|
      invariant out + Decoded(encoded[i..]) == Decoded(encoded)
    {
      DecodedStep(encoded, i);
      var escaped := EscapeAt(encoded[i..]);
      if escaped.Some? {
        Regroup(out, [escaped.value], Decoded(encoded[i + 3..]));
        out := out + [escaped.value];
        i := i + 3;
      } else {
        Regroup(out, [encoded[i]], Decoded(encoded[i + 1..]));
        out := out + [encoded[i]];
        i := i + 1;
      }
    }
    assert out + [] == out == Decoded(encoded);
    LossyIsValid(out);
    return Lossy(out);
  }

  lemma DecodedStep(s: Bytes, i: nat)
    requires i < |s|
    ensures EscapeAt(s[i..]).Some? ==>
      i + 3 <= |s| && Decoded(s[i..]) == [EscapeAt(s[i..]).value] + Decoded(s[i + 3..])
    ensures EscapeAt(s[i..]).None? ==> Decoded(s[i..]) == [s[i]] + Decoded(s[i + 1..])
  {
    assert s[i..][1..] == s[i + 1..];
    if i + 3 <= |s| { assert s[i..][3..] == s[i + 3..]; }
  }

  // ---------------------------------------------------------------- names as sequences of units

  function Join(units: seq<Bytes>): Bytes {
    if units == [] then [] else units[0] + Join(units[1..])
  }

  /** A unit of a name that stands for one byte of the key: the byte itself, or an escape of it. */
  predicate Spells(unit: Bytes, b: byte) {
    (unit == [b] && b != PERCENT) || (|unit| == 3 && unit[0] == PERCENT && FromHex(unit[1], unit[2]) == Some(b))
  }

  predicate SpellsAll(units: seq<Bytes>, key: Bytes) {
    && |units| == |key|
    && (forall i :: 0 <= i < |key| ==> Spells(units[i], key[i]))
    && (forall i :: 0 < i < |key| && |units[i - 1]| == 3 ==> !Continuation(units[i][0]))
  }

  lemma SpellsRest(units: seq<Bytes>, key: Bytes)
    requires SpellsAll(units, key) && key != []
    ensures SpellsAll(units[1..], key[1..])
    ensures units[1..] != [] ==> Join(units[1..]) != [] && Join(units[1..])[0] == units[1][0]
  {
    var u, k := units[1..], key[1..];
    assert forall i :: 0 <= i < |k| ==> u[i] == units[i + 1] && k[i] == key[i + 1];
    forall i | 0 < i < |k| && |u[i - 1]| == 3 ensures !Continuation(u[i][0]) {
      assert |units[(i + 1) - 1]| == 3;
    }
  }

  lemma DecodeUnit(unit: Bytes, b: byte, rest: Bytes)
    requires Spells(unit, b) && (|unit| == 3 && rest != [] ==> !Continuation(rest[0]))
    ensures Decoded(unit + rest) == [b] + Decoded(rest)
  {
    var s := unit + rest;
    if unit == [b] {
      assert s[1..] == rest;
    } else {
      assert s[3..] == rest && s[0] == PERCENT && s[1] == unit[1] && s[2] == unit[2];
      assert rest != [] ==> s[3] == rest[0];
    }
  }

  /** The decoder reads back what the units spell. */
  lemma {:induction false} JoinDecodes(units: seq<Bytes>, key: Bytes)
    requires SpellsAll(units, key)
    ensures Decoded(Join(units)) == key
  {
    if key != [] {
      SpellsRest(units, key);
      JoinDecodes(units[1..], key[1..]);
      DecodeUnit(units[0], key[0], Join(units[1..]));
      assert key == [key[0]] + key[1..];
    }
  }

  /** Up to its first escape a name spells the key, and it ends or has a dot where the key does. */
  lemma {:induction false} JoinSpells(units: seq<Bytes>, key: Bytes, t: Bytes)
    requires SpellsAll(units, key) && t <= Join(units) && PERCENT !in t
    ensures t <= key
    ensures |t| == |Join(units)| ==> |t| == |key|
    ensures |t| < |Join(units)| && Join(units)[|t|] == DOT ==> |t| < |key| && key[|t|] == DOT
    decreases |t|
  {
    var s := Join(units);
    if key != [] {
      SpellsRest(units, key);
      assert s[0] == units[0][0];
      if t != [] {
        assert t[0] == s[0] && t[0] in t;
        assert s[1..] == Join(units[1..]) && t[1..] <= s[1..];
        JoinSpells(units[1..], key[1..], t[1..]);
        assert t == [t[0]] + t[1..] && key == [key[0]] + key[1..];
      }
    }
  }

  lemma {:induction false} JoinLast(units: seq<Bytes>)
    requires units != [] && units[|units| - 1] != []
    ensures var s, u := Join(units), units[|units| - 1]; s != [] && s[|s| - 1] == u[|u| - 1]
  {
    if |units| > 1 {
      assert units[1..][|units| - 2] == units[|units| - 1];
      JoinLast(units[1..]);
    } else {
      assert Join(units[1..]) == [];
    }
  }

  // ---------------------------------------------------------------- plain names

  function PlainUnit(b: byte): Bytes {
    if b == SLASH || b == PERCENT then Escape(b) else [b]
  }

  function PlainUnits(key: Bytes): seq<Bytes> {
    seq(|key|, i requires 0 <= i < |key| => PlainUnit(key[i]))
  }

  function Plain(key: Bytes): Bytes {
    Join(PlainUnits(key))
  }

  method EncodePlain(key: Bytes) returns (out: Bytes)
    ensures out == Plain(key)
  {
    var units := PlainUnits(key);
    out := [];
    var i := 0;
    assert units[0..] == units;
    while i < |key|
      invariant 0 <= i <= |key|
      invariant out + Join(units[i..]) == Plain(key)
    {
      assert units[i..][1..] == units[i + 1..];
      Regroup(out, units[i], Join(units[i + 1..]));
      if key[i] == SLASH || key[i] == PERCENT {
        out := out + Escape(key[i]);
      } else {
        out := out + [key[i]];
      }
      i := i + 1;
    }
  }

  lemma PlainSpells(key: Bytes)
    requires AsciiEndsChars(key)
    ensures SpellsAll(PlainUnits(key), key)
  {
    var units := PlainUnits(key);
    forall i | 0 < i < |key| && |units[i - 1]| == 3 ensures !Continuation(units[i][0]) {
      assert key[i - 1] < 0x80 && !Continuation(key[(i - 1) + 1]);
    }
  }

  // ---------------------------------------------------------------- portable names

  predicate Lowercase(b: byte) { 0x61 <= b <= 0x7a }
  predicate Uppercase(b: byte) { 0x41 <= b <= 0x5a }
  predicate Digit(b: byte) { 0x30 <= b <= 0x39 }

  /** Lowercase letters, digits and the punctuation every filesystem takes. */
  predicate Harmless(b: byte) {
    || Lowercase(b) || Digit(b)
    || b == 0x20 || b == 0x21 || b == 0x23 || b == 0x24 || 0x26 <= b <= 0x29 || 0x2b <= b <= 0x2e  // !#$&'()+,-.
    || b == 0x3b || b == 0x3d || b == 0x40 || b == 0x5b || 0x5d <= b <= 0x60                       // ;=@[]^_`
    || b == 0x7b || b == 0x7d || b == 0x7e                                                         // {}~
  }

  function ToUpper(b: byte): byte { if Lowercase(b) then b - 0x20 else b }
  function ToLower(b: byte): byte { if Uppercase(b) then b + 0x20 else b }

  function Uppered(s: Bytes): Bytes { seq(|s|, i requires 0 <= i < |s| => ToUpper(s[i])) }
  function Lowered(s: Bytes): Bytes { seq(|s|, i requires 0 <= i < |s| => ToLower(s[i])) }

  /** The part of a name before its first dot. */
  function Stem(s: Bytes): (t: Bytes)
    ensures t <= s && DOT !in t
    ensures |t| < |s| ==> s[|t|] == DOT
  {
    if s == [] || s[0] == DOT then [] else [s[0]] + Stem(s[1..])
  }

  predicate DeviceStem(s: Bytes) {
    || s in {[0x43, 0x4f, 0x4e], [0x50, 0x52, 0x4e], [0x41, 0x55, 0x58], [0x4e, 0x55, 0x4c]}
    || (|s| == 4 && s[..3] in {[0x43, 0x4f, 0x4d], [0x4c, 0x50, 0x54]} && Digit(s[3]))
  }

  predicate IsDeviceName(key: Bytes) {
    DeviceStem(Uppered(Stem(key)))
  }

  /** Whether byte `i` stands for itself in the portable name. */
  predicate Kept(key: Bytes, reserved: bool, i: nat)
    requires i < |key|
  {
    && !(i + 1 == |key| && (key[i] == DOT || key[i] == SPACE))
    && !(i == 0 && reserved)
    && Harmless(key[i])
  }

  function PortableUnit(key: Bytes, reserved: bool, i: nat): (u: Bytes)
    requires i < |key|
    ensures u != [] && u[0] < 0x80
  {
    if Kept(key, reserved, i) then [key[i]] else Escape(key[i])
  }

  function PortableUnits(key: Bytes): seq<Bytes> {
    var reserved := IsDeviceName(key);
    seq(|key|, i requires 0 <= i < |key| => PortableUnit(key, reserved, i))
  }

  function Portable(key: Bytes): Bytes {
    Join(PortableUnits(key))
  }

  method EncodePortable(key: Bytes) returns (out: Bytes)
    ensures out == Portable(key)
  {
    var reserved, units := IsDeviceName(key), PortableUnits(key);
    out := [];
    var i := 0;
    assert units[0..] == units;
    while i < |key|
      invariant 0 <= i <= |key|
      invariant out + Join(units[i..]) == Portable(key)
    {
      assert units[i..][1..] == units[i + 1..];
      Regroup(out, units[i], Join(units[i + 1..]));
      if Kept(key, reserved, i) {
        out := out + [key[i]];
      } else {
        out := out + Escape(key[i]);
      }
      i := i + 1;
    }
  }

  lemma PortableSpells(key: Bytes)
    ensures SpellsAll(PortableUnits(key), key)
  {
  }

  /** The one decoder inverts both encodings of every key. */
  lemma NamesRoundTrip(key: Bytes)
    requires ValidUtf8(key)
    ensures KeyOf(Plain(key)) == key && KeyOf(Portable(key)) == key
  {
    LossyKeepsValid(key);
    ValidEndsChars(key);
    PlainSpells(key);
    JoinDecodes(PlainUnits(key), key);
    PortableSpells(key);
    JoinDecodes(PortableUnits(key), key);
  }

  /** No name of one key, in either encoding, is a name of another. */
  lemma NamesAreDistinct(a: Bytes, b: Bytes)
    requires ValidUtf8(a) && ValidUtf8(b) && a != b
    ensures {Plain(a), Portable(a)} !! {Plain(b), Portable(b)}
  {
    NamesRoundTrip(a);
    NamesRoundTrip(b);
  }

  // ---------------------------------------------------------------- folding filesystems

  function LoweredUnits(units: seq<Bytes>): seq<Bytes> {
    seq(|units|, i requires 0 <= i < |units| => Lowered(units[i]))
  }

  lemma {:induction false} LoweredJoin(units: seq<Bytes>)
    ensures Lowered(Join(units)) == Join(LoweredUnits(units))
  {
    if units != [] {
      LoweredJoin(units[1..]);
      assert LoweredUnits(units)[1..] == LoweredUnits(units[1..]);
      assert Lowered(units[0] + Join(units[1..])) == Lowered(units[0]) + Lowered(Join(units[1..]));
    }
  }

  lemma FromHexLowered(a: byte, b: byte)
    ensures FromHex(ToLower(a), ToLower(b)) == FromHex(a, b)
  {
    assert HexValue(ToLower(a)) == HexValue(a) && HexValue(ToLower(b)) == HexValue(b);
  }

  lemma LoweredSpells(key: Bytes)
    ensures SpellsAll(LoweredUnits(PortableUnits(key)), key)
  {
    var reserved, units := IsDeviceName(key), PortableUnits(key);
    var lowered := LoweredUnits(units);
    forall i | 0 <= i < |key| ensures Spells(lowered[i], key[i]) && lowered[i][0] < 0x80 {
      if Kept(key, reserved, i) {
        assert lowered[i] == [key[i]];
      } else {
        FromHexLowered(units[i][1], units[i][2]);
      }
    }
  }

  /** Portable names of different keys stay different when a filesystem folds ASCII case. */
  lemma PortableSurvivesFolding(a: Bytes, b: Bytes)
    ensures ValidUtf8(a) ==> KeyOf(Lowered(Portable(a))) == a
    ensures a != b ==> Lowered(Portable(a)) != Lowered(Portable(b))
  {
    FoldedDecodes(a);
    FoldedDecodes(b);
    if ValidUtf8(a) { LossyKeepsValid(a); }
  }

  lemma FoldedDecodes(key: Bytes)
    ensures Decoded(Lowered(Portable(key))) == key
  {
    LoweredSpells(key);
    LoweredJoin(PortableUnits(key));
    JoinDecodes(LoweredUnits(PortableUnits(key)), key);
  }

  // ---------------------------------------------------------------- names Windows refuses

  lemma {:induction false} StemUnique(s: Bytes, t: Bytes)
    requires t <= s && DOT !in t && (|t| == |s| || s[|t|] == DOT)
    ensures Stem(s) == t
  {
    if t != [] {
      assert t[0] == s[0] && t[0] in t;
      assert t[1..] <= s[1..];
      StemUnique(s[1..], t[1..]);
      assert t == [t[0]] + t[1..];
    }
  }

  lemma DeviceStemHasNoEscape(t: Bytes)
    requires DeviceStem(Uppered(t))
    ensures PERCENT !in t && t != []
  {
    var u := Uppered(t);
    forall i | 0 <= i < |t| ensures t[i] != PERCENT {
      assert u[i] == ToUpper(t[i]);
      if |u| == 4 { assert i < 3 ==> u[i] == u[..3][i]; }
    }
  }

  lemma ReservedIsEscaped(key: Bytes)
    ensures IsDeviceName(key) ==> PERCENT in Stem(Portable(key))
  {
    var s := Portable(key);
    if IsDeviceName(key) {
      DeviceStemHasNoEscape(Stem(key));
      assert PortableUnits(key)[0] == Escape(key[0]);
      assert s[0] == PERCENT;
      assert Stem(s)[0] == PERCENT;
    }
  }

  lemma PortableEnd(key: Bytes)
    requires key != []
    ensures Portable(key) != [] && Portable(key)[|Portable(key)| - 1] !in {DOT, SPACE}
  {
    var units := PortableUnits(key);
    assert units[|key| - 1] == PortableUnit(key, IsDeviceName(key), |key| - 1);
    JoinLast(units);
  }

  /** A stem without an escape is the key's own stem. */
  lemma PortableStem(key: Bytes)
    requires PERCENT !in Stem(Portable(key))
    ensures Stem(Portable(key)) == Stem(key) && !IsDeviceName(key)
  {
    var t := Stem(Portable(key));
    PortableSpells(key);
    JoinSpells(PortableUnits(key), key, t);
    StemUnique(key, t);
    ReservedIsEscaped(key);
  }

  /** A portable name is never a reserved device name, in any case, and never ends in a dot or a space. */
  lemma PortableIsAccepted(key: Bytes)
    ensures var stem := Uppered(Stem(Portable(key)));
      && stem !in {[0x43, 0x4f, 0x4e], [0x50, 0x52, 0x4e], [0x41, 0x55, 0x58], [0x4e, 0x55, 0x4c]}  // CON PRN AUX NUL
      && forall d: byte :: 0x30 <= d <= 0x39 ==>
           stem != [0x43, 0x4f, 0x4d, d] && stem != [0x4c, 0x50, 0x54, d]                           // COM0-9 LPT0-9
    ensures key != [] ==> Portable(key) != [] && Portable(key)[|Portable(key)| - 1] !in {DOT, SPACE}
  {
    if key != [] { PortableEnd(key); }
    var t := Stem(Portable(key));
    NotADevice(key);
    forall d: byte | 0x30 <= d <= 0x39 ensures Uppered(t) != [0x43, 0x4f, 0x4d, d] && Uppered(t) != [0x4c, 0x50, 0x54, d] {
      assert [0x43, 0x4f, 0x4d, d][..3] == [0x43, 0x4f, 0x4d] && [0x4c, 0x50, 0x54, d][..3] == [0x4c, 0x50, 0x54];
    }
  }

  lemma NotADevice(key: Bytes)
    ensures !DeviceStem(Uppered(Stem(Portable(key))))
  {
    var t := Stem(Portable(key));
    if PERCENT !in t {
      PortableStem(key);
    } else if DeviceStem(Uppered(t)) {
      DeviceStemHasNoEscape(t);
    }
  }

  // ---------------------------------------------------------------- which bytes a name holds

  lemma {:induction false} JoinHolds(units: seq<Bytes>, b: byte)
    requires b in Join(units)
    ensures exists i :: 0 <= i < |units| && b in units[i]
  {
    if b in units[0] {
    } else {
      JoinHolds(units[1..], b);
      var i :| 0 <= i < |units[1..]| && b in units[1..][i];
      assert units[i + 1] == units[1..][i];
    }
  }

  predicate HexUpper(b: byte) { Digit(b) || 0x41 <= b <= 0x46 }

  /** A plain name is one path component: it holds no slash, and apart from escapes only the key's bytes. */
  lemma PlainHolds(key: Bytes, b: byte)
    requires b in Plain(key)
    ensures b != SLASH && (b in key || b == PERCENT || HexUpper(b))
  {
    JoinHolds(PlainUnits(key), b);
  }

  /**
   * A portable name holds lowercase letters, digits, harmless punctuation, and escapes: no slash, no backslash, none
   * of `<>:"|?*`, no control character and no byte beyond ASCII.
   */
  lemma PortableHolds(key: Bytes, b: byte)
    requires b in Portable(key)
    ensures 0x20 <= b < 0x7f && b !in {SLASH, 0x5c, 0x3c, 0x3e, 0x3a, 0x22, 0x7c, 0x3f, 0x2a}
    ensures Uppercase(b) ==> HexUpper(b)
  {
    JoinHolds(PortableUnits(key), b);
    var i :| 0 <= i < |key| && b in PortableUnits(key)[i];
    PortableUnitHolds(key, IsDeviceName(key), i, b);
  }

  lemma PortableUnitHolds(key: Bytes, reserved: bool, i: nat, b: byte)
    requires i < |key| && b in PortableUnit(key, reserved, i)
    ensures Harmless(b) || b == PERCENT || HexUpper(b)
  {
  }

  lemma {:induction false} JoinSingles(units: seq<Bytes>, key: Bytes)
    requires |units| == |key| && forall i :: 0 <= i < |key| ==> units[i] == [key[i]]
    ensures Join(units) == key
  {
    if key != [] {
      JoinSingles(units[1..], key[1..]);
      assert key == [key[0]] + key[1..];
    }
  }

  /** A key without slash and percent is its own plain name. */
  lemma PlainKeeps(key: Bytes)
    requires SLASH !in key && PERCENT !in key
    ensures Plain(key) == key
  {
    JoinSingles(PlainUnits(key), key);
  }

  /** A key of lowercase letters, digits, `-`, `_` and inner dots that is no device name is its own portable name. */
  lemma PortableKeeps(key: Bytes)
    requires forall i :: 0 <= i < |key| ==> Lowercase(key[i]) || Digit(key[i]) || key[i] in {0x2d, 0x5f, DOT}
    requires !IsDeviceName(key) && (key != [] ==> key[|key| - 1] != DOT)
    ensures Portable(key) == key
  {
    JoinSingles(PortableUnits(key), key);
  }
}
