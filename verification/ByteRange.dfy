/** A GET's `Range` header against an object of a given size (`range.rs`; section 14.1.2 of RFC 9110). */
module ByteRange {
  import opened Common
  import opened Decimal

  datatype RangeRequest = Ignore | Satisfiable(first: nat, last: nat) | Unsatisfiable

  function LowerChar(c: char): char {
    if 'A' <= c <= 'Z' then (c as int + 32) as char else c
  }

  function LowerText(s: string): string {
    seq(|s|, i requires 0 <= i < |s| => LowerChar(s[i]))
  }

  predicate HasBytesUnit(value: string) {
    |value| >= 6 && LowerText(value[..6]) == "bytes="
  }

  function EvaluateSuffix(text: string, size: nat): (r: RangeRequest)
    ensures r.Satisfiable? ==> r.first <= r.last < size
  {
    match ParseU64(text)
    case None => Ignore
    case Some(n) =>
      if n == 0 || size == 0 then Unsatisfiable
      else Satisfiable(size - (if n < size then n else size), size - 1)
  }

  function EvaluateFrom(start: nat, text: string, size: nat): (r: RangeRequest)
    ensures r.Satisfiable? ==> r.first <= r.last < size
  {
    if text != "" && (ParseU64(text).None? || ParseU64(text).value < start) then Ignore
    else if start >= size then Unsatisfiable
    else if text == "" then Satisfiable(start, size - 1)
    else
      var v := ParseU64(text).value;
      Satisfiable(start, if v < size - 1 then v else size - 1)
  }

  /** The two texts around the dash of a single byte range, trimmed. */
  function RangeParts(header: string): Option<(string, string)> {
    var value := Trim(header);
    if !HasBytesUnit(value) || ',' in value[6..] then None
    else
      match SplitOnce(value[6..], '-')
      case None => None
      case Some(parts) => Some((Trim(parts.0), Trim(parts.1)))
  }

  function EvaluateParts(parts: Option<(string, string)>, size: nat): (r: RangeRequest)
    ensures r.Satisfiable? ==> r.first <= r.last < size
  {
    if parts.None? then Ignore
    else if parts.value.0 == "" then EvaluateSuffix(parts.value.1, size)
    else
      match ParseU64(parts.value.0)
      case None => Ignore
      case Some(start) => EvaluateFrom(start, parts.value.1, size)
  }

  function EvaluateRange(header: string, size: nat): (r: RangeRequest)
    ensures r.Satisfiable? ==> r.first <= r.last < size
  {
    EvaluateParts(RangeParts(header), size)
  }

  // ---------------------------------------------------------------- what a range means

  /** A byte range as the RFC defines it: from a position, optionally to one, or the last so many bytes. */
  datatype Spec = From(first: nat, last: Option<nat>) | Last(count: nat)

  predicate ValidSpec(spec: Spec) {
    spec.From? && spec.last.Some? ==> spec.first <= spec.last.value
  }

  /** Position `p` of an object of `size` bytes is requested. */
  predicate Requests(spec: Spec, size: nat, p: nat) {
    p < size && match spec
      case From(first, last) => first <= p && (last.Some? ==> p <= last.value)
      case Last(count) => p >= size - count
  }

  /** The header is a single range of bytes and reads as `spec`. */
  ghost predicate Denotes(header: string, spec: Spec) {
    exists a, b :: Reads(Trim(header), a, b, spec)
  }

  predicate Reads(value: string, a: string, b: string, spec: Spec) {
    && HasBytesUnit(value) && value[6..] == a + "-" + b && '-' !in a && ',' !in value[6..] && ValidSpec(spec)
    && match spec
       case Last(count) => Trim(a) == "" && ParseU64(Trim(b)) == Some(count)
       case From(first, last) =>
         && ParseU64(Trim(a)) == Some(first)
         && (if last.Some? then ParseU64(Trim(b)) == last else Trim(b) == "")
  }

  lemma ReadsSplits(value: string, a: string, b: string, spec: Spec)
    requires Reads(value, a, b, spec)
    ensures SplitOnce(value[6..], '-') == Some((a, b))
  {
    SplitOnceAt(a, '-', b);
  }

  /** A result that serves exactly the requested bytes, or says that none exist. */
  ghost predicate Serves(r: RangeRequest, spec: Spec, size: nat) {
    match r
    case Ignore => false
    case Unsatisfiable => forall p: nat :: !Requests(spec, size, p)
    case Satisfiable(first, last) =>
      first <= last < size && forall p: nat :: Requests(spec, size, p) <==> first <= p <= last
  }

  lemma SuffixServes(text: string, size: nat, count: nat)
    requires ParseU64(text) == Some(count)
    ensures Serves(EvaluateSuffix(text, size), Last(count), size)
  {
  }

  lemma FromServes(start: nat, text: string, size: nat, last: Option<nat>)
    requires if last.Some? then text != "" && ParseU64(text) == last else text == ""
    requires last.Some? ==> start <= last.value
    ensures Serves(EvaluateFrom(start, text, size), From(start, last), size)
  {
  }

  /** The whole meaning of a header that reads as a range. */
  lemma RangeMeaning(header: string, size: nat, spec: Spec)
    requires Denotes(header, spec)
    ensures Serves(EvaluateRange(header, size), spec, size)
  {
    var a, b :| Reads(Trim(header), a, b, spec);
    ReadsSplits(Trim(header), a, b, spec);
    match spec
    case Last(count) => SuffixServes(Trim(b), size, count);
    case From(first, last) => FromServes(first, Trim(b), size, last);
  }

  /** Everything else is ignored, and nothing that reads as a range is. */
  lemma IgnoredIff(header: string, size: nat)
    ensures EvaluateRange(header, size) == Ignore <==> !exists spec :: Denotes(header, spec)
  {
    var value := Trim(header);
    if EvaluateRange(header, size) != Ignore {
      var parts := SplitOnce(value[6..], '-').value;
      var first, last := Trim(parts.0), Trim(parts.1);
      var spec := if first == "" then Last(ParseU64(last).value)
                  else From(ParseU64(first).value, if last == "" then None else ParseU64(last));
      assert Reads(value, parts.0, parts.1, spec);
      assert Denotes(header, spec);
    } else if exists spec :: Denotes(header, spec) {
      var spec :| Denotes(header, spec);
      RangeMeaning(header, size, spec);
    }
  }

  /** What a GET serves: the first position and the number of bytes, or nothing when no requested byte exists. */
  function SpanOf(r: RangeRequest, size: nat): (span: Option<(nat, nat)>)
    requires r.Satisfiable? ==> r.first <= r.last < size
    ensures span.Some? ==> span.value.0 + span.value.1 <= size
  {
    match r
    case Ignore => Some((0, size))
    case Unsatisfiable => None
    case Satisfiable(first, last) => Some((first, last - first + 1))
  }

  function Span(header: Option<string>, size: nat): (span: Option<(nat, nat)>)
    ensures span.Some? ==> span.value.0 + span.value.1 <= size
  {
    SpanOf(if header.None? then Ignore else EvaluateRange(header.value, size), size)
  }

  /** A span is exactly what the header requests: the whole object unless the header reads as a range. */
  lemma SpanIsRequested(header: Option<string>, size: nat, spec: Spec)
    requires header.Some? && Denotes(header.value, spec)
    ensures Span(header, size).None? <==> forall p: nat :: !Requests(spec, size, p)
    ensures Span(header, size).Some? ==> forall p: nat ::
      Requests(spec, size, p) <==> Span(header, size).value.0 <= p < Span(header, size).value.0 + Span(header, size).value.1
  {
    RangeMeaning(header.value, size, spec);
    var r := EvaluateRange(header.value, size);
    if r.Satisfiable? { assert Requests(spec, size, r.first); }
  }

  lemma WholeUnlessRange(header: Option<string>, size: nat)
    requires header.None? || !exists spec :: Denotes(header.value, spec)
    ensures Span(header, size) == Some((0, size))
  {
    if header.Some? { IgnoredIff(header.value, size); }
  }

  // ---------------------------------------------------------------- headers as clients write them

  function Print(spec: Spec): string {
    match spec
    case From(first, last) => "bytes=" + (PrintNat(first) + "-" + if last.Some? then PrintNat(last.value) else "")
    case Last(count) => "bytes=" + ("" + "-" + PrintNat(count))
  }

  predicate Fits(spec: Spec) {
    match spec
    case From(first, last) => first <= U64_MAX && (last.Some? ==> last.value <= U64_MAX)
    case Last(count) => count <= U64_MAX
  }

  lemma PrintedNumber(n: nat)
    requires n <= U64_MAX
    ensures Trim(PrintNat(n)) == PrintNat(n) && ParseU64(PrintNat(n)) == Some(n)
    ensures '-' !in PrintNat(n) && ',' !in PrintNat(n)
  {
    var s := PrintNat(n);
    assert IsDigit(s[0]) && IsDigit(s[|s| - 1]);
    TrimOfTrimmed(s);
    ValueOfPrint(n);
  }

  lemma Unit(body: string)
    ensures HasBytesUnit("bytes=" + body) && ("bytes=" + body)[6..] == body
  {
    var s := "bytes=" + body;
    assert s[..6] == "bytes=";
    assert LowerText("bytes=") == "bytes=";
  }

  lemma RangeText(a: string, b: string)
    requires Trim(b) == b && '-' !in a && ',' !in a && ',' !in b
    ensures var s := "bytes=" + (a + "-" + b);
      Trim(s) == s && HasBytesUnit(s) && s[6..] == a + "-" + b && ',' !in s[6..]
  {
    var s := "bytes=" + (a + "-" + b);
    Unit(a + "-" + b);
    assert s[0] == 'b';
    assert s[|s| - 1] == if b == "" then '-' else b[|b| - 1];
    TrimOfTrimmed(s);
  }

  lemma PrintedSuffixDenotes(count: nat)
    requires count <= U64_MAX
    ensures Denotes(Print(Last(count)), Last(count))
  {
    var s := Print(Last(count));
    PrintedNumber(count);
    RangeText("", PrintNat(count));
    assert Reads(s, "", PrintNat(count), Last(count));
  }

  lemma PrintedFromDenotes(first: nat, last: Option<nat>, tail: string)
    requires first <= U64_MAX && (last.Some? ==> first <= last.value <= U64_MAX)
    requires tail == if last.Some? then PrintNat(last.value) else ""
    ensures Denotes("bytes=" + (PrintNat(first) + "-" + tail), From(first, last))
  {
    PrintedNumber(first);
    if last.Some? { PrintedNumber(last.value); }
    RangeText(PrintNat(first), tail);
    assert Reads("bytes=" + (PrintNat(first) + "-" + tail), PrintNat(first), tail, From(first, last));
  }

  /** A letter of the unit in either case. */
  predicate EitherCase(c: char, lower: char) {
    c == lower || ('a' <= lower <= 'z' && c as int == lower as int - 32)
  }

  lemma UnitLowers(unit: string)
    requires |unit| == 6 && forall i :: 0 <= i < 6 ==> EitherCase(unit[i], "bytes="[i])
    ensures LowerText(unit) == "bytes=" && !IsWhitespace(unit[0])
  {
  }

  lemma AnyUnit(unit: string, text: string, spec: Spec, a: string, b: string)
    requires |unit| == 6 && LowerText(unit) == "bytes=" && Reads("bytes=" + text, a, b, spec)
    ensures Reads(unit + text, a, b, spec)
  {
    assert (unit + text)[..6] == unit && (unit + text)[6..] == text && ("bytes=" + text)[6..] == text;
  }

  /** The unit may be written in any mixture of cases, and a blank before the header does not matter. */
  lemma UnitIgnoresCase(unit: string, text: string, spec: Spec)
    requires |unit| == 6 && forall i :: 0 <= i < 6 ==> EitherCase(unit[i], "bytes="[i])
    requires text != "" && !IsWhitespace(text[|text| - 1]) && Denotes("bytes=" + text, spec)
    ensures Denotes(unit + text, spec) && Denotes(" " + (unit + text), spec)
  {
    UnitLowers(unit);
    UnitTrims("bytes=", text);
    UnitTrims(unit, text);
    var a, b :| Reads("bytes=" + text, a, b, spec);
    AnyUnit(unit, text, spec, a, b);
  }

  lemma UnitTrims(unit: string, text: string)
    requires unit != "" && !IsWhitespace(unit[0]) && text != "" && !IsWhitespace(text[|text| - 1])
    ensures Trim(unit + text) == unit + text && Trim(" " + (unit + text)) == unit + text
  {
    TrimOfTrimmed(unit + text);
    assert (" " + (unit + text))[1..] == unit + text;
  }

  /** The canonical header of every range reads as that range. */
  lemma {:induction false} PrintedRangeDenotes(spec: Spec)
    requires ValidSpec(spec) && Fits(spec)
    ensures Denotes(Print(spec), spec)
  {
    match spec
    case Last(count) => PrintedSuffixDenotes(count);
    case From(first, last) =>
      PrintedFromDenotes(first, last, if last.Some? then PrintNat(last.value) else "");
  }
}
