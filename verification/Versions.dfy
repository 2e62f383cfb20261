/** Change versions (`versions.rs`): their order and the header they travel in. */
module Versions {
  import opened Common
  import opened Decimal

  /** When and where a change was made; ordered by time, then by the origin node's id. */
  datatype Version = Version(micros: int, origin: string)

  /** String order: byte-wise on UTF-8, which is character-wise on code points. */
  predicate TextLess(a: string, b: string) {
    b != [] && (a == [] || a[0] < b[0] || (a[0] == b[0] && TextLess(a[1..], b[1..])))
  }

  predicate Less(a: Version, b: Version) {
    a.micros < b.micros || (a.micros == b.micros && TextLess(a.origin, b.origin))
  }

  /** `current.version >= incoming`. */
  predicate AtLeast(current: Version, incoming: Version) {
    !Less(current, incoming)
  }

  lemma {:induction false} TextOrderTotal(a: string, b: string)
    ensures !(TextLess(a, b) && TextLess(b, a))
    ensures TextLess(a, b) || TextLess(b, a) || a == b
    ensures !TextLess(a, a)
  {
    if a != [] {
      TextOrderTotal(a[1..], a[1..]);
      if b != [] {
        TextOrderTotal(a[1..], b[1..]);
        if a[0] == b[0] && a[1..] == b[1..] {
          assert a == [a[0]] + a[1..] && b == [b[0]] + b[1..];
        }
      }
    }
  }

  lemma {:induction false} TextOrderTransitive(a: string, b: string, c: string)
    requires TextLess(a, b) && TextLess(b, c)
    ensures TextLess(a, c)
  {
    if a != [] && a[0] == b[0] && b[0] == c[0] {
      TextOrderTransitive(a[1..], b[1..], c[1..]);
    }
  }

  lemma DiffersLater(a: string, b: string)
    ensures forall n :: Differs(a, b, n) && n > 0 ==> a != [] && b != [] && a[0] == b[0]
  {
    forall n | Differs(a, b, n) && n > 0 ensures a != [] && b != [] && a[0] == b[0] {
      assert a[0] == a[..n][0] && b[0] == b[..n][0];
    }
  }

  /** The first difference decides, and a proper prefix comes first. */
  lemma {:induction false} TextLessMeans(a: string, b: string)
    ensures TextLess(a, b) <==> exists n :: Differs(a, b, n)
  {
    DiffersLater(a, b);
    if b != [] && a != [] && a[0] == b[0] {
      TextLessMeans(a[1..], b[1..]);
      if TextLess(a, b) {
        var n :| Differs(a[1..], b[1..], n);
        assert a[..n + 1] == [a[0]] + a[1..][..n] && b[..n + 1] == [b[0]] + b[1..][..n];
        assert Differs(a, b, n + 1);
      }
      forall n | Differs(a, b, n) ensures Differs(a[1..], b[1..], n - 1) {
        assert n > 0 && a[1..][..n - 1] == a[..n][1..] && b[1..][..n - 1] == b[..n][1..];
      }
    } else if TextLess(a, b) {
      assert Differs(a, b, 0);
    }
  }

  /** The texts agree on their first `n` characters, and there `a` ends or has the smaller one. */
  predicate Differs(a: string, b: string, n: int) {
    0 <= n <= |a| && n < |b| && a[..n] == b[..n] && (n == |a| || a[n] < b[n])
  }

  /** Versions are totally ordered, so any two changes with distinct versions have one winner. */
  lemma OrderTotal(a: Version, b: Version)
    ensures !(Less(a, b) && Less(b, a)) && !Less(a, a)
    ensures Less(a, b) || Less(b, a) || a == b
  {
    TextOrderTotal(a.origin, b.origin);
    TextOrderTotal(a.origin, a.origin);
  }

  lemma OrderTransitive(a: Version, b: Version, c: Version)
    requires AtLeast(b, a) && AtLeast(c, b)
    ensures AtLeast(c, a)
  {
    OrderTotal(a, b);
    OrderTotal(b, c);
    OrderTotal(a, c);
    if a.micros == b.micros == c.micros && TextLess(a.origin, b.origin) && TextLess(b.origin, c.origin) {
      TextOrderTransitive(a.origin, b.origin, c.origin);
    }
  }

  /** `x-nd-replication-version: {micros};{origin}`. */
  function ToHeader(v: Version): (s: string) {
    PrintInt(v.micros) + ";" + v.origin
  }

  function FromHeader(s: string): (r: Option<Version>) {
    match SplitOnce(s, ';')
    case None => None
    case Some(parts) =>
      match ParseI64(Trim(parts.0))
      case None => None
      case Some(micros) => Some(Version(micros, parts.1))
  }

  /** A label survives the trip, whatever separators the node id contains. */
  lemma HeaderRoundTrip(v: Version)
    requires I64_MIN <= v.micros <= I64_MAX
    ensures FromHeader(ToHeader(v)) == Some(v)
    ensures SplitOnce(ToHeader(v), ';') == Some((PrintInt(v.micros), v.origin))
  {
    var digits := PrintInt(v.micros);
    assert forall i :: 0 <= i < |digits| ==> digits[i] == '-' || IsDigit(digits[i]);
    SplitOnceAt(digits, ';', v.origin);
    TrimOfTrimmed(digits);
    ParseOfPrint(v.micros);
  }
}
