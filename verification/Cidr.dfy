// IPv4 ranges in CIDR notation (section 3.1 of RFC 4632) and the list
// normalisation of app/services/database_access_service.py.
module Cidr {
  import opened Results
  import opened Text

  function Pow2(n: nat): (r: nat)
    ensures r >= 1
  {
    if n == 0 then 1 else 2 * Pow2(n - 1)
  }

  const ADDRESSES: nat := 0x1_0000_0000

  // Number of addresses that share their first `prefix` bits.
  function Span(prefix: nat): (r: nat)
    requires prefix <= 32
    ensures r >= 1
  {
    Pow2(32 - prefix)
  }

  // An address together with a prefix length, host bits not yet cleared.
  datatype Range = Range(address: nat, prefix: nat)

  ghost predicate ValidRange(r: Range) { r.address < ADDRESSES && r.prefix <= 32 }

  // The first `prefix` bits agree.
  predicate Covers(r: Range, a: nat)
    requires r.prefix <= 32
  {
    a / Span(r.prefix) == r.address / Span(r.prefix)
  }

  // ----- text to range: what ipaddress.ip_network accepts for version 4 -----

  function ParseOctet(s: string): (r: Option<nat>)
    ensures r.Some? ==> r.value <= 255
  {
    if !IsDigits(s) || |s| > 3 || (s != "0" && s[0] == '0') || ParseDecimal(s) > 255 then None
    else Some(ParseDecimal(s))
  }

  function ParseAddress(s: string): (r: Option<nat>)
    ensures r.Some? ==> r.value < ADDRESSES
  {
    var parts := Split(s, '.');
    if |parts| != 4 then None
    else
      match (ParseOctet(parts[0]), ParseOctet(parts[1]), ParseOctet(parts[2]), ParseOctet(parts[3]))
      case (Some(a), Some(b), Some(c), Some(d)) => Some(((a * 256 + b) * 256 + c) * 256 + d)
      case _ => None
  }

  // The prefix length p >= from whose netmask is `mask`.
  function NetmaskPrefix(mask: nat, from: nat): (r: Option<nat>)
    ensures r.Some? ==> r.value <= 32
    decreases 33 - from
  {
    if from > 32 then None
    else if mask + Span(from) == ADDRESSES then Some(from)
    else NetmaskPrefix(mask, from + 1)
  }

  // A number, or a dotted netmask, or failing that a dotted hostmask.
  function ParsePrefix(s: string): (r: Option<nat>)
    ensures r.Some? ==> r.value <= 32
  {
    if IsDigits(s) && ParseDecimal(s) <= 32 then Some(ParseDecimal(s))
    else
      match ParseAddress(s)
      case None => None
      case Some(mask) =>
        match NetmaskPrefix(mask, 0)
        case Some(p) => Some(p)
        case None => NetmaskPrefix(ADDRESSES - 1 - mask, 0)
  }

  // Any text that is not an IPv4 range is rejected here; an IPv6 range is
  // rejected by the caller with the same exception type.
  function ParseRange(value: string): (r: Option<Range>)
    ensures r.Some? ==> ValidRange(r.value)
  {
    var parts := Split(Strip(value), '/');
    if |parts| > 2 then None
    else
      match ParseAddress(parts[0])
      case None => None
      case Some(address) =>
        if |parts| == 1 then Some(Range(address, 32))
        else
          match ParsePrefix(parts[1])
          case None => None
          case Some(prefix) => Some(Range(address, prefix))
  }

  lemma {:induction false} PowersDiffer(m: nat, n: nat)
    requires m < n
    ensures Pow2(m) < Pow2(n)
  {
    if m + 1 < n { PowersDiffer(m, n - 1); }
  }

  lemma {:induction false} NetmaskSearch(mask: nat, from: nat, p: nat)
    requires from <= p <= 32 && mask + Span(p) == ADDRESSES
    ensures NetmaskPrefix(mask, from) == Some(p)
    decreases 33 - from
  {
    if from < p {
      PowersDiffer(32 - p, 32 - from);
      NetmaskSearch(mask, from + 1, p);
    }
  }

  lemma {:induction false} NetmaskFound(mask: nat, from: nat)
    ensures NetmaskPrefix(mask, from).Some? ==> mask + Span(NetmaskPrefix(mask, from).value) == ADDRESSES
    decreases 33 - from
  {
    if from <= 32 && mask + Span(from) != ADDRESSES { NetmaskFound(mask, from + 1); }
  }

  /** A dotted mask stands for prefix length p exactly when it is all ones for p bits and then all zeros. */
  lemma NetmaskMeaning(mask: nat, p: nat)
    requires p <= 32
    ensures NetmaskPrefix(mask, 0) == Some(p) <==> mask + Span(p) == ADDRESSES
  {
    NetmaskFound(mask, 0);
    if mask + Span(p) == ADDRESSES { NetmaskSearch(mask, 0, p); }
  }

  // ----- range to text -----

  function ClearHostBits(r: Range): (n: Range)
    requires ValidRange(r)
    ensures ValidRange(n)
  {
    ClearedStart(r.address, Span(r.prefix));
    Range(r.address - r.address % Span(r.prefix), r.prefix)
  }

  function PrintAddress(a: nat): string
    requires a < ADDRESSES
  {
    Join([Decimal(a / 0x1000000), Decimal(a / 0x10000 % 256), Decimal(a / 256 % 256), Decimal(a % 256)], '.')
  }

  function PrintRange(r: Range): string
    requires ValidRange(r)
  {
    Join([PrintAddress(r.address), Decimal(r.prefix)], '/')
  }

  // ----- print and parse are inverse -----

  lemma DigitsHold(s: string, c: char)
    requires IsDigits(s) && !IsDigit(c)
    ensures c !in s
  {}

  lemma OctetRoundTrip(n: nat)
    requires n <= 255
    ensures ParseOctet(Decimal(n)) == Some(n)
    ensures '.' !in Decimal(n) && '/' !in Decimal(n)
  {
    DecimalRoundTrip(n);
  }

  lemma BytesOf(a: nat)
    requires a < ADDRESSES
    ensures a / 0x1000000 <= 255
    ensures ((a / 0x1000000 * 256 + a / 0x10000 % 256) * 256 + a / 256 % 256) * 256 + a % 256 == a
  {
    assert a / 0x10000 == a / 256 / 256;
    assert a / 0x1000000 == a / 0x10000 / 256;
  }

  lemma AddressRoundTrip(a: nat)
    requires a < ADDRESSES
    ensures ParseAddress(PrintAddress(a)) == Some(a)
  {
    hide Decimal, ParseOctet, Split, Join;
    var parts := [Decimal(a / 0x1000000), Decimal(a / 0x10000 % 256), Decimal(a / 256 % 256), Decimal(a % 256)];
    BytesOf(a);
    OctetRoundTrip(a / 0x1000000);
    OctetRoundTrip(a / 0x10000 % 256);
    OctetRoundTrip(a / 256 % 256);
    OctetRoundTrip(a % 256);
    SplitJoin(parts, '.');
  }

  lemma {:induction false} JoinAvoids(parts: seq<string>, sep: char, c: char)
    requires c != sep && forall p | p in parts :: c !in p
    ensures c !in Join(parts, sep)
  {
    if |parts| > 1 { JoinAvoids(parts[1..], sep, c); }
  }

  lemma PrintAddressShape(a: nat)
    requires a < ADDRESSES
    ensures '/' !in PrintAddress(a)
    ensures PrintAddress(a) != "" && IsDigit(PrintAddress(a)[0])
  {
    hide Decimal, ParseOctet, ParseDecimal;
    var parts := [Decimal(a / 0x1000000), Decimal(a / 0x10000 % 256), Decimal(a / 256 % 256), Decimal(a % 256)];
    BytesOf(a);
    OctetRoundTrip(a / 0x1000000);
    OctetRoundTrip(a / 0x10000 % 256);
    OctetRoundTrip(a / 256 % 256);
    OctetRoundTrip(a % 256);
    JoinAvoids(parts, '.', '/');
    DecimalRoundTrip(a / 0x1000000);
    assert PrintAddress(a)[0] == parts[0][0];
  }

  /** A printed range reads back as the same range. */
  lemma RangeRoundTrip(r: Range)
    requires ValidRange(r)
    ensures ParseRange(PrintRange(r)) == Some(r)
  {
    hide Decimal, ParseDecimal, ParseAddress, PrintAddress, Split;
    var parts := [PrintAddress(r.address), Decimal(r.prefix)];
    var text := PrintRange(r);
    PrintAddressShape(r.address);
    AddressRoundTrip(r.address);
    DecimalRoundTrip(r.prefix);
    DigitsHold(Decimal(r.prefix), '/');
    assert text == parts[0] + ['/'] + parts[1] by { assert Join([parts[1]], '/') == parts[1]; }
    assert text[|text| - 1] == parts[1][|parts[1]| - 1];
    StripNothing(text);
    SplitJoin(parts, '/');
  }

  // ----- normalisation of a list -----

  datatype CidrError = Invalid | WholeInternet

  // normalize_cidrs on one item.
  function Canonical(value: string): Result<string, CidrError> {
    match ParseRange(value)
    case None => Err(Invalid)
    case Some(r) => if r.prefix == 0 then Err(WholeInternet) else Ok(PrintRange(ClearHostBits(r)))
  }

  function Normalized(values: seq<string>): Result<seq<string>, CidrError> {
    if values == [] then Ok([])
    else
      match Normalized(values[..|values| - 1])
      case Err(e) => Err(e)
      case Ok(list) =>
        match Canonical(values[|values| - 1])
        case Err(e) => Err(e)
        case Ok(item) => Ok(if item in list then list else list + [item])
  }

  /** The loop of normalize_cidrs; the first offending item ends it. */
  method NormalizeCidrs(values: seq<string>) returns (r: Result<seq<string>, CidrError>)
    ensures r == Normalized(values)
  {
    hide Canonical;
    var normalized: seq<string> := [];
    for i := 0 to |values|
      invariant Normalized(values[..i]) == Ok(normalized)
    {
      assert values[..i + 1][..i] == values[..i];
      match Canonical(values[i]) {
        case Err(e) =>
          FirstErrorWins(values, i + 1, e);
          return Err(e);
        case Ok(item) =>
          if item !in normalized {
            normalized := normalized + [item];
          }
      }
    }
    assert values[..|values|] == values;
    return Ok(normalized);
  }

  lemma {:induction false} FirstErrorWins(values: seq<string>, i: nat, e: CidrError)
    requires i <= |values| && Normalized(values[..i]) == Err(e)
    ensures Normalized(values) == Err(e)
    decreases |values|
  {
    if i == |values| {
      assert values[..i] == values;
    } else {
      var front := values[..|values| - 1];
      assert front[..i] == values[..i];
      FirstErrorWins(front, i, e);
    }
  }

  // What the text of one item admits, host bits ignored.
  predicate Admits(value: string, a: nat) {
    var r := ParseRange(value);
    r.Some? && Covers(r.value, a)
  }

  predicate AdmitsAny(values: seq<string>, a: nat) {
    exists i :: 0 <= i < |values| && Admits(values[i], a)
  }

  // A stored item is the printed form of a range with cleared host bits.
  ghost predicate IsCanonical(item: string) {
    exists r: Range :: ValidRange(r) && 1 <= r.prefix && r.address % Span(r.prefix) == 0 && item == PrintRange(r)
  }

  lemma ClearedStart(address: nat, span: nat)
    requires span >= 1
    ensures address % span <= address
    ensures (address - address % span) % span == 0
    ensures (address - address % span) / span == address / span
  {
    assert address - address % span == address / span * span;
    MultipleOf(address / span, span);
  }

  lemma SmallMultiple(d: int, span: nat)
    ensures d >= 1 ==> d * span >= span
    ensures d <= -1 ==> d * span + span <= 0
  {
    if d >= 1 {
      assert (d - 1) * span >= 0;
    } else if d <= -1 {
      assert (-1 - d) * span >= 0;
    }
  }

  lemma MultipleOf(q: nat, span: nat)
    requires span >= 1
    ensures q * span >= 0 && (q * span) % span == 0 && (q * span) / span == q
  {
    var x := q * span;
    var d := q - x / span;
    assert d * span == x % span;
    SmallMultiple(d, span);
  }

  /** One item: the canonical text is canonical, re-normalises to itself and admits the same addresses. */
  lemma CanonicalMeaning(value: string)
    ensures Canonical(value).Ok? <==> ParseRange(value).Some? && ParseRange(value).value.prefix >= 1
    ensures Canonical(value).Ok? ==>
      var item := Canonical(value).value;
      IsCanonical(item) && Canonical(item) == Ok(item) && forall a: nat :: Admits(item, a) <==> Admits(value, a)
  {
    hide ParseRange, PrintRange, Span;
    var parsed := ParseRange(value);
    if parsed.Some? && parsed.value.prefix >= 1 {
      var r := parsed.value;
      var n := ClearHostBits(r);
      ClearedStart(r.address, Span(r.prefix));
      RangeRoundTrip(n);
      assert n.address % Span(n.prefix) == 0;
      assert ClearHostBits(n) == n;
    }
  }

  /** A list is accepted exactly when each item is an IPv4 range other than the whole Internet. */
  lemma {:induction false} NormalizedAccepts(values: seq<string>)
    ensures Normalized(values).Ok? <==>
      forall i :: 0 <= i < |values| ==> ParseRange(values[i]).Some? && ParseRange(values[i]).value.prefix != 0
  {
    hide ParseRange, Canonical;
    if values != [] {
      var front := values[..|values| - 1];
      NormalizedAccepts(front);
      forall i | 0 <= i < |front| ensures front[i] == values[i] {}
      var last := values[|values| - 1];
      CanonicalMeaning(last);
      if Normalized(values).Ok? {
        assert Canonical(last).Ok?;
        forall i | 0 <= i < |values| ensures ParseRange(values[i]).Some? && ParseRange(values[i]).value.prefix != 0 {
          if i < |front| { assert values[i] == front[i]; }
        }
      }
    }
  }

  /** The stored list holds the canonical form of every item, each once. */
  lemma {:induction false} NormalizedComplete(values: seq<string>)
    requires Normalized(values).Ok?
    ensures Distinct(Normalized(values).value)
    ensures forall j :: 0 <= j < |values| ==>
      Canonical(values[j]).Ok? && Canonical(values[j]).value in Normalized(values).value
  {
    hide ParseRange, Canonical;
    if values != [] {
      var front := values[..|values| - 1];
      NormalizedComplete(front);
      forall j | 0 <= j < |values|
        ensures Canonical(values[j]).Ok? && Canonical(values[j]).value in Normalized(values).value
      {
        if j < |front| { assert values[j] == front[j]; }
      }
    }
  }

  // list[k] comes from values[at[k]] and from no earlier item; `at` increases.
  ghost predicate FirstOccurrences(values: seq<string>, list: seq<string>, at: seq<nat>) {
    && |at| == |list|
    && (forall k :: 0 <= k < |list| ==> at[k] < |values| && Canonical(values[at[k]]) == Ok(list[k]))
    && (forall j, k :: 0 <= j < k < |list| ==> at[j] < at[k])
    && (forall j, k :: 0 <= k < |list| && 0 <= j < at[k] ==> Canonical(values[j]) != Ok(list[k]))
  }

  lemma KeepOccurrences(front: seq<string>, list: seq<string>, at: seq<nat>, last: string)
    requires FirstOccurrences(front, list, at)
    ensures FirstOccurrences(front + [last], list, at)
  {
    hide Canonical;
    var values := front + [last];
    assert forall j | 0 <= j < |front| :: values[j] == front[j];
  }

  lemma AddOccurrence(front: seq<string>, list: seq<string>, at: seq<nat>, last: string, item: string)
    requires FirstOccurrences(front, list, at) && Canonical(last) == Ok(item)
    requires forall j | 0 <= j < |front| :: Canonical(front[j]) != Ok(item)
    ensures FirstOccurrences(front + [last], list + [item], at + [|front|])
  {
    hide Canonical;
    var values := front + [last];
    assert forall j | 0 <= j < |front| :: values[j] == front[j];
    KeepOccurrences(front, list, at, last);
  }

  /** The stored list keeps the order of first occurrence, and all its items are canonical. */
  lemma {:induction false} NormalizedOrder(values: seq<string>) returns (at: seq<nat>)
    requires Normalized(values).Ok?
    ensures FirstOccurrences(values, Normalized(values).value, at)
    ensures forall item | item in Normalized(values).value :: IsCanonical(item)
  {
    hide ParseRange, Canonical, IsCanonical, FirstOccurrences;
    if values == [] {
      at := [];
      assert FirstOccurrences([], [], []) by { NothingOccurs(); }
    } else {
      var front := values[..|values| - 1];
      var last := values[|values| - 1];
      at := NormalizedOrder(front);
      CanonicalMeaning(last);
      NormalizedComplete(front);
      var list0 := Normalized(front).value;
      var item := Canonical(last).value;
      assert values == front + [last];
      if item in list0 {
        KeepOccurrences(front, list0, at, last);
      } else {
        AddOccurrence(front, list0, at, last, item);
        at := at + [|front|];
      }
    }
  }

  lemma NothingOccurs()
    ensures FirstOccurrences([], [], [])
  {}

  /** The stored list admits exactly the addresses that the submitted items admit. */
  lemma NormalizedAdmits(values: seq<string>, a: nat)
    requires Normalized(values).Ok?
    ensures AdmitsAny(Normalized(values).value, a) <==> AdmitsAny(values, a)
  {
    hide ParseRange, Canonical, Admits;
    var list := Normalized(values).value;
    var at := NormalizedOrder(values);
    NormalizedComplete(values);
    assert FirstOccurrences(values, list, at);
    if AdmitsAny(list, a) {
      var k :| 0 <= k < |list| && Admits(list[k], a);
      CanonicalMeaning(values[at[k]]);
      assert Admits(values[at[k]], a);
    }
    if AdmitsAny(values, a) {
      var j :| 0 <= j < |values| && Admits(values[j], a);
      CanonicalMeaning(values[j]);
      var k :| 0 <= k < |list| && list[k] == Canonical(values[j]).value;
      assert Admits(list[k], a);
    }
  }

  lemma {:induction false} FixedPoint(list: seq<string>)
    requires Distinct(list) && forall i :: 0 <= i < |list| ==> Canonical(list[i]) == Ok(list[i])
    ensures Normalized(list) == Ok(list)
  {
    hide Canonical;
    if list != [] {
      var front := list[..|list| - 1];
      FixedPoint(front);
      assert front + [list[|list| - 1]] == list;
    }
  }

  /** A stored list is read back unchanged, so re-reading it never raises. */
  lemma NormalizedIdempotent(values: seq<string>)
    requires Normalized(values).Ok?
    ensures Normalized(Normalized(values).value) == Normalized(values)
  {
    hide ParseRange, Canonical;
    var list := Normalized(values).value;
    var at := NormalizedOrder(values);
    NormalizedComplete(values);
    forall i | 0 <= i < |list| ensures Canonical(list[i]) == Ok(list[i]) {
      CanonicalMeaning(values[at[i]]);
    }
    FixedPoint(list);
  }

  // ----- what a submitted text means -----

  function Dotted(a: nat, b: nat, c: nat, d: nat): string {
    Join([Decimal(a), Decimal(b), Decimal(c), Decimal(d)], '.')
  }

  /** An octet is a decimal numeral up to 255 without leading zeros. */
  lemma OctetMeaning(s: string, n: nat)
    ensures ParseOctet(s) == Some(n) <==> n <= 255 && s == Decimal(n)
  {
    if n <= 255 && s == Decimal(n) { OctetRoundTrip(n); }
    if ParseOctet(s) == Some(n) { DecimalOfParse(s); }
  }

  /** Four decimal octets are an address, the first one the most significant. */
  lemma AddressMeaning(a: nat, b: nat, c: nat, d: nat)
    requires a <= 255 && b <= 255 && c <= 255 && d <= 255
    ensures ParseAddress(Dotted(a, b, c, d)) == Some(a * 0x1000000 + b * 0x10000 + c * 0x100 + d)
  {
    hide Decimal, ParseOctet, Split, Join;
    OctetRoundTrip(a);
    OctetRoundTrip(b);
    OctetRoundTrip(c);
    OctetRoundTrip(d);
    SplitJoin([Decimal(a), Decimal(b), Decimal(c), Decimal(d)], '.');
  }

  /** And there are no other addresses. */
  lemma AddressForm(s: string)
    ensures ParseAddress(s).Some? <==>
      exists a: nat, b: nat, c: nat, d: nat :: a <= 255 && b <= 255 && c <= 255 && d <= 255 && s == Dotted(a, b, c, d)
  {
    hide Decimal, ParseOctet, Split, Join;
    var parts := Split(s, '.');
    if ParseAddress(s).Some? {
      var a, b := ParseOctet(parts[0]).value, ParseOctet(parts[1]).value;
      var c, d := ParseOctet(parts[2]).value, ParseOctet(parts[3]).value;
      OctetMeaning(parts[0], a);
      OctetMeaning(parts[1], b);
      OctetMeaning(parts[2], c);
      OctetMeaning(parts[3], d);
      JoinSplit(s, '.');
      assert parts == [Decimal(a), Decimal(b), Decimal(c), Decimal(d)];
      assert s == Dotted(a, b, c, d);
    }
    if a: nat, b: nat, c: nat, d: nat :|
      a <= 255 && b <= 255 && c <= 255 && d <= 255 && s == Dotted(a, b, c, d) {
      AddressMeaning(a, b, c, d);
    }
  }

  /** There is one address for p = 32, and each bit less of the prefix doubles their number. */
  lemma SpanMeaning(p: nat)
    requires p < 32
    ensures Span(32) == 1 && Span(p) == 2 * Span(p + 1) && Span(0) == ADDRESSES
  {
    PowOfTwo(p);
  }

  lemma PowOfTwo(p: nat)
    requires p < 32
    ensures Pow2(0) == 1 && Pow2(32 - p) == 2 * Pow2(32 - (p + 1)) && Pow2(32) == ADDRESSES
  {
    PowThirtyTwo();
  }

  lemma PowFour()
    ensures Pow2(4) == 16
  {
    assert Pow2(2) == 4;
  }

  lemma PowThirtyTwo()
    ensures Pow2(32) == ADDRESSES
  {
    hide Pow2;
    PowFour();
    PowAdds(4, 4);
    PowAdds(8, 8);
    PowAdds(16, 16);
  }

  lemma {:induction false} PowAdds(m: nat, n: nat)
    ensures Pow2(m + n) == Pow2(m) * Pow2(n)
  {
    if n > 0 {
      PowAdds(m, n - 1);
    }
  }

  /** A text without a slash admits the one address it is, and nothing if it is none. */
  lemma BareMeaning(value: string, x: nat)
    requires '/' !in Strip(value)
    ensures Admits(value, x) <==> ParseAddress(Strip(value)) == Some(x)
  {
    hide Strip, ParseAddress, Split;
    SplitOne(Strip(value), '/');
    SpanMeaning(0);
  }

  /** A text with one slash admits the addresses that share the first bits with its address. */
  lemma SlashMeaning(value: string, left: string, right: string, x: nat)
    requires Strip(value) == left + "/" + right && '/' !in left && '/' !in right
    ensures Admits(value, x) <==>
      && ParseAddress(left).Some? && ParsePrefix(right).Some?
      && var span := Span(ParsePrefix(right).value); x / span == ParseAddress(left).value / span
  {
    hide Strip, ParseAddress, ParsePrefix, Split, Span;
    SplitHead(left, right, '/');
    SplitOne(right, '/');
    assert left + ['/'] + right == Strip(value);
  }

  /** A text with two slashes or more is refused. */
  lemma SlashesRefused(value: string, left: string, middle: string, right: string)
    requires Strip(value) == left + "/" + middle + "/" + right && '/' !in left && '/' !in middle
    ensures ParseRange(value).None?
  {
    hide Strip, ParseAddress, ParsePrefix, Split;
    SplitHead(left, middle + ['/'] + right, '/');
    SplitHead(middle, right, '/');
    assert left + ['/'] + (middle + ['/'] + right) == Strip(value);
  }

  /** What follows the slash is a number up to 32, a netmask, or a hostmask that is no netmask. */
  lemma PrefixMeaning(s: string, p: nat)
    requires p <= 32
    ensures ParsePrefix(s) == Some(p) <==>
      || (IsDigits(s) && ParseDecimal(s) == p)
      || (ParseAddress(s).Some? && ParseAddress(s).value == ADDRESSES - Span(p))
      || (ParseAddress(s).Some? && NetmaskPrefix(ParseAddress(s).value, 0).None? &&
          ParseAddress(s).value == Span(p) - 1)
  {
    hide ParseDecimal, Span, NetmaskPrefix, Split;
    if IsDigits(s) {
      DigitsHold(s, '.');
      SplitOne(s, '.');
    } else if ParseAddress(s).Some? {
      var mask := ParseAddress(s).value;
      NetmaskMeaning(mask, p);
      NetmaskMeaning(ADDRESSES - 1 - mask, p);
    }
  }

  /** A list is refused with the error of its first bad item: no range at all, or all addresses. */
  lemma {:induction false} NormalizedError(values: seq<string>, e: CidrError)
    ensures Normalized(values) == Err(e) <==> exists i :: 0 <= i < |values| && FirstBad(values, i, e)
  {
    hide Canonical;
    if values != [] {
      var last := |values| - 1;
      var front := values[..last];
      NormalizedError(front, e);
      AllGood(front);
      FirstBadFront(values, e);
      if Normalized(values) == Err(e) && Normalized(front).Ok? {
        assert FirstBad(values, last, e);
      }
      if i :| 0 <= i < |front| && FirstBad(front, i, e) { assert FirstBad(values, i, e); }
      if i :| 0 <= i < |values| && FirstBad(values, i, e) {
        if i < last { assert FirstBad(front, i, e); }
      }
    }
  }

  lemma FirstBadFront(values: seq<string>, e: CidrError)
    requires values != []
    ensures var front := values[..|values| - 1];
      forall i | 0 <= i < |front| :: FirstBad(values, i, e) <==> FirstBad(front, i, e)
    ensures FirstBad(values, |values| - 1, e) <==>
      Canonical(values[|values| - 1]) == Err(e) && Normalized(values[..|values| - 1]).Ok?
  {
    hide Canonical, Normalized;
    var front := values[..|values| - 1];
    AllGood(front);
    assert forall i | 0 <= i < |front| :: front[i] == values[i];
  }

  predicate FirstBad(values: seq<string>, i: nat, e: CidrError)
    requires i < |values|
  {
    Canonical(values[i]) == Err(e) && forall j | 0 <= j < i :: Canonical(values[j]).Ok?
  }

  lemma {:induction false} AllGood(values: seq<string>)
    ensures Normalized(values).Ok? <==> forall i | 0 <= i < |values| :: Canonical(values[i]).Ok?
  {
    hide Canonical;
    if values != [] {
      var front := values[..|values| - 1];
      AllGood(front);
      assert forall i | 0 <= i < |front| :: front[i] == values[i];
    }
  }

  lemma ItemError(value: string)
    ensures Canonical(value) == Err(Invalid) <==> ParseRange(value).None?
    ensures Canonical(value) == Err(WholeInternet) <==> ParseRange(value).Some? && ParseRange(value).value.prefix == 0
  {
    hide ParseRange;
  }

  lemma DottedShape(a: nat, b: nat, c: nat, d: nat)
    requires a <= 255 && b <= 255 && c <= 255 && d <= 255
    ensures var x := a * 0x1000000 + b * 0x10000 + c * 0x100 + d;
      x < ADDRESSES && PrintAddress(x) == Dotted(a, b, c, d)
  {
    hide Decimal, Join;
    var x := a * 0x1000000 + b * 0x10000 + c * 0x100 + d;
    assert x / 256 == a * 0x10000 + b * 0x100 + c && x % 256 == d;
    assert x / 0x10000 == a * 0x100 + b && x / 0x1000000 == a;
  }

  lemma {:induction false} JoinLast(parts: seq<string>, sep: char)
    requires parts != [] && parts[|parts| - 1] != ""
    ensures var last := parts[|parts| - 1];
      Join(parts, sep) != "" && Join(parts, sep)[|Join(parts, sep)| - 1] == last[|last| - 1]
  {
    if |parts| > 1 { JoinLast(parts[1..], sep); }
  }

  lemma AddressStrips(x: nat)
    requires x < ADDRESSES
    ensures Strip(PrintAddress(x)) == PrintAddress(x)
  {
    hide Decimal, ParseDecimal;
    PrintAddressShape(x);
    var parts := [Decimal(x / 0x1000000), Decimal(x / 0x10000 % 256), Decimal(x / 256 % 256), Decimal(x % 256)];
    DecimalRoundTrip(x % 256);
    JoinLast(parts, '.');
    var text := PrintAddress(x);
    assert text[|text| - 1] == parts[3][|parts[3]| - 1];
    StripNothing(text);
  }

  /** A single address is stored as itself with prefix length 32. */
  lemma BareStored(a: nat, b: nat, c: nat, d: nat)
    requires a <= 255 && b <= 255 && c <= 255 && d <= 255
    ensures Normalized([Dotted(a, b, c, d)]) == Ok([Dotted(a, b, c, d) + "/32"])
  {
    hide PrintAddress, Dotted, Strip, Split, ParseAddress;
    var text := Dotted(a, b, c, d);
    var x := a * 0x1000000 + b * 0x10000 + c * 0x100 + d;
    DottedShape(a, b, c, d);
    PrintAddressShape(x);
    AddressStrips(x);
    AddressMeaning(a, b, c, d);
    SplitOne(text, '/');
    SpanMeaning(0);
    assert Decimal(32) == "32";
    assert [text, "32"][1..] == ["32"] && Join(["32"], '/') == "32";
    assert Join([text, "32"], '/') == text + ['/'] + "32";
    assert PrintRange(Range(x, 32)) == text + "/32";
    assert Canonical(text) == Ok(text + "/32");
    hide Canonical;
    assert [text][..0] == [] && Normalized([]) == Ok([]);
    assert [] + [text + "/32"] == [text + "/32"];
    assert Normalized([text]) == Ok([text + "/32"]);
  }

  lemma PrintedCanonical(r: Range)
    requires ValidRange(r) && r.prefix >= 1
    ensures Canonical(PrintRange(r)) == Ok(PrintRange(ClearHostBits(r)))
  {
    hide PrintRange, ParseRange, ClearHostBits;
    RangeRoundTrip(r);
  }

  /** Of a /24 range the last octet is cleared. */
  lemma NetworkStored(a: nat, b: nat, c: nat, d: nat)
    requires a <= 255 && b <= 255 && c <= 255 && d <= 255
    ensures Canonical(Dotted(a, b, c, d) + "/24") == Ok(Dotted(a, b, c, 0) + "/24")
  {
    hide PrintAddress, Dotted, Canonical;
    var x := a * 0x1000000 + b * 0x10000 + c * 0x100 + d;
    DottedShape(a, b, c, d);
    DottedShape(a, b, c, 0);
    assert Span(24) == 256;
    assert ClearHostBits(Range(x, 24)) == Range(x - d, 24);
    PrintedWith(x, 24);
    PrintedWith(x - d, 24);
    assert Decimal(24) == "24";
    PrintedCanonical(Range(x, 24));
    assert Dotted(a, b, c, d) + "/" + "24" == Dotted(a, b, c, d) + "/24";
    assert Dotted(a, b, c, 0) + "/" + "24" == Dotted(a, b, c, 0) + "/24";
  }

  lemma PrintedWith(x: nat, p: nat)
    requires x < ADDRESSES && p <= 32
    ensures PrintRange(Range(x, p)) == PrintAddress(x) + "/" + Decimal(p)
  {
    hide PrintAddress, Decimal;
    assert [PrintAddress(x), Decimal(p)][1..] == [Decimal(p)] && Join([Decimal(p)], '/') == Decimal(p);
    assert Join([PrintAddress(x), Decimal(p)], '/') == PrintAddress(x) + ['/'] + Decimal(p);
  }
}
