/**
 * Source identities and dictionary keys. A camera is identified by its IPv4
 * address held as a number in [0, 2^32), the host-order value of the dotted
 * quad; the dictionaries of the monitor are keyed by strings joined with '_'.
 */
module Utils {
  import opened Wrappers
  import opened Text

  const TwoTo32: int := 0x1_0000_0000

  /** One part of a dotted quad in canonical decimal form: no leading zero, at most 255. */
  function ParseOctet(p: string): (r: Option<int>)
    ensures r.Some? ==> 0 <= r.value < 256
    ensures r.Some? ==> NatToString(r.value) == p
  {
    if |p| == 0 || !IsDigits(p) || (|p| > 1 && p[0] == '0') then None
    else if DigitsValue(p) < 256 then
      NatToStringOfDigitsValue(p);
      Some(DigitsValue(p))
    else None
  }

  function FormatQuad(a: nat, b: nat, c: nat, d: nat): string {
    NatToString(a) + "." + NatToString(b) + "." + NatToString(c) + "." + NatToString(d)
  }

  /**
   * `IpAddressToLong`: the number whose big-endian bytes are the four parts;
   * `None` where `IPAddress.Parse` is not given a canonical dotted quad.
   */
  function IpAddressToLong(addr: string): (r: Option<int>)
    ensures r.Some? ==> 0 <= r.value < TwoTo32
  {
    var parts := Split(addr, '.');
    if |parts| != 4 then None
    else
      match (ParseOctet(parts[0]), ParseOctet(parts[1]), ParseOctet(parts[2]), ParseOctet(parts[3]))
      case (Some(a), Some(b), Some(c), Some(d)) => Some(((a * 256 + b) * 256 + c) * 256 + d)
      case _ => None
  }

  /**
   * `LongToIpAddress`: the `(int)` cast keeps the low 32 bits of the `long`,
   * which are then printed as four bytes, most significant first.
   */
  function LongToIpAddress(address: int): string {
    var u := address % TwoTo32;
    var r1 := u / 256;
    var r2 := r1 / 256;
    FormatQuad(r2 / 256, r2 % 256, r1 % 256, u % 256)
  }

  /** `GenerateKey(CameraEvent)`: address and event type. */
  function GenerateKey(ipAddress: string, eventType: string): string {
    ipAddress + "_" + eventType
  }

  /** `GenerateKey(AutomationCommand)`: device and event name. */
  function GenerateCommandKey(device: string, eventName: string): string {
    device + "_" + eventName
  }

  /** `GenerateKey(CameraEvent, long)`: decimal source id and event type. */
  function GenerateSourceKey(id: int, eventType: string): string {
    IntToString(id) + "_" + eventType
  }

  /** The part every key of source `id` starts with. */
  function SourcePrefix(id: int): string {
    IntToString(id) + "_"
  }

  // ---------------------------------------------------------------------------
  // Dotted quad <-> number

  lemma DivMod256(x: int, y: int)
    requires 0 <= y < 256
    ensures (x * 256 + y) / 256 == x && (x * 256 + y) % 256 == y
  {
  }

  lemma NatToStringHasNoDot(n: nat)
    ensures '.' !in NatToString(n) && '_' !in NatToString(n)
  {
    var s := NatToString(n);
    assert forall i | 0 <= i < |s| :: IsDigit(s[i]);
  }

  /** Four pieces without dots, joined by dots, split back into the four pieces. */
  lemma SplitFour(sa: string, sb: string, sc: string, sd: string)
    requires '.' !in sa && '.' !in sb && '.' !in sc && '.' !in sd
    ensures Split(sa + "." + sb + "." + sc + "." + sd, '.') == [sa, sb, sc, sd]
  {
    SplitWithoutSeparator(sa, '.');
    SplitTrailingPiece(sa, '.', sb);
    SplitTrailingPiece(sa + "." + sb, '.', sc);
    SplitTrailingPiece(sa + "." + sb + "." + sc, '.', sd);
  }

  /** The four parts of a formatted quad are the four numbers' decimal texts. */
  lemma SplitFormatQuad(a: nat, b: nat, c: nat, d: nat)
    ensures Split(FormatQuad(a, b, c, d), '.')
         == [NatToString(a), NatToString(b), NatToString(c), NatToString(d)]
  {
    NatToStringHasNoDot(a);
    NatToStringHasNoDot(b);
    NatToStringHasNoDot(c);
    NatToStringHasNoDot(d);
    SplitFour(NatToString(a), NatToString(b), NatToString(c), NatToString(d));
  }

  /** A formatted quad of bytes denotes a1*2^24 + a2*2^16 + a3*2^8 + a4. */
  lemma IpAddressToLongOfFormatQuad(a: nat, b: nat, c: nat, d: nat)
    requires a < 256 && b < 256 && c < 256 && d < 256
    ensures IpAddressToLong(FormatQuad(a, b, c, d))
         == Some(a * 0x100_0000 + b * 0x1_0000 + c * 0x100 + d)
  {
    SplitFormatQuad(a, b, c, d);
    DigitsValueOfNatToString(a);
    DigitsValueOfNatToString(b);
    DigitsValueOfNatToString(c);
    DigitsValueOfNatToString(d);
    assert ((a * 256 + b) * 256 + c) * 256 + d == a * 0x100_0000 + b * 0x1_0000 + c * 0x100 + d;
  }

  /** The bytes `LongToIpAddress` prints, most significant first, recombine to the number. */
  lemma ByteDecomposition(n: int)
    requires 0 <= n < TwoTo32
    ensures var r1 := n / 256; var r2 := r1 / 256;
      && r2 / 256 < 256
      && n == (r2 / 256) * 0x100_0000 + (r2 % 256) * 0x1_0000 + (r1 % 256) * 0x100 + n % 256
  {
    var r1 := n / 256;
    var r2 := r1 / 256;
    assert n == r1 * 256 + n % 256;
    assert r1 == r2 * 256 + r1 % 256;
    assert r2 == (r2 / 256) * 256 + r2 % 256;
  }

  /** Every address number survives the trip through its dotted-quad text. */
  lemma IpAddressToLongOfLongToIpAddress(n: int)
    requires 0 <= n < TwoTo32
    ensures IpAddressToLong(LongToIpAddress(n)) == Some(n)
  {
    var r1 := n / 256;
    var r2 := r1 / 256;
    ByteDecomposition(n);
    assert n % TwoTo32 == n;
    assert LongToIpAddress(n) == FormatQuad(r2 / 256, r2 % 256, r1 % 256, n % 256);
    IpAddressToLongOfFormatQuad(r2 / 256, r2 % 256, r1 % 256, n % 256);
  }

  /** Printing the number of four bytes gives the quad of those bytes. */
  lemma LongToIpAddressOfBytes(a: nat, b: nat, c: nat, d: nat)
    requires a < 256 && b < 256 && c < 256 && d < 256
    ensures LongToIpAddress(((a * 256 + b) * 256 + c) * 256 + d) == FormatQuad(a, b, c, d)
  {
    var r2 := a * 256 + b;
    var r1 := r2 * 256 + c;
    var n := r1 * 256 + d;
    assert r2 < 0x1_0000 && r1 < 0x100_0000 && n < TwoTo32;
    DivMod256(r1, d);
    DivMod256(r2, c);
    DivMod256(a, b);
    assert n % TwoTo32 == n;
    assert n / 256 == r1 && r1 / 256 == r2 && r2 / 256 == a;
    assert n % 256 == d && r1 % 256 == c && r2 % 256 == b;
  }

  lemma JoinFour(parts: seq<string>)
    requires |parts| == 4
    ensures Join(parts, '.') == parts[0] + "." + parts[1] + "." + parts[2] + "." + parts[3]
  {
    var p0, p1, p2, p3 := parts[0], parts[1], parts[2], parts[3];
    assert parts[1..] == [p1, p2, p3];
    assert parts[1..][1..] == [p2, p3];
    assert parts[1..][1..][1..] == [p3];
    assert Join([p2, p3], '.') == p2 + ['.'] + p3;
    assert Join([p1, p2, p3], '.') == p1 + ['.'] + (p2 + ['.'] + p3);
    assert Join(parts, '.') == p0 + ['.'] + (p1 + ['.'] + (p2 + ['.'] + p3));
  }

  /** A dotted quad that parses is printed back exactly as it was written. */
  lemma LongToIpAddressOfIpAddressToLong(addr: string)
    requires IpAddressToLong(addr).Some?
    ensures LongToIpAddress(IpAddressToLong(addr).value) == addr
  {
    var parts := Split(addr, '.');
    var a, b, c, d := ParseOctet(parts[0]).value, ParseOctet(parts[1]).value,
                      ParseOctet(parts[2]).value, ParseOctet(parts[3]).value;
    assert IpAddressToLong(addr).value == ((a * 256 + b) * 256 + c) * 256 + d;
    LongToIpAddressOfBytes(a, b, c, d);
    JoinSplit(addr, '.');
    JoinFour(parts);
  }

  // ---------------------------------------------------------------------------
  // Keys

  /** Two '_'-free heads followed by '_' agree when one key starts with the other's head. */
  lemma UnderscoreHeadUnique(x: string, y: string, t: string)
    requires '_' !in x && '_' !in y
    requires x + "_" <= y + "_" + t
    ensures x == y
  {
    var s := y + "_" + t;
    assert s == x + "_" + s[|x| + 1..];
    IndexOfCharAfter(x, '_', s[|x| + 1..]);
    IndexOfCharAfter(y, '_', t);
    assert x == s[..|x|] && y == s[..|y|];
  }

  lemma IntToStringHasNoUnderscore(id: int)
    ensures '_' !in IntToString(id)
  {
    var s := IntToString(id);
    assert forall k | 0 <= k < |s| :: IsDigit(s[k]) || s[k] == '-';
  }

  /**
   * A key that starts with source `j`'s prefix belongs to source `j` only, so
   * the keys of different sources never meet.
   */
  lemma SourcePrefixOwnsKey(j: int, id: int, eventType: string)
    requires SourcePrefix(j) <= GenerateSourceKey(id, eventType)
    ensures j == id
  {
    IntToStringHasNoUnderscore(j);
    IntToStringHasNoUnderscore(id);
    UnderscoreHeadUnique(IntToString(j), IntToString(id), eventType);
    IntToStringInjective(j, id);
  }

  lemma SourceKeyHasSourcePrefix(id: int, eventType: string)
    ensures SourcePrefix(id) <= GenerateSourceKey(id, eventType)
  {
  }

  /**
   * `(id, eventType) -> GenerateSourceKey(id, eventType)` is injective, which
   * lets one device hold several event types at once.
   */
  lemma GenerateSourceKeyInjective(id1: int, t1: string, id2: int, t2: string)
    requires GenerateSourceKey(id1, t1) == GenerateSourceKey(id2, t2)
    ensures id1 == id2 && t1 == t2
  {
    SourcePrefixOwnsKey(id1, id2, t2);
    var p := SourcePrefix(id1);
    assert t1 == GenerateSourceKey(id1, t1)[|p|..];
    assert t2 == GenerateSourceKey(id2, t2)[|p|..];
  }

  /** Keys built from a device's printed address and an event type are injective too. */
  lemma GenerateKeyInjectiveOnAddresses(n1: int, t1: string, n2: int, t2: string)
    requires 0 <= n1 < TwoTo32 && 0 <= n2 < TwoTo32
    requires GenerateKey(LongToIpAddress(n1), t1) == GenerateKey(LongToIpAddress(n2), t2)
    ensures n1 == n2 && t1 == t2
  {
    var a1, a2 := LongToIpAddress(n1), LongToIpAddress(n2);
    FormatHasNoUnderscore(n1);
    FormatHasNoUnderscore(n2);
    UnderscoreHeadUnique(a1, a2, t2);
    IpAddressToLongOfLongToIpAddress(n1);
    IpAddressToLongOfLongToIpAddress(n2);
    assert t1 == GenerateKey(a1, t1)[|a1| + 1..];
    assert t2 == GenerateKey(a2, t2)[|a2| + 1..];
  }

  lemma FormatHasNoUnderscore(n: int)
    ensures '_' !in LongToIpAddress(n)
  {
    var u := n % TwoTo32;
    var r1 := u / 256;
    var r2 := r1 / 256;
    NatToStringHasNoDot(r2 / 256);
    NatToStringHasNoDot(r2 % 256);
    NatToStringHasNoDot(r1 % 256);
    NatToStringHasNoDot(u % 256);
  }
}
