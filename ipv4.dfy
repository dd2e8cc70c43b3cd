/**
  The IPv4 half of Python's ipaddress module, as the simulator uses it:
  ip_address() to accept a ping or traceroute target, and ip_interface()
  to validate and normalise the address of a device interface.

  An address is its 32-bit value, a nat below AddressSpace.  A netmask
  with prefix length p keeps the top p bits; masking an address with it
  clears the low 32 - p bits, which is written here as arithmetic.
*/
module Ipv4 {
  import opened Options
  import opened Text

  const AddressSpace: nat := 0x1_0000_0000
  const AllOnes: nat := 0xFFFF_FFFF

  // ---------------------------------------------------------------- powers of two

  function Pow2(k: nat): (r: nat)
    ensures r >= 1
  {
    if k == 0 then 1 else 2 * Pow2(k - 1)
  }

  lemma {:induction false} Pow2Add(a: nat, b: nat)
    ensures Pow2(a + b) == Pow2(a) * Pow2(b)
    decreases a
  {
    if a > 0 {
      Pow2Add(a - 1, b);
      assert Pow2(a + b) == 2 * Pow2(a - 1 + b);
    }
  }

  lemma Pow2Of32()
    ensures Pow2(32) == AddressSpace
  {
    assert Pow2(8) == 256;
    Pow2Add(8, 8);
    Pow2Add(16, 16);
  }

  lemma Pow2Even(k: nat)
    requires k >= 1
    ensures Pow2(k) % 2 == 0
  {
  }

  lemma MulDivCancel(q: nat, d: nat)
    requires d >= 1
    ensures (q * d) / d == q && (q * d) % d == 0
  {
    var r, m := (q * d) / d, (q * d) % d;
    assert q * d == d * r + m && 0 <= m < d;
    assert d * (q - r) == m;
    ProductSign(d, q - r);
  }

  /** A positive factor keeps a non-zero integer at least that far from zero. */
  lemma {:induction false} ProductSign(d: int, k: int)
    requires d >= 1
    ensures k >= 1 ==> d * k >= d
    ensures k <= -1 ==> d * k <= -d
    decreases if k < 0 then -k else k
  {
    if k > 1 {
      ProductSign(d, k - 1);
      assert d * k == d * (k - 1) + d;
    } else if k < -1 {
      ProductSign(d, k + 1);
      assert d * k == d * (k + 1) - d;
    }
  }

  // ---------------------------------------------------------------- dotted quads

  /**
    One octet of a dotted quad: one to three ASCII digits, no leading zero
    unless the octet is "0" itself, and a value of at most 255.
  */
  function ParseOctet(s: string): (r: Option<nat>)
    ensures r.Some? ==> r.value < 256
  {
    if s == [] || !AllDigits(s) || |s| > 3 then None
    else if s != "0" && s[0] == '0' then None
    else if DecimalValue(s) > 255 then None
    else Some(DecimalValue(s))
  }

  /** A digit run without leading zeros and of value below 256 has at most three digits. */
  lemma ShortCanonical(s: string)
    requires Canonical(s) && DecimalValue(s) < 256
    ensures |s| <= 3
  {
    if s[0] != '0' {
      DecimalValueBound(s);
      Pow10AtLeast(|s| - 1);
    }
  }

  lemma {:induction false} Pow10AtLeast(k: nat)
    ensures k >= 3 ==> Pow10(k) >= 1000
  {
    if k > 3 {
      Pow10AtLeast(k - 1);
    }
  }

  /** An octet is accepted exactly when it is the decimal spelling of a value below 256. */
  lemma ParseOctetIff(s: string, v: nat)
    ensures ParseOctet(s) == Some(v) <==> v < 256 && s == NatToString(v)
  {
    if ParseOctet(s) == Some(v) {
      assert Canonical(s);
      NatToStringOfDecimal(s);
    }
    if v < 256 && s == NatToString(v) {
      assert Canonical(s);
      ShortCanonical(s);
    }
  }

  function Combine(a: nat, b: nat, c: nat, d: nat): nat {
    ((a * 256 + b) * 256 + c) * 256 + d
  }

  /** ipaddress._ip_int_from_string: exactly four dot-separated octets. */
  function ParseAddress(s: string): (r: Option<nat>)
    ensures r.Some? ==> r.value < AddressSpace
  {
    var parts := SplitOn(s, '.');
    if |parts| != 4 then None
    else
      match (ParseOctet(parts[0]), ParseOctet(parts[1]), ParseOctet(parts[2]), ParseOctet(parts[3]))
      case (Some(a), Some(b), Some(c), Some(d)) => Some(Combine(a, b, c, d))
      case _ => None
  }

  /** The four octets of an address, most significant first. */
  function Octets(x: nat): (r: seq<nat>)
    requires x < AddressSpace
    ensures |r| == 4 && forall i :: 0 <= i < 4 ==> r[i] < 256
  {
    [x / 0x100_0000, x / 0x1_0000 % 256, x / 256 % 256, x % 256]
  }

  /** The dotted-quad text of an address, as str() of an IPv4Address prints it. */
  function FormatAddress(x: nat): string
    requires x < AddressSpace
  {
    var o := Octets(x);
    JoinOn([NatToString(o[0]), NatToString(o[1]), NatToString(o[2]), NatToString(o[3])], '.')
  }

  lemma CombineOctets(a: nat, b: nat, c: nat, d: nat)
    requires a < 256 && b < 256 && c < 256 && d < 256
    ensures Combine(a, b, c, d) < AddressSpace
    ensures Octets(Combine(a, b, c, d)) == [a, b, c, d]
  {
    var x := Combine(a, b, c, d);
    var y := (a * 256 + b) * 256 + c;
    assert x == y * 256 + d;
    assert x / 256 == y && x % 256 == d;
    assert y / 256 == a * 256 + b && y % 256 == c;
    assert (a * 256 + b) / 256 == a && (a * 256 + b) % 256 == b;
    assert x / 0x1_0000 == (x / 256) / 256;
    assert x / 0x100_0000 == ((x / 256) / 256) / 256;
  }

  lemma OctetsCombine(x: nat)
    requires x < AddressSpace
    ensures Combine(Octets(x)[0], Octets(x)[1], Octets(x)[2], Octets(x)[3]) == x
  {
    var q1 := x / 256;
    var q2 := q1 / 256;
    var q3 := q2 / 256;
    assert x == q1 * 256 + x % 256;
    assert q1 == q2 * 256 + q1 % 256;
    assert q2 == q3 * 256 + q2 % 256;
    assert x / 0x1_0000 == q2;
    assert x / 0x100_0000 == q3;
  }

  lemma DecimalHasNoDot(v: nat)
    ensures '.' !in NatToString(v)
  {
    var s := NatToString(v);
    forall i | 0 <= i < |s| ensures s[i] != '.' {
      assert IsDigit(s[i]);
    }
  }

  lemma JoinFour(a: string, b: string, c: string, d: string)
    ensures JoinOn([a, b, c, d], '.') == a + ['.'] + (b + ['.'] + (c + ['.'] + d))
  {
    assert [a, b, c, d][1..] == [b, c, d] && [b, c, d][1..] == [c, d] && [c, d][1..] == [d];
    assert JoinOn([c, d], '.') == c + ['.'] + d;
    assert JoinOn([b, c, d], '.') == b + ['.'] + (c + ['.'] + d);
  }

  /** Four dot-free pieces joined with dots split back into the same four pieces. */
  lemma SplitJoinFour(a: string, b: string, c: string, d: string)
    requires '.' !in a && '.' !in b && '.' !in c && '.' !in d
    ensures SplitOn(JoinOn([a, b, c, d], '.'), '.') == [a, b, c, d]
  {
    JoinFour(a, b, c, d);
    var t2 := c + ['.'] + d;
    var t1 := b + ['.'] + t2;
    SplitOnWithout(d, '.');
    SplitOnJoin(c, '.', d);
    SplitOnJoin(b, '.', t2);
    SplitOnJoin(a, '.', t1);
  }

  /** Splitting a printed address at its dots gives the four printed octets. */
  lemma SplitFormatted(a: nat, b: nat, c: nat, d: nat)
    ensures SplitOn(JoinOn([NatToString(a), NatToString(b), NatToString(c), NatToString(d)], '.'), '.')
         == [NatToString(a), NatToString(b), NatToString(c), NatToString(d)]
  {
    DecimalHasNoDot(a);
    DecimalHasNoDot(b);
    DecimalHasNoDot(c);
    DecimalHasNoDot(d);
    SplitJoinFour(NatToString(a), NatToString(b), NatToString(c), NatToString(d));
  }

  /**
    An address text is accepted exactly when it is the canonical printing
    of its value: parsing and printing are inverse, and no other spelling
    (leading zeros, missing or extra octets, signs, spaces) is accepted.
  */
  lemma ParseAddressIff(s: string, x: nat)
    ensures ParseAddress(s) == Some(x) <==> x < AddressSpace && s == FormatAddress(x)
  {
    if ParseAddress(s) == Some(x) {
      var parts := SplitOn(s, '.');
      var a, b, c, d := ParseOctet(parts[0]).value, ParseOctet(parts[1]).value,
                        ParseOctet(parts[2]).value, ParseOctet(parts[3]).value;
      ParseOctetIff(parts[0], a);
      ParseOctetIff(parts[1], b);
      ParseOctetIff(parts[2], c);
      ParseOctetIff(parts[3], d);
      CombineOctets(a, b, c, d);
      SplitOnInverse(s, '.');
      assert parts == [NatToString(a), NatToString(b), NatToString(c), NatToString(d)];
    }
    if x < AddressSpace && s == FormatAddress(x) {
      var o := Octets(x);
      SplitFormatted(o[0], o[1], o[2], o[3]);
      ParseOctetIff(NatToString(o[0]), o[0]);
      ParseOctetIff(NatToString(o[1]), o[1]);
      ParseOctetIff(NatToString(o[2]), o[2]);
      ParseOctetIff(NatToString(o[3]), o[3]);
      OctetsCombine(x);
    }
  }

  /** ipaddress.ip_address() on a string, restricted to IPv4: is it an address? */
  predicate IsAddress(s: string) {
    ParseAddress(s).Some?
  }

  // ---------------------------------------------------------------- netmasks

  /** The netmask of prefix length p: p one bits followed by 32 - p zero bits. */
  function Netmask(p: nat): nat
    requires p <= 32
  {
    (Pow2(p) - 1) * Pow2(32 - p)
  }

  /**
    ipaddress._count_righthand_zero_bits: the number of trailing zero bits of
    x, and bits when x is zero.
  */
  function TrailingZeros(x: nat, bits: nat): (t: nat)
    ensures t <= bits
  {
    if bits == 0 || x % 2 == 1 then 0 else 1 + TrailingZeros(x / 2, bits - 1)
  }

  /** ipaddress._prefix_from_ip_int: the prefix length of a netmask, None for anything else. */
  function PrefixFromIpInt(x: nat): Option<nat>
    requires x < AddressSpace
  {
    var t := TrailingZeros(x, 32);
    var p := 32 - t;
    if x / Pow2(t) == Pow2(p) - 1 then Some(p) else None
  }

  /** x is its trailing-zero count of low zero bits above an odd part (or the bits ran out). */
  lemma {:induction false} TrailingZerosFactor(x: nat, bits: nat) returns (q: nat)
    ensures x == q * Pow2(TrailingZeros(x, bits))
    ensures TrailingZeros(x, bits) < bits ==> q % 2 == 1
    decreases bits
  {
    if bits == 0 || x % 2 == 1 {
      q := x;
    } else {
      var q' := TrailingZerosFactor(x / 2, bits - 1);
      var t' := TrailingZeros(x / 2, bits - 1);
      assert x == 2 * (x / 2);
      assert Pow2(t' + 1) == 2 * Pow2(t');
      q := q';
      assert x == 2 * (q' * Pow2(t'));
      assert x == q' * (2 * Pow2(t'));
    }
  }

  lemma {:induction false} TrailingZerosOfShift(m: nat, k: nat, bits: nat)
    requires m % 2 == 1 && k <= bits
    ensures TrailingZeros(m * Pow2(k), bits) == k
    decreases k
  {
    if k > 0 {
      var y := m * Pow2(k - 1);
      assert m * Pow2(k) == 2 * y;
      TrailingZerosOfShift(m, k - 1, bits - 1);
    }
  }

  lemma {:induction false} TrailingZerosOfZero(bits: nat)
    ensures TrailingZeros(0, bits) == bits
  {
    if bits > 0 {
      TrailingZerosOfZero(bits - 1);
    }
  }

  lemma Pow2Split(p: nat)
    requires p <= 32
    ensures Pow2(p) * Pow2(32 - p) == AddressSpace
  {
    Pow2Add(p, 32 - p);
    Pow2Of32();
  }

  lemma MulLess(a: nat, b: nat)
    requires a >= 1
    ensures (a - 1) * b == a * b - b
  {
  }

  lemma NetmaskInRange(p: nat)
    requires p <= 32
    ensures Netmask(p) < AddressSpace
  {
    Pow2Split(p);
    MulLess(Pow2(p), Pow2(32 - p));
  }

  /** What PrefixFromIpInt accepts is a netmask. */
  lemma PrefixFromIpIntSound(x: nat, p: nat)
    requires x < AddressSpace
    requires PrefixFromIpInt(x) == Some(p)
    ensures p <= 32 && x == Netmask(p)
  {
    var t := TrailingZeros(x, 32);
    var q := TrailingZerosFactor(x, 32);
    MulDivCancel(q, Pow2(t));
    assert q == Pow2(p) - 1;
  }

  /** Every netmask is accepted, with its own prefix length. */
  lemma PrefixFromIpIntComplete(x: nat, p: nat)
    requires x < AddressSpace
    requires p <= 32 && x == Netmask(p)
    ensures PrefixFromIpInt(x) == Some(p)
  {
    if p == 0 {
      ZeroMaskPrefix();
    } else {
      NonzeroMaskPrefix(p);
    }
  }

  lemma ZeroMaskPrefix()
    ensures PrefixFromIpInt(0) == Some(0)
  {
    TrailingZerosOfZero(32);
    assert 0 / Pow2(32) == 0;
  }

  lemma NonzeroMaskPrefix(p: nat)
    requires 1 <= p <= 32
    ensures Netmask(p) < AddressSpace && PrefixFromIpInt(Netmask(p)) == Some(p)
  {
    NetmaskInRange(p);
    NetmaskTrailingZeros(p);
    NetmaskQuotient(p);
    PrefixOfShape(Netmask(p), 32 - p);
  }

  /** A nonzero netmask of length p ends in exactly 32 - p zero bits. */
  lemma NetmaskTrailingZeros(p: nat)
    requires 1 <= p <= 32
    ensures TrailingZeros(Netmask(p), 32) == 32 - p
  {
    Pow2Even(p);
    TrailingZerosOfShift(Pow2(p) - 1, 32 - p, 32);
  }

  /** Shifting a netmask of length p right by 32 - p leaves p one bits. */
  lemma NetmaskQuotient(p: nat)
    requires p <= 32
    ensures Netmask(p) / Pow2(32 - p) == Pow2(p) - 1
  {
    MulDivCancel(Pow2(p) - 1, Pow2(32 - p));
  }

  lemma PrefixOfShape(x: nat, t: nat)
    requires x < AddressSpace && t <= 32
    requires TrailingZeros(x, 32) == t && x / Pow2(t) == Pow2(32 - t) - 1
    ensures PrefixFromIpInt(x) == Some(32 - t)
  {
  }

  /** A value has a prefix length exactly when it is the netmask of that length. */
  lemma PrefixFromIpIntIff(x: nat, p: nat)
    requires x < AddressSpace
    ensures PrefixFromIpInt(x) == Some(p) <==> p <= 32 && x == Netmask(p)
  {
    if PrefixFromIpInt(x) == Some(p) {
      PrefixFromIpIntSound(x, p);
    }
    if p <= 32 && x == Netmask(p) {
      PrefixFromIpIntComplete(x, p);
    }
  }

  /**
    ipaddress._prefix_from_ip_string: a dotted quad that is a netmask, or
    else whose bitwise inverse is one (a hostmask).
  */
  function PrefixFromIpString(s: string): Option<nat> {
    match ParseAddress(s)
    case None => None
    case Some(x) =>
      match PrefixFromIpInt(x)
      case Some(p) => Some(p)
      case None => PrefixFromIpInt(AllOnes - x)
  }

  /** ipaddress._prefix_from_prefix_string: ASCII digits (leading zeros allowed) of a value 0..32. */
  function PrefixFromPrefixString(s: string): (r: Option<nat>)
    ensures r.Some? ==> r.value <= 32
  {
    if s != [] && AllDigits(s) && DecimalValue(s) <= 32 then Some(DecimalValue(s)) else None
  }

  /** ipaddress._make_netmask on a string: a prefix length, or failing that a netmask or hostmask. */
  function MakeNetmask(s: string): Option<nat> {
    match PrefixFromPrefixString(s)
    case Some(p) => Some(p)
    case None => PrefixFromIpString(s)
  }

  /** Every prefix the mask text can yield is a valid prefix length, given by one of the three forms. */
  lemma MakeNetmaskSpec(s: string, p: nat)
    requires MakeNetmask(s) == Some(p)
    ensures p <= 32
    ensures PrefixFromPrefixString(s) == Some(p)
         || exists x :: ParseAddress(s) == Some(x) && (x == Netmask(p) || AllOnes - x == Netmask(p))
  {
    if PrefixFromPrefixString(s).None? {
      var x := ParseAddress(s).value;
      if PrefixFromIpInt(x).Some? {
        PrefixFromIpIntIff(x, p);
        assert x == Netmask(p);
      } else {
        PrefixFromIpIntIff(AllOnes - x, p);
        assert AllOnes - x == Netmask(p);
      }
      assert ParseAddress(s) == Some(x);
    }
  }

  // ---------------------------------------------------------------- interfaces

  /** An IPv4Interface: an address together with the prefix length of its network. */
  datatype Interface = Interface(addr: nat, prefix: nat)

  predicate ValidInterface(i: Interface) {
    i.addr < AddressSpace && i.prefix <= 32
  }

  /**
    ipaddress.ip_interface() on a string, restricted to IPv4: an address,
    optionally followed by "/" and a prefix length, netmask or hostmask;
    more than one "/" is refused.  Without a mask the prefix is 32.
  */
  function ParseInterface(s: string): (r: Option<Interface>)
    ensures r.Some? ==> ValidInterface(r.value)
  {
    var parts := SplitOn(s, '/');
    if |parts| > 2 then None
    else
      match ParseAddress(parts[0])
      case None => None
      case Some(x) =>
        if |parts| == 1 then Some(Interface(x, 32))
        else
          match MakeNetmask(parts[1])
          case None => None
          case Some(p) =>
            MakeNetmaskSpec(parts[1], p);
            Some(Interface(x, p))
  }

  /** The network address: the interface's address with the host bits cleared (address AND netmask). */
  function NetworkAddress(i: Interface): nat
    requires ValidInterface(i)
  {
    RoundDownTo(i.addr, Pow2(32 - i.prefix))
  }

  /** a rounded down to a multiple of h. */
  function RoundDownTo(a: nat, h: nat): nat
    requires h >= 1
  {
    (a / h) * h
  }

  /** The network address is in the address space, has no host bits, and the address lies inside its network. */
  lemma NetworkAddressSpec(i: Interface)
    requires ValidInterface(i)
    ensures NetworkAddress(i) < AddressSpace
    ensures NetworkAddress(i) % Pow2(32 - i.prefix) == 0
    ensures NetworkAddress(i) <= i.addr < NetworkAddress(i) + Pow2(32 - i.prefix)
  {
    RoundDown(i.addr, Pow2(32 - i.prefix));
  }

  /** a rounded down to a multiple of h is a multiple of h, at most a, and within h of it. */
  lemma RoundDown(a: nat, h: nat)
    requires h >= 1
    ensures RoundDownTo(a, h) % h == 0
    ensures RoundDownTo(a, h) <= a < RoundDownTo(a, h) + h
  {
    var q, r := a / h, a % h;
    assert a == q * h + r && r < h;
    MulDivCancel(q, h);
  }

  /** Masking a network address again leaves it unchanged. */
  lemma NetworkAddressIdempotent(i: Interface)
    requires ValidInterface(i)
    ensures NetworkAddress(Interface(NetworkAddress(i), i.prefix)) == NetworkAddress(i)
  {
    NetworkAddressSpec(i);
    RoundDownMultiple(NetworkAddress(i), Pow2(32 - i.prefix));
  }

  /** A multiple of h rounds down to itself. */
  lemma RoundDownMultiple(a: nat, h: nat)
    requires h >= 1 && a % h == 0
    ensures RoundDownTo(a, h) == a
  {
    assert a == (a / h) * h + a % h;
  }

  /** str() of an IPv4Interface: "address/prefix". */
  function FormatInterface(i: Interface): string
    requires ValidInterface(i)
  {
    FormatAddress(i.addr) + "/" + NatToString(i.prefix)
  }

  /** str() of an interface's network: "network-address/prefix". */
  function FormatNetwork(i: Interface): string
    requires ValidInterface(i)
  {
    NetworkAddressSpec(i);
    FormatAddress(NetworkAddress(i)) + "/" + NatToString(i.prefix)
  }

  /** An accepted address text has no "/" in it. */
  lemma ParsedHasNoSlash(s: string)
    requires ParseAddress(s).Some?
    ensures '/' !in s
  {
    forall k | 0 <= k < |s| ensures s[k] != '/' {
      NoSlashInQuad(s, k);
    }
  }

  lemma FormattedHasNoSlash(x: nat)
    requires x < AddressSpace
    ensures '/' !in FormatAddress(x)
  {
    ParseAddressIff(FormatAddress(x), x);
    ParsedHasNoSlash(FormatAddress(x));
  }

  /** Characters of an accepted address are digits and dots. */
  lemma NoSlashInQuad(s: string, k: nat)
    requires ParseAddress(s).Some? && k < |s|
    ensures s[k] != '/'
  {
    var x := ParseAddress(s).value;
    ParseAddressIff(s, x);
    var o := Octets(x);
    var sa, sb, sc, sd := NatToString(o[0]), NatToString(o[1]), NatToString(o[2]), NatToString(o[3]);
    JoinFour(sa, sb, sc, sd);
    NatHasNoSlash(o[0]);
    NatHasNoSlash(o[1]);
    NatHasNoSlash(o[2]);
    NatHasNoSlash(o[3]);
    assert s == sa + ['.'] + (sb + ['.'] + (sc + ['.'] + sd));
    assert s[k] in s;
  }

  /** Normalising round trip: the printed interface parses back to the same interface. */
  lemma FormatInterfaceRoundTrip(i: Interface)
    requires ValidInterface(i)
    ensures ParseInterface(FormatInterface(i)) == Some(i)
  {
    var a := FormatAddress(i.addr);
    var ps := NatToString(i.prefix);
    FormattedHasNoSlash(i.addr);
    assert '/' !in ps by { NatHasNoSlash(i.prefix); }
    SplitOnJoin(a, '/', ps);
    SplitOnWithout(ps, '/');
    ParseAddressIff(a, i.addr);
    PrefixTextMask(i.prefix);
    assert FormatInterface(i) == a + ['/'] + ps;
  }

  /** A printed prefix length is read back by the mask parser as that prefix length. */
  lemma PrefixTextMask(p: nat)
    requires p <= 32
    ensures MakeNetmask(NatToString(p)) == Some(p)
  {
    assert PrefixFromPrefixString(NatToString(p)) == Some(p);
  }

  lemma NatHasNoSlash(v: nat)
    ensures '/' !in NatToString(v)
  {
    var s := NatToString(v);
    forall k | 0 <= k < |s| ensures s[k] != '/' {
      assert IsDigit(s[k]);
    }
  }

  /** An address without a mask is the same interface as the address with "/32" appended. */
  lemma HostPrefixDefault(s: string)
    requires '/' !in s
    ensures ParseInterface(s) == ParseInterface(s + "/32")
  {
    SplitOnWithout(s, '/');
    SplitOnJoin(s, '/', "32");
    SplitOnWithout("32", '/');
    assert s + "/32" == s + ['/'] + "32";
    assert "32"[..1] == "3";
    assert DecimalValue("32") == 32;
  }

  /** The prefix length may carry a leading zero, unlike an octet. */
  lemma PrefixLeadingZero(a: string, k: nat)
    requires ParseAddress(a).Some? && k <= 32
    ensures ParseInterface(a + "/0" + NatToString(k)) == Some(Interface(ParseAddress(a).value, k))
  {
    var ps := "0" + NatToString(k);
    var s := a + "/0" + NatToString(k);
    assert s == a + ['/'] + ps;
    ParsedHasNoSlash(a);
    assert '/' !in ps by {
      NatHasNoSlash(k);
      assert ps[1..] == NatToString(k);
    }
    SplitOnJoin(a, '/', ps);
    SplitOnWithout(ps, '/');
    assert AllDigits(ps);
    DecimalLeadingZero(NatToString(k));
    assert PrefixFromPrefixString(ps) == Some(k);
  }

  /** An octet may not carry a leading zero. */
  lemma OctetLeadingZero()
    ensures ParseAddress("010.0.0.1") == None
  {
    var z := "010.0.0.1";
    assert z == "010" + ['.'] + "0.0.1";
    SplitOnJoin("010", '.', "0.0.1");
    assert ParseOctet("010") == None;
  }
}
