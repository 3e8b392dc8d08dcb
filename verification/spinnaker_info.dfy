// Device information the Spinnaker driver reports: the camera's IP
// address, MAC address and subnet mask arrive as 64-bit integers and are
// rendered through a hexadecimal string split into digit pairs.

module SpinnakerInfo {
  import opened Arith
  import opened Text

  /** The lengths `split_address` admits: empty, `0x` and eight digits (an
      IP address) or `0x` and twelve digits (a MAC address). Any other
      length fails its assertion. */
  predicate AddressLength(address: string) {
    |address| == 0 || |address| == 10 || |address| == 14
  }

  /** Consecutive two-character pieces of a string of even length. */
  function Pairs(s: string): (p: seq<string>)
    requires |s| % 2 == 0
    ensures |p| == |s| / 2
    ensures forall i :: 0 <= i < |p| ==> p[i] == s[2 * i..2 * i + 2]
    decreases |s|
  {
    if s == [] then [] else [s[..2]] + Pairs(s[2..])
  }

  /** `split_address`: the address upper-cased, its two-character prefix
      skipped, the rest cut into digit pairs. */
  function SplitAddress(address: string): (fields: seq<string>)
    requires AddressLength(address)
    ensures |address| == 0 ==> fields == []
    ensures |address| > 0 ==> |fields| == (|address| - 2) / 2
    ensures forall i :: 0 <= i < |fields| ==> fields[i] == Upper(address[2 * i + 2..2 * i + 4])
  {
    if |address| == 0 then [] else Pairs(Upper(address)[2..])
  }

  /** Fields of exactly two hexadecimal digits. */
  predicate HexPairs(fields: seq<string>) {
    forall i :: 0 <= i < |fields| ==> |fields[i]| == 2 && AllHex(fields[i])
  }

  /** Splitting an address whose digits are hexadecimal gives hexadecimal
      pairs. */
  lemma SplitHex(address: string)
    requires AddressLength(address) && |address| > 0 && AllHex(address[2..])
    ensures HexPairs(SplitAddress(address))
  {
    var fields := SplitAddress(address);
    forall i | 0 <= i < |fields| ensures |fields[i]| == 2 && AllHex(fields[i]) {
      var piece := address[2 * i + 2..2 * i + 4];
      assert forall j :: 0 <= j < 2 ==> piece[j] == address[2..][2 * i + j];
      HexValueUpper(piece);
    }
  }

  /** The `hex_to_intstr` step: a pair of hexadecimal digits read by
      `std::stoul` after a `0x` prefix and printed in decimal. */
  function HexToDecimal(field: string): (d: string)
    requires |field| == 2 && AllHex(field)
    ensures d == Decimal(HexValue(field)) && HexValue(field) < 256
  {
    HexValueBound(field);
    Stoul16Prefixed(field);
    Decimal(Stoul16("0x" + field).value)
  }

  /** Every field converted by `HexToDecimal`. */
  function DecimalFields(fields: seq<string>): (ds: seq<string>)
    requires HexPairs(fields)
    ensures |ds| == |fields|
    ensures forall i :: 0 <= i < |fields| ==> ds[i] == HexToDecimal(fields[i])
  {
    seq(|fields|, i requires 0 <= i < |fields| => HexToDecimal(fields[i]))
  }

  /** The text `make_ip_address` splits: `0x{:08x}`. */
  function IpText(ip: nat): string {
    "0x" + HexPadded(ip, 8)
  }

  /** `make_ip_address`: the fields of the hexadecimal text, each read as a
      number and printed in decimal, joined by dots; `0.0.0.0` when there
      are no fields. Numbers of more than eight but fewer than twelve
      hexadecimal digits fail the length assertion of `split_address`. */
  function MakeIpAddress(ip: nat): (r: string)
    requires AddressLength(IpText(ip))
    ensures |r| >= 7
  {
    var address := IpText(ip);
    var fields := SplitAddress(address);
    if |fields| == 0 then "0.0.0.0"
    else
      SplitHex(address);
      DecimalPartsLength(DecimalFields(fields));
      Join(DecimalFields(fields), '.')
  }

  /** Each part printed in decimal. */
  function DecimalOctets(os: seq<nat>): (ds: seq<string>)
    ensures |ds| == |os|
    ensures forall i :: 0 <= i < |os| ==> ds[i] == Decimal(os[i])
  {
    seq(|os|, i requires 0 <= i < |os| => Decimal(os[i]))
  }

  /** Each octet as two upper-case hexadecimal digits (`{:02X}`). */
  function HexOctets(os: seq<Octet>): (hs: seq<string>)
    ensures |hs| == |os|
    ensures forall i :: 0 <= i < |os| ==> hs[i] == Upper(HexFixed(os[i], 2))
  {
    seq(|os|, i requires 0 <= i < |os| => Upper(HexFixed(os[i], 2)))
  }

  /** Joining non-empty parts with a separator makes a string at least as
      long as the parts and separators together. */
  lemma {:induction false} JoinLength(parts: seq<string>, sep: char)
    ensures |parts| >= 1 ==> |Join(parts, sep)| >= |parts| - 1 + |parts[0]|
    ensures |parts| >= 1 && (forall i :: 0 <= i < |parts| ==> |parts[i]| == 2) ==>
      |Join(parts, sep)| == 3 * |parts| - 1
    decreases |parts|
  {
    if |parts| > 1 {
      JoinLength(parts[1..], sep);
    }
  }

  lemma DecimalPartsLength(parts: seq<string>)
    requires |parts| >= 4 && forall i :: 0 <= i < |parts| ==> |parts[i]| >= 1
    ensures |Join(parts, '.')| >= 7
  {
    JoinAtLeast(parts, '.');
  }

  /** A join of `k` non-empty parts holds at least `2k - 1` characters. */
  lemma {:induction false} JoinAtLeast(parts: seq<string>, sep: char)
    requires |parts| >= 1 && forall i :: 0 <= i < |parts| ==> |parts[i]| >= 1
    ensures |Join(parts, sep)| >= 2 * |parts| - 1
    decreases |parts|
  {
    if |parts| > 1 {
      JoinAtLeast(parts[1..], sep);
    }
  }

  /** Pairs of a concatenation are the pairs of each piece. */
  lemma {:induction false} PairsAppend(a: string, b: string)
    requires |a| % 2 == 0 && |b| % 2 == 0
    ensures Pairs(a + b) == Pairs(a) + Pairs(b)
    decreases |a|
  {
    if a == [] {
      assert a + b == b;
    } else {
      assert (a + b)[..2] == a[..2];
      assert (a + b)[2..] == a[2..] + b;
      PairsAppend(a[2..], b);
    }
  }

  /** A single pair is its own only piece. */
  lemma PairsOfPair(s: string)
    requires |s| == 2
    ensures Pairs(s) == [s]
  {
    assert s[..2] == s;
    assert s[2..] == [];
  }

  /** The key step: the digit pairs of `2k` upper-case hexadecimal digits
      of `n` are the `k` low octets of `n`, each printed in two digits. */
  lemma {:induction false} PairsOfHex(n: nat, k: nat)
    ensures Pairs(Upper(HexFixed(n, 2 * k))) == HexOctets(Octets(n, k))
    decreases k
  {
    if k > 0 {
      PairsOfHex(n / 256, k - 1);
      var high := HexFixed(n / 256, 2 * (k - 1));
      var low := HexFixed(n % 256, 2);
      HexFixedOctet(n, 2 * (k - 1));
      assert HexFixed(n, 2 * k) == high + low;
      UpperAppend(high, low);
      PairsAppend(Upper(high), Upper(low));
      PairsOfPair(Upper(low));
      var os := Octets(n, k);
      assert os == Octets(n / 256, k - 1) + [n % 256];
      assert HexOctets(os) == HexOctets(Octets(n / 256, k - 1)) + [Upper(low)];
    }
  }

  /** Splitting `0x` and `2k` hexadecimal digits of `n` gives the octets. */
  lemma SplitOctets(n: nat, k: nat)
    requires k == 4 || k == 6
    ensures AddressLength("0x" + HexFixed(n, 2 * k))
    ensures SplitAddress("0x" + HexFixed(n, 2 * k)) == HexOctets(Octets(n, k))
  {
    var digits := HexFixed(n, 2 * k);
    UpperAppend("0x", digits);
    assert Upper("0x" + digits)[2..] == Upper(digits);
    PairsOfHex(n, k);
  }

  /** A pair printed from an octet reads back as that octet. */
  lemma HexOctetDecimal(o: Octet)
    ensures |Upper(HexFixed(o, 2))| == 2 && AllHex(Upper(HexFixed(o, 2)))
    ensures HexToDecimal(Upper(HexFixed(o, 2))) == Decimal(o)
  {
    var digits := HexFixed(o, 2);
    var field := Upper(digits);
    HexValueUpper(digits);
    assert HexValue(field) == HexValue(digits);
    HexFixedValue(o, 2);
    assert Pow(16, 2) == 256;
    ModBelow(o, 256);
    assert HexValue(field) == o;
  }

  /** A 32-bit address prints as its four octets, most significant first,
      in decimal and separated by dots; the octets rebuild the address. */
  lemma IpAddressOctets(ip: nat)
    requires ip < 0x1_0000_0000
    ensures AddressLength(IpText(ip))
    ensures MakeIpAddress(ip) == Join(DecimalOctets(Octets(ip, 4)), '.')
    ensures FromOctets(Octets(ip, 4)) == ip
  {
    Powers();
    assert IpText(ip) == "0x" + HexFixed(ip, 8);
    SplitOctets(ip, 4);
    var os := Octets(ip, 4);
    var fields := SplitAddress(IpText(ip));
    assert fields == HexOctets(os);
    SplitHex(IpText(ip));
    forall i | 0 <= i < 4 ensures DecimalFields(fields)[i] == DecimalOctets(os)[i] {
      HexOctetDecimal(os[i]);
    }
    assert DecimalFields(fields) == DecimalOctets(os);
    OctetsRoundTrip(ip, 4);
    ModBelow(ip, Pow(256, 4));
  }

  /** The `0.0.0.0` fallback is never taken: every admitted number has
      digits to split. */
  lemma IpFieldsPresent(ip: nat)
    requires AddressLength(IpText(ip))
    ensures |SplitAddress(IpText(ip))| >= 4
  {
  }

  /** The text `make_mac_address` splits: `0x{:012x}`. */
  function MacText(mac: nat): string {
    "0x" + HexPadded(mac, 12)
  }

  /** `make_mac_address`: the upper-case digit pairs of the hexadecimal
      text joined by colons; `00:00:00:00:00:00` when there are none.
      Numbers of more than twelve hexadecimal digits fail the length
      assertion of `split_address`. */
  function MakeMacAddress(mac: nat): (r: string)
    requires AddressLength(MacText(mac))
    ensures |r| == 17
  {
    var fields := SplitAddress(MacText(mac));
    if |fields| == 0 then "00:00:00:00:00:00"
    else
      JoinLength(fields, ':');
      Join(fields, ':')
  }

  /** Exactly the 48-bit numbers are admitted. */
  lemma MacAdmitted(mac: nat)
    ensures AddressLength(MacText(mac)) <==> mac < 0x1_0000_0000_0000
  {
    Powers();
  }

  /** A 48-bit address prints as its six octets, most significant first,
      in two upper-case hexadecimal digits separated by colons; the octets
      rebuild the address. */
  lemma MacAddressOctets(mac: nat)
    requires mac < 0x1_0000_0000_0000
    ensures AddressLength(MacText(mac))
    ensures MakeMacAddress(mac) == Join(HexOctets(Octets(mac, 6)), ':')
    ensures FromOctets(Octets(mac, 6)) == mac
  {
    Powers();
    assert MacText(mac) == "0x" + HexFixed(mac, 12);
    SplitOctets(mac, 6);
    OctetsRoundTrip(mac, 6);
    ModBelow(mac, Pow(256, 6));
  }

  /** `make_subnet_mask`: the mask printed with `{:#x}`, read back by
      `std::stoul` in base 16 and narrowed to a 32-bit set, counting the
      set bits. The 64-bit signed argument is taken non-negative. */
  function MakeSubnetMask(mask: nat): (bits: nat)
    requires mask < 0x8000_0000_0000_0000
    ensures bits <= 32
    ensures bits == PopCount(mask, 32)
  {
    Stoul16Hex(mask);
    PopCount(Stoul16("0x" + HexMin(mask)).value, 32)
  }

  /** Only the low 32 bits of the mask count. */
  lemma SubnetMaskLowBits(mask: nat)
    requires mask < 0x8000_0000_0000_0000
    ensures MakeSubnetMask(mask) == MakeSubnetMask(mask % 0x1_0000_0000)
  {
    PopCountLow(mask, 32);
    Powers();
  }

  /** A mask of `p` leading one bits yields the prefix length `p`. */
  lemma SubnetMaskPrefix(p: nat)
    requires p <= 32
    ensures PrefixMask(p) < 0x8000_0000_0000_0000
    ensures MakeSubnetMask(PrefixMask(p)) == p
  {
    var high := Pow(2, p);
    var low := Pow(2, 32 - p);
    assert PrefixMask(p) == (high - 1) * low;
    assert (high - 1) * low == high * low - low by { DropOne(high, low); }
    PowAdd(2, p, 32 - p);
    Powers();
    assert high * low == 0x1_0000_0000;
    PrefixMaskCount(p);
  }

  lemma DropOne(a: int, b: int)
    ensures (a - 1) * b == a * b - b
  {
  }
}
