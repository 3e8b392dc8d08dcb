// Device information the FlyCapture2 driver reports: the SDK hands over
// addresses as octet arrays, which are printed directly, and the bus speed
// as an enumeration, which is mapped to megabits per second.

module FlyCapture2Info {
  import opened Arith
  import opened Text
  import SpinnakerInfo

  /** `make_ip_address`: the four octets of `fc::IPAddress` in decimal,
      separated by dots. */
  function MakeIpAddress(ip: seq<Octet>): (r: string)
    requires |ip| == 4
    ensures r == Join(SpinnakerInfo.DecimalOctets(ip), '.')
  {
    Join4(SpinnakerInfo.DecimalOctets(ip), '.');
    Decimal(ip[0]) + "." + Decimal(ip[1]) + "." + Decimal(ip[2]) + "." + Decimal(ip[3])
  }

  /** `{:02X}`: an octet as two upper-case hexadecimal digits. */
  function HexUpper2(o: Octet): (s: string)
    ensures |s| == 2
  {
    Upper(HexPadded(o, 2))
  }

  lemma HexUpperOctets(mac: seq<Octet>)
    ensures forall i :: 0 <= i < |mac| ==> HexUpper2(mac[i]) == SpinnakerInfo.HexOctets(mac)[i]
  {
    Powers();
  }

  /** `make_mac_address`: the six octets of `fc::MACAddress` as two
      upper-case hexadecimal digits each, separated by colons. */
  function MakeMacAddress(mac: seq<Octet>): (r: string)
    requires |mac| == 6
    ensures |r| == 17
    ensures r == Join(SpinnakerInfo.HexOctets(mac), ':')
  {
    HexUpperOctets(mac);
    Join6(SpinnakerInfo.HexOctets(mac), ':');
    HexUpper2(mac[0]) + ":" + HexUpper2(mac[1]) + ":" + HexUpper2(mac[2]) + ":" +
    HexUpper2(mac[3]) + ":" + HexUpper2(mac[4]) + ":" + HexUpper2(mac[5])
  }

  /** The text `make_subnet_mask` parses: `{:#x}` of the first octet, then
      `{:02x}` of each other one. */
  function MaskText(mask: seq<Octet>): string
    requires |mask| == 4
  {
    "0x" + HexMin(mask[0]) + HexPadded(mask[1], 2) + HexPadded(mask[2], 2) + HexPadded(mask[3], 2)
  }

  /** The text reads back, in base 16, as the mask's 32-bit value. */
  lemma MaskTextValue(mask: seq<Octet>)
    requires |mask| == 4
    ensures Stoul16(MaskText(mask)) == Parsed(FromOctets(mask))
  {
    var digits := MaskDigits(mask);
    assert MaskText(mask) == "0x" + digits by { Powers(); }
    FromOctetsRoundTrip(mask);
    Powers();
    Stoul16Prefixed(digits);
  }

  /** The digits of the mask text, and their value. */
  function MaskDigits(mask: seq<Octet>): (digits: string)
    requires |mask| == 4
    ensures |digits| >= 1 && AllHex(digits) && HexValue(digits) == FromOctets(mask)
  {
    var a := HexMin(mask[0]);
    var b := HexFixed(mask[1], 2);
    var c := HexFixed(mask[2], 2);
    var d := HexFixed(mask[3], 2);
    MaskDigitsValue(a, b, c, d, mask);
    a + b + c + d
  }

  lemma MaskDigitsValue(a: string, b: string, c: string, d: string, mask: seq<Octet>)
    requires |mask| == 4
    requires a == HexMin(mask[0]) && b == HexFixed(mask[1], 2) && c == HexFixed(mask[2], 2) && d == HexFixed(mask[3], 2)
    ensures AllHex(a + b + c + d) && HexValue(a + b + c + d) == FromOctets(mask)
  {
    Powers();
    HexMinValue(mask[0]);
    HexFixedValue(mask[1], 2);
    HexFixedValue(mask[2], 2);
    HexFixedValue(mask[3], 2);
    ModBelow(mask[1], 256);
    ModBelow(mask[2], 256);
    ModBelow(mask[3], 256);
    HexValueAppend(a, b);
    HexValueAppend(a + b, c);
    HexValueAppend(a + b + c, d);
    FromOctets4(mask);
  }

  /** Four octets read most significant first. */
  lemma FromOctets4(os: seq<nat>)
    requires |os| == 4
    ensures FromOctets(os) == ((os[0] * 256 + os[1]) * 256 + os[2]) * 256 + os[3]
  {
    var p3 := os[..3];
    var p2 := os[..2];
    var p1 := os[..1];
    assert p3[..2] == p2 && p2[..1] == p1 && p1[..0] == [];
    assert FromOctets(p1) == os[0];
    assert FromOctets(p2) == os[0] * 256 + os[1];
    assert FromOctets(p3) == FromOctets(p2) * 256 + os[2];
  }

  /** `make_subnet_mask`: the printed mask read back by `std::stoul` in
      base 16 and narrowed to a 32-bit set, counting the set bits: the
      bits set in each octet, added up. */
  function MakeSubnetMask(mask: seq<Octet>): (bits: nat)
    requires |mask| == 4
    ensures bits <= 32
    ensures bits == PopCount(mask[0], 8) + PopCount(mask[1], 8) + PopCount(mask[2], 8) + PopCount(mask[3], 8)
  {
    MaskTextValue(mask);
    PopCountOctets4(mask);
    PopCount(Stoul16(MaskText(mask)).value, 32)
  }

  /** `255.255.255.0` is a /24 network. */
  lemma ClassCMask()
    ensures MakeSubnetMask([255, 255, 255, 0]) == 24
  {
    Powers();
    PopCountOnes(8);
    PopCountZero(8);
  }

  /** Both drivers print the same IP address for the same octets. */
  lemma IpAddressAgrees(ip: seq<Octet>)
    requires |ip| == 4
    ensures FromOctets(ip) < 0x1_0000_0000
    ensures SpinnakerInfo.MakeIpAddress(FromOctets(ip)) == MakeIpAddress(ip)
  {
    FromOctetsRoundTrip(ip);
    Powers();
    SpinnakerInfo.IpAddressOctets(FromOctets(ip));
  }

  /** Both drivers print the same MAC address for the same octets. */
  lemma MacAddressAgrees(mac: seq<Octet>)
    requires |mac| == 6
    ensures FromOctets(mac) < 0x1_0000_0000_0000
    ensures SpinnakerInfo.MakeMacAddress(FromOctets(mac)) == MakeMacAddress(mac)
  {
    FromOctetsRoundTrip(mac);
    Powers();
    SpinnakerInfo.MacAddressOctets(FromOctets(mac));
  }

  /** Both drivers count the same prefix length for the same mask. */
  lemma SubnetMaskAgrees(mask: seq<Octet>)
    requires |mask| == 4
    ensures FromOctets(mask) < 0x1_0000_0000
    ensures SpinnakerInfo.MakeSubnetMask(FromOctets(mask)) == MakeSubnetMask(mask)
  {
    FromOctetsRoundTrip(mask);
    Powers();
    PopCountOctets4(mask);
  }

  /** `fc::BusSpeed`. */
  datatype BusSpeed =
    | S100 | S200 | S400 | S480 | S800 | S1600 | S3200 | S5000
    | BaseT10 | BaseT100 | BaseT1000 | BaseT10000
    | SFastest | Any | SpeedUnknown

  /** `make_link_speed`: megabits per second of a named bus speed, zero
      for the speeds that name no rate. */
  function MakeLinkSpeed(speed: BusSpeed): (mbps: nat)
    ensures mbps == 0 <==> speed in {SFastest, Any, SpeedUnknown}
    ensures mbps in {0, 10, 100, 200, 400, 480, 800, 1000, 1600, 3200, 5000, 10000}
  {
    match speed
    case S100 => 100
    case S200 => 200
    case S400 => 400
    case S480 => 480
    case S800 => 800
    case S1600 => 1600
    case S3200 => 3200
    case S5000 => 5000
    case BaseT10 => 10
    case BaseT100 => 100
    case BaseT1000 => 1000
    case BaseT10000 => 10000
    case SFastest => 0
    case Any => 0
    case SpeedUnknown => 0
  }

  /** A reported rate names the bus speed, except that 100 is both the
      1394 S100 bus and 100BASE-T, and 0 covers every speed without a rate. */
  lemma LinkSpeedCollisions(a: BusSpeed, b: BusSpeed)
    requires a != b && MakeLinkSpeed(a) == MakeLinkSpeed(b)
    ensures MakeLinkSpeed(a) == 0 || {a, b} == {S100, BaseT100}
  {
  }
}
