/** Whether the subnet and broadcast that `set_range` stores really cover the range. */
module AddressRange {
  import opened Common
  import opened Text
  import opened Lines
  import opened Bits
  import opened Ipv4

  lemma {:induction false} ParseIntsShape(parts: seq<string>)
    requires ParseInts(parts).Ok?
    ensures |ParseInts(parts).value| == |parts|
    ensures forall i | 0 <= i < |parts| :: ParseInt(parts[i]) == Ok(ParseInts(parts).value[i])
    decreases |parts|
  {
    hide ParseInt;
    if parts != [] {
      ParseIntsShape(parts[1..]);
    }
  }

  /** The stored subnet is the start of the range with its last octet cleared. */
  lemma BaseValue(first: string)
    requires IsQuad(first)
    ensures IsQuad(SubnetBase(first))
    ensures AddressValue(first).Ok? && AddressValue(SubnetBase(first)) == Ok(AddressValue(first).value / 256 * 256)
    ensures AddressValue(first).value % 256 == Octets(first).value[3]
  {
    hide Join, Split, JoinBits, BinValue;
    var parts := Split(first, ".");
    ParseIntsShape(parts);
    var o := Octets(first).value;
    assert parts == [parts[0], parts[1], parts[2], parts[3]];
    assert parts[..|parts| - 1] + ["0"] == [parts[0], parts[1], parts[2], "0"];
    ZeroText();
    SplitDots4(parts[0], parts[1], parts[2], "0");
    ParseInts4(parts[0], parts[1], parts[2], "0");
    QuadBits(first);
    QuadBits(SubnetBase(first));
    Cleared((o[0] * 256 + o[1]) * 256 + o[2], o[3]);
  }

  lemma ZeroText()
    ensures ParseInt("0") == Ok(0) && '.' !in "0"
  {
    assert "0"[..0] == "";
  }

  lemma Cleared(x: nat, d: nat)
    requires d < 256
    ensures (x * 256 + d) / 256 * 256 == x * 256 && (x * 256 + d) % 256 == d
  {
  }

  lemma Shr8(x: nat)
    ensures Shr(x, 8) == x / 256
  {
    Small();
    Shl8(x / 256);
    ShrUnique(x, x / 256, 8);
  }

  /** The last address of the block of `base` under a mask with `h` host bits. */
  function LastOf(base: nat, h: nat): nat {
    Shl(Shr(base, h), h) + Pow2(h) - 1
  }

  lemma BroadcastValue(subnet: string, p: nat)
    requires IsQuad(subnet) && p <= 32
    ensures AddressValue(subnet).Ok? && Netmask(p).Ok?
    ensures Broadcast(subnet, Netmask(p).value).Ok?
    ensures AddressValue(Broadcast(subnet, Netmask(p).value).value) == Ok(LastOf(AddressValue(subnet).value, 32 - p))
  {
    hide Or, Shr, Shl, Pow2, MaskValue, DottedQuad, Octets, AddressBits, JoinBits, Dec, OctetOf;
    var h := 32 - p;
    QuadBits(subnet);
    var x := AddressValue(subnet).value;
    NetmaskBits(p);
    MaskBound(p);
    OrOnes(x, h);
    BlockBound(x, p);
    QuadRoundTrip(LastOf(x, h));
  }

  lemma BlockBound(x: nat, p: nat)
    requires x < 0x1_0000_0000 && p <= 32
    ensures LastOf(x, 32 - p) < 0x1_0000_0000
  {
    Small();
    ShrShr(x, 32 - p, p);
    ShrSmall(x, 32);
    PowShl(p, 32 - p);
    ShrBounds(Shr(x, 32 - p), p);
    ShlZero(p);
    ShlMonotone(Shr(x, 32 - p), Pow2(p), 32 - p);
  }

  /** With 8 or more host bits the cleared octet lies inside the block of the range. */
  lemma WideBlock(x: nat, y: nat, h: nat)
    requires h >= 8 && Shr(x, h) == Shr(y, h)
    ensures x <= LastOf(x / 256 * 256, h) && y <= LastOf(x / 256 * 256, h)
  {
    var base := x / 256 * 256;
    Shr8(x);
    Shr8(base);
    ShrShr(x, 8, h - 8);
    ShrShr(base, 8, h - 8);
    ShrBounds(x, h);
    ShrBounds(y, h);
  }

  /** With fewer host bits the block of the cleared address starts at that address. */
  lemma NarrowBlock(x: nat, y: nat, h: nat)
    requires h < 8 && Shr(x, h) == Shr(y, h)
    ensures var base := x / 256 * 256;
            && base <= y
            && LastOf(base, h) == base + Pow2(h) - 1
            && (x % 256 < Pow2(h) ==> y < base + Pow2(h))
  {
    var base := x / 256 * 256;
    ShrShr(x, h, 8 - h);
    ShrShr(y, h, 8 - h);
    Shr8(x);
    Shr8(y);
    var q := Shl(x / 256, 8 - h);
    ShlShl(x / 256, 8 - h, h);
    Shl8(x / 256);
    ShrUnique(base, q, h);
    if x % 256 < Pow2(h) {
      ShrUnique(x, q, h);
      ShrBounds(y, h);
    }
  }

  /** What `set_range` stores for a range, as numbers. */
  lemma StoredRange(first: string, last: string)
    requires IsQuad(first) && IsQuad(last)
    ensures PrefixLength(first, last).Ok? && 0 <= PrefixLength(first, last).value <= 32
    ensures AddressValue(first).Ok? && AddressValue(last).Ok? && AddressValue(SubnetBase(first)).Ok?
    ensures Netmask(PrefixLength(first, last).value).Ok?
    ensures Broadcast(SubnetBase(first), Netmask(PrefixLength(first, last).value).value).Ok?
  {
    hide Or, Shr, Shl, Pow2, DottedQuad, Octets, AddressBits;
    PrefixIsLongestCommon(first, last);
    QuadBits(first);
    QuadBits(last);
    BaseValue(first);
    BroadcastValue(SubnetBase(first), PrefixLength(first, last).value);
  }

  /** Both ends of the range lie between the stored subnet and the stored broadcast exactly when
      the first three octets of the end are not below those of the start, and either the mask
      has at least 8 host bits or the last octet of the start is within them. When the second
      part fails, the start lies above the broadcast. */
  lemma RangeCovered(first: string, last: string)
    requires IsQuad(first) && IsQuad(last)
    ensures PrefixLength(first, last).Ok? && 0 <= PrefixLength(first, last).value <= 32
    ensures AddressValue(first).Ok? && AddressValue(last).Ok? && AddressValue(SubnetBase(first)).Ok?
    ensures Netmask(PrefixLength(first, last).value).Ok?
    ensures var mask := Netmask(PrefixLength(first, last).value).value;
            && Broadcast(SubnetBase(first), mask).Ok?
            && AddressValue(Broadcast(SubnetBase(first), mask).value).Ok?
    ensures var h := 32 - PrefixLength(first, last).value;
            var mask := Netmask(PrefixLength(first, last).value).value;
            var x, y := AddressValue(first).value, AddressValue(last).value;
            var low := AddressValue(SubnetBase(first)).value;
            var high := AddressValue(Broadcast(SubnetBase(first), mask).value).value;
            && (low <= x <= high && low <= y <= high <==>
                  x / 256 <= y / 256 && (h >= 8 || x % 256 < Pow2(h)))
            && (!(h >= 8 || x % 256 < Pow2(h)) ==> x > high)
  {
    hide Or, Shr, Shl, Pow2, DottedQuad, Octets, AddressBits, JoinBits, LastOf;
    StoredRange(first, last);
    BaseValue(first);
    QuadBits(first);
    QuadBits(last);
    var p := PrefixLength(first, last).value;
    BroadcastValue(SubnetBase(first), p);
    var x, y, h := AddressValue(first).value, AddressValue(last).value, 32 - p;
    XorLength(x, y, h);
    if h >= 8 {
      WideBlock(x, y, h);
    } else {
      NarrowBlock(x, y, h);
    }
  }

  /** For a range given in order, the one condition left is the one on the start. */
  lemma OrderedRangeCovered(first: string, last: string)
    requires IsQuad(first) && IsQuad(last)
    requires AddressValue(first).Ok? && AddressValue(last).Ok? && AddressValue(first).value <= AddressValue(last).value
    ensures PrefixLength(first, last).Ok? && 0 <= PrefixLength(first, last).value <= 32
    ensures Netmask(PrefixLength(first, last).value).Ok? && AddressValue(SubnetBase(first)).Ok?
    ensures var mask := Netmask(PrefixLength(first, last).value).value;
            && Broadcast(SubnetBase(first), mask).Ok?
            && AddressValue(Broadcast(SubnetBase(first), mask).value).Ok?
    ensures var h := 32 - PrefixLength(first, last).value;
            var mask := Netmask(PrefixLength(first, last).value).value;
            var x, y := AddressValue(first).value, AddressValue(last).value;
            var low := AddressValue(SubnetBase(first)).value;
            var high := AddressValue(Broadcast(SubnetBase(first), mask).value).value;
            low <= x <= high && low <= y <= high <==> h >= 8 || x % 256 < Pow2(h)
  {
    hide Or, Shr, Shl, Pow2, DottedQuad, Octets, AddressBits;
    RangeCovered(first, last);
  }

  /** A narrow range can start above its own broadcast: 10.0.0.9 to 10.0.0.10. */
  lemma NarrowRangeStartsOutside()
    ensures var first := Join([Dec(10), Dec(0), Dec(0), Dec(9)], ".");
            var last := Join([Dec(10), Dec(0), Dec(0), Dec(10)], ".");
            && IsQuad(first) && IsQuad(last) && AddressValue(first).Ok?
            && PrefixLength(first, last) == Ok(30) && Netmask(30).Ok?
            && var broadcast := Broadcast(SubnetBase(first), Netmask(30).value);
            broadcast.Ok? && AddressValue(broadcast.value).Ok?
            && AddressValue(first).value > AddressValue(broadcast.value).value
  {
    hide Join, Dec, Octets, AddressBits, DottedQuad, Pow2, Xor, BitLength, Or, Shr, Shl, AddressValue;
    var first := Join([Dec(10), Dec(0), Dec(0), Dec(9)], ".");
    var last := Join([Dec(10), Dec(0), Dec(0), Dec(10)], ".");
    QuadParts(10, 0, 0, 9);
    QuadParts(10, 0, 0, 10);
    QuadBits(first);
    QuadBits(last);
    NarrowBits();
    FourIsPow2();
    RangeCovered(first, last);
  }

  lemma FourIsPow2()
    ensures Pow2(2) == 4
  {
  }

  lemma NarrowBits()
    ensures BitLength(Xor(0x0a00_0009, 0x0a00_000a)) == 2
  {
    hide Xor, BitLength;
    XorLength(0x0a00_0009, 0x0a00_000a, 2);
    XorLength(0x0a00_0009, 0x0a00_000a, 1);
    assert Shr(0x0a00_0009, 1) == 0x0500_0004 && Shr(0x0a00_000a, 1) == 0x0500_0005;
    assert Shr(0x0a00_0009, 2) == 0x0280_0002 && Shr(0x0a00_000a, 2) == 0x0280_0002;
  }

  /** A range given backwards can fall outside its own subnet although the mask is wide:
      10.0.5.3 to 10.0.2.7. */
  lemma ReversedRangeFallsOutside()
    ensures var first := Join([Dec(10), Dec(0), Dec(5), Dec(3)], ".");
            var last := Join([Dec(10), Dec(0), Dec(2), Dec(7)], ".");
            && IsQuad(first) && IsQuad(last)
            && AddressValue(last).Ok? && AddressValue(SubnetBase(first)).Ok?
            && AddressValue(last).value < AddressValue(SubnetBase(first)).value
  {
    hide Join, Dec, Octets, AddressBits, AddressValue, DottedQuad;
    var first := Join([Dec(10), Dec(0), Dec(5), Dec(3)], ".");
    var last := Join([Dec(10), Dec(0), Dec(2), Dec(7)], ".");
    QuadParts(10, 0, 5, 3);
    QuadParts(10, 0, 2, 7);
    QuadBits(first);
    QuadBits(last);
    BaseValue(first);
  }
}
