/** What `set_range` leaves in a configuration, and when the range lies in its own subnet. */
module StoredRange {
  import opened Common
  import opened DhcpText
  import AddressRange
  import Bits
  import DhcpConfig
  import Ipv4

  /** After `set_range` with two dotted quads, on a subnet and a pool that exist: the pool holds the two
      ends, nothing else of the configuration but the subnet, mask and broadcast of that subnet has
      changed. The subnet is the start with its last octet 0, the mask has the bits that the two ends have
      in common at the front, and the broadcast is the last address of the block of the subnet. Both ends
      lie between the stored subnet and the stored broadcast exactly when the first three octets of the end
      are not below those of the start, and either the mask has at least 8 host bits or the last octet of
      the start is within them. */
  lemma SetRangeCovers(c: Config, first: string, last: string, i: nat, j: nat)
    requires Ipv4.IsQuad(first) && Ipv4.IsQuad(last)
    requires i < |c.subnets| && j < |c.subnets[i].pools|
    ensures Ipv4.PrefixLength(first, last).Ok? && 0 <= Ipv4.PrefixLength(first, last).value <= 32
    ensures Ipv4.AddressValue(first).Ok? && Ipv4.AddressValue(last).Ok?
    ensures var (r, d) := DhcpConfig.RangeStored(c, first, last, i, j);
      && r == Ok(()) && |d.subnets| == |c.subnets|
      && var s := d.subnets[i];
      && s.subnet.Some? && s.broadcast.Some? && s.subnetMask.Some?
      && d == c.(subnets := c.subnets[i := c.subnets[i].(
           subnet := s.subnet, subnetMask := s.subnetMask, broadcast := s.broadcast,
           pools := c.subnets[i].pools[j := c.subnets[i].pools[j].(
             rangeStart := Some(first), rangeEnd := Some(last))])])
      && var low, high := Ipv4.AddressValue(s.subnet.value), Ipv4.AddressValue(s.broadcast.value);
      && low.Ok? && high.Ok?
      && var h := 32 - Ipv4.PrefixLength(first, last).value;
      && var x, y := Ipv4.AddressValue(first).value, Ipv4.AddressValue(last).value;
      && Ipv4.AddressBits(s.subnetMask.value) == Ok(Ipv4.Ones(32 - h) + Ipv4.Zeros(h))
      && low.value == x / 256 * 256
      && high.value == AddressRange.LastOf(low.value, h)
      && (low.value <= x <= high.value && low.value <= y <= high.value <==>
            x / 256 <= y / 256 && (h >= 8 || x % 256 < Bits.Pow2(h)))
      && (!(h >= 8 || x % 256 < Bits.Pow2(h)) ==> x > high.value)
  {
    hide Ipv4.AddressBits, Ipv4.Ones, Ipv4.Zeros, AddressRange.LastOf;
    hide Ipv4.PrefixLength, Ipv4.Netmask, Ipv4.Broadcast, Ipv4.SubnetBase, Ipv4.AddressValue, Bits.Pow2, Ipv4.IsQuad;
    AddressRange.RangeCovered(first, last);
    AddressRange.BaseValue(first);
    Ipv4.NetmaskBits(Ipv4.PrefixLength(first, last).value);
    AddressRange.BroadcastValue(Ipv4.SubnetBase(first), Ipv4.PrefixLength(first, last).value);
    var d := DhcpConfig.RangeStored(c, first, last, i, j).1;
    assert d.subnets[i].pools == c.subnets[i].pools[j := c.subnets[i].pools[j].(
      rangeStart := Some(first), rangeEnd := Some(last))];
  }

  /** On a subnet that does not exist `set_range` changes nothing and raises; on a pool that does not exist it
      raises when subnet, mask and broadcast have been stored, and no pool is changed. */
  lemma SetRangeMissing(c: Config, first: string, last: string, i: nat, j: nat)
    requires Ipv4.IsQuad(first) && Ipv4.IsQuad(last)
    ensures var (r, d) := DhcpConfig.RangeStored(c, first, last, i, j);
      && (i >= |c.subnets| ==> r == Err(IndexError) && d == c)
      && (i < |c.subnets| && j >= |c.subnets[i].pools| ==>
            && r == Err(IndexError) && |d.subnets| == |c.subnets|
            && var s := d.subnets[i];
            && d == c.(subnets := c.subnets[i := c.subnets[i].(
                 subnet := s.subnet, subnetMask := s.subnetMask, broadcast := s.broadcast)])
            && s.subnet == Some(Ipv4.SubnetBase(first))
            && s.subnetMask.Some? && s.broadcast.Some?)
  {
    hide Ipv4.PrefixLength, Ipv4.Netmask, Ipv4.Broadcast, Ipv4.SubnetBase, Ipv4.AddressValue, Bits.Pow2, Ipv4.IsQuad;
    AddressRange.RangeCovered(first, last);
  }
}
