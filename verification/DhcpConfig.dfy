/** The objects of dhcp_config.py and the methods that change them in place. */
module DhcpConfig {
  import opened Common
  import opened Text
  import opened Lines
  import opened DhcpText
  import Ipv4
  import ReservedHosts

  class DHCPReservedHost {
    var host: Option<string>
    var hwAddr: Option<string>
    var fixedAddr: Option<string>

    function View(): Host
      reads this
    {
      Host(host, hwAddr, fixedAddr)
    }

    constructor (h: Host)
      ensures View() == h
    {
      host, hwAddr, fixedAddr := h.host, h.hwAddr, h.fixedAddr;
    }

    /** `resolve_host`: the fields are set line by line. */
    method Resolve(text: string) returns (r: Result<()>)
      modifies this
      ensures var spec := HostLines(Split(text, NL), old(View()));
              if spec.Ok? then r.Ok? && View() == spec.value else r == Err(spec.error)
    {
      var lines := Split(text, NL);
      ghost var start := View();
      var i := 0;
      while i < |lines|
        invariant 0 <= i <= |lines|
        invariant HostLines(lines[i..], View()) == HostLines(lines, start)
      {
        var next := HostField(View(), lines[i]);
        if next.Err? {
          return Err(next.error);
        }
        host, hwAddr, fixedAddr := next.value.host, next.value.hwAddr, next.value.fixedAddr;
        assert lines[i..][1..] == lines[i + 1..];
        i := i + 1;
      }
      r := Ok(());
    }
  }

  class DHCPPool {
    var failoverPeer: Option<string>
    var rangeStart: Option<string>
    var rangeEnd: Option<string>
    var peerEnabled: bool

    function View(): Pool
      reads this
    {
      Pool(failoverPeer, rangeStart, rangeEnd, peerEnabled)
    }

    constructor ()
      ensures View() == NEW_POOL
    {
      failoverPeer, rangeStart, rangeEnd, peerEnabled := None, None, None, true;
    }

    method SetRange(first: string, last: string)
      modifies this
      ensures View() == old(View()).(rangeStart := Some(first), rangeEnd := Some(last))
    {
      rangeStart, rangeEnd := Some(first), Some(last);
    }

    method SetPeerEnabled(on: bool)
      modifies this
      ensures View() == old(View()).(peerEnabled := on)
    {
      peerEnabled := on;
    }

    /** `resolve_pool` */
    method Resolve(text: string) returns (r: Result<()>)
      modifies this
      ensures var spec := PoolLines(Split(text, NL), old(View()));
              if spec.Ok? then r.Ok? && View() == spec.value else r == Err(spec.error)
    {
      var lines := Split(text, NL);
      ghost var start := View();
      var i := 0;
      while i < |lines|
        invariant 0 <= i <= |lines|
        invariant PoolLines(lines[i..], View()) == PoolLines(lines, start)
      {
        var next := PoolLine(View(), lines[i]);
        if next.Err? {
          return Err(next.error);
        }
        failoverPeer, rangeStart := next.value.failoverPeer, next.value.rangeStart;
        rangeEnd, peerEnabled := next.value.rangeEnd, next.value.peerEnabled;
        assert lines[i..][1..] == lines[i + 1..];
        i := i + 1;
      }
      r := Ok(());
    }
  }

  class DHCPFailoverPeer {
    var peer: Peer

    constructor ()
      ensures peer == NEW_PEER
    {
      peer := NEW_PEER;
    }

    method SetEnabled(on: bool)
      modifies this
      ensures peer == old(peer).(enabled := on)
    {
      peer := peer.(enabled := on);
    }

    /** `resolve_peer`: from the line that opens the block to the one that closes it. */
    method Resolve(conf: string) returns (r: Result<()>)
      modifies this
      ensures var spec := PeerLines(Split(conf, NL), old(peer), false);
              if spec.Ok? then r.Ok? && peer == spec.value else r == Err(spec.error)
    {
      var lines := Split(conf, NL);
      ghost var spec := PeerLines(lines, peer, false);
      var i, started := 0, false;
      while i < |lines|
        invariant 0 <= i <= |lines|
        invariant PeerLines(lines[i..], peer, started) == spec
      {
        if started || StartsWith(lines[i], FAILOVER_PEER) {
          var next := PeerLine(peer, started, lines[i]);
          if next.Err? {
            return Err(next.error);
          }
          peer := next.value;
          started := true;
          if EndsWith(lines[i], "}") {
            break;
          }
        }
        assert lines[i..][1..] == lines[i + 1..];
        i := i + 1;
      }
      r := Ok(());
    }
  }

  function PoolViews(ps: seq<DHCPPool>): seq<Pool>
    reads ps
  {
    if ps == [] then [] else [ps[0].View()] + PoolViews(ps[1..])
  }

  lemma {:induction false} PoolViewsAt(ps: seq<DHCPPool>)
    ensures |PoolViews(ps)| == |ps|
    ensures forall i | 0 <= i < |ps| :: PoolViews(ps)[i] == ps[i].View()
    decreases |ps|
  {
    if ps != [] {
      PoolViewsAt(ps[1..]);
    }
  }

  lemma {:induction false} PoolViewsSnoc(ps: seq<DHCPPool>, p: DHCPPool)
    ensures PoolViews(ps + [p]) == PoolViews(ps) + [p.View()]
    decreases |ps|
  {
    if ps == [] {
      assert ps + [p] == [p] && [p][1..] == [];
    } else {
      assert (ps + [p])[1..] == ps[1..] + [p];
      PoolViewsSnoc(ps[1..], p);
    }
  }

  twostate lemma SameViews(ps: seq<DHCPPool>)
    requires forall i | 0 <= i < |ps| :: ps[i].View() == old(ps[i].View())
    ensures PoolViews(ps) == old(PoolViews(ps))
  {
    PoolViewsAt(ps);
    OldViewsAt(ps);
  }

  /** A subnet looks the same if neither it nor its pools have changed. */
  twostate lemma SameView(s: DHCPSubnet)
    requires unchanged(s) && forall p | p in s.pools :: unchanged(p)
    ensures s.View() == old(s.View())
  {
    forall m | 0 <= m < |s.pools| ensures s.pools[m].View() == old(s.pools[m].View()) {
      assert s.pools[m] in s.pools;
    }
    SameViews(s.pools);
  }

  twostate lemma OldViewsAt(ps: seq<DHCPPool>)
    ensures |old(PoolViews(ps))| == |ps|
    ensures forall i | 0 <= i < |ps| :: old(PoolViews(ps))[i] == old(ps[i].View())
    decreases |ps|
  {
    if ps != [] {
      OldViewsAt(ps[1..]);
    }
  }

  /** The pools of a subnet with the failover switch set the same everywhere. */
  function Switched(ps: seq<Pool>, on: bool): seq<Pool> {
    if ps == [] then [] else [ps[0].(peerEnabled := on)] + Switched(ps[1..], on)
  }

  lemma {:induction false} SwitchedAt(ps: seq<Pool>, on: bool)
    ensures |Switched(ps, on)| == |ps|
    ensures forall i | 0 <= i < |ps| :: Switched(ps, on)[i] == ps[i].(peerEnabled := on)
    decreases |ps|
  {
    if ps != [] {
      SwitchedAt(ps[1..], on);
    }
  }

  class DHCPSubnet {
    /** Every field but the pools, which are objects of their own. */
    var own: Subnet
    var pools: seq<DHCPPool>

    function View(): Subnet
      reads this, pools
    {
      own.(pools := PoolViews(pools))
    }

    ghost predicate Valid()
      reads this
    {
      own.pools == [] && forall i, j | 0 <= i < j < |pools| :: pools[i] != pools[j]
    }

    constructor ()
      ensures own == NEW_SUBNET && pools == [] && Valid()
    {
      own, pools := NEW_SUBNET, [];
    }

    /** `resolve_subnet` */
    method ResolveSubnet(text: string) returns (r: Result<()>)
      modifies this`own
      ensures var spec := SubnetLines(Split(text, NL), old(own));
              if spec.Ok? then r.Ok? && own == spec.value else r == Err(spec.error)
    {
      var lines := Split(text, NL);
      ghost var start := own;
      var i := 0;
      while i < |lines|
        invariant 0 <= i <= |lines|
        invariant SubnetLines(lines[i..], own) == SubnetLines(lines, start)
      {
        var next := SubnetField(own, lines[i]);
        if next.Err? {
          return Err(next.error);
        }
        own := next.value;
        assert lines[i..][1..] == lines[i + 1..];
        i := i + 1;
      }
      r := Ok(());
    }

    /** `resolve_pools`: the pools found in the text are appended. */
    method ResolvePools(text: string) returns (r: Result<()>)
      modifies this`pools
      ensures ParsePools(FindPools(text)).Ok? ==>
        r.Ok? && PoolViews(pools) == old(PoolViews(pools)) + ParsePools(FindPools(text)).value
      ensures ParsePools(FindPools(text)).Err? ==> r == Err(ParsePools(FindPools(text)).error)
      ensures forall p | p in pools :: p in old(pools) || fresh(p)
      ensures old(Valid()) && own == old(own) ==> Valid()
    {
      var found := FindPools(text);
      var i := 0;
      while i < |found|
        invariant 0 <= i <= |found| <= 1
        invariant i == 0 ==> pools == old(pools)
        invariant i == 1 ==>
            && |pools| == |old(pools)| + 1 && pools == old(pools) + [pools[|pools| - 1]]
            && fresh(pools[|pools| - 1]) && ParsePool(found[0]) == Ok(pools[|pools| - 1].View())
        invariant forall p | p in old(pools) :: p.View() == old(p.View())
      {
        var pool := new DHCPPool();
        var done := pool.Resolve(found[i]);
        if done.Err? {
          assert ParsePools(found).Err?;
          return Err(done.error);
        }
        pools := pools + [pool];
        i := i + 1;
      }
      if |found| == 1 {
        assert found[1..] == [];
        assert ParsePools(found) == Ok([pools[|pools| - 1].View()] + []);
        PoolViewsSnoc(old(pools), pools[|pools| - 1]);
      } else {
        assert PoolViews(pools) + [] == PoolViews(pools);
      }
      r := Ok(());
    }

    /** `set_subnet`: subnet and mask are stored before the broadcast is calculated. */
    method SetSubnet(subnet: string, netmask: Option<string>) returns (r: Result<()>)
      modifies this`own
      ensures var mask := if netmask.Some? then netmask.value else "255.255.255.0";
              var stored := old(own).(subnet := Some(subnet), subnetMask := Some(mask));
              match Ipv4.Broadcast(subnet, mask)
              case Ok(b) => r == Ok(()) && own == stored.(broadcast := Some(b))
              case Err(e) => r == Err(e) && own == stored
    {
      var mask := if netmask.Some? then netmask.value else "255.255.255.0";
      own := own.(subnet := Some(subnet), subnetMask := Some(mask));
      var b := Ipv4.Broadcast(subnet, mask);
      if b.Err? {
        return Err(b.error);
      }
      own := own.(broadcast := Some(b.value));
      r := Ok(());
    }

    /** `pools[j].set_range(first, last)` */
    method SetPoolRange(j: nat, first: string, last: string) returns (r: Result<()>)
      requires Valid()
      modifies pools
      ensures var outcome := PoolStored(old(View()), j, first, last);
              r == outcome.0 && View() == outcome.1
    {
      ghost var ps := PoolViews(pools);
      PoolViewsAt(pools);
      if j >= |pools| {
        return Err(IndexError);
      }
      pools[j].SetRange(first, last);
      PoolViewsAt(pools);
      assert PoolViews(pools) == ps[j := pools[j].View()];
      r := Ok(());
    }

    /** `enable_peer` and `disable_peer` */
    method SetPeerEnabled(on: bool)
      modifies pools
      ensures View() == old(View()).(pools := Switched(old(View()).pools, on))
      ensures forall p | p in pools :: p.View() == old(p.View()).(peerEnabled := on)
    {
      var i := 0;
      while i < |pools|
        invariant 0 <= i <= |pools|
        invariant forall p | p in pools[..i] :: p.View() == old(p.View()).(peerEnabled := on)
        invariant forall p | p in pools[i..] && p !in pools[..i] :: p.View() == old(p.View())
      {
        ghost var before := pools[i].View();
        pools[i].SetPeerEnabled(on);
        assert pools[..i + 1] == pools[..i] + [pools[i]];
        assert pools[i..] == [pools[i]] + pools[i + 1..];
        i := i + 1;
      }
      assert pools[..i] == pools;
      PoolViewsAt(pools);
      OldViewsAt(pools);
      SwitchedAt(old(PoolViews(pools)), on);
      assert PoolViews(pools) == Switched(old(PoolViews(pools)), on);
    }
  }

  function SubnetViews(ss: seq<DHCPSubnet>): seq<Subnet>
    reads ss, set s, p | s in ss && p in s.pools :: p
  {
    if ss == [] then []
    else
      assert ss[0] in ss;
      assert forall i | 0 <= i < |ss[0].pools| :: ss[0].pools[i] in ss[0].pools;
      [ss[0].View()] + SubnetViews(ss[1..])
  }

  lemma {:induction false} SubnetViewsAt(ss: seq<DHCPSubnet>)
    ensures |SubnetViews(ss)| == |ss|
    ensures forall i | 0 <= i < |ss| :: SubnetViews(ss)[i] == ss[i].View()
    decreases |ss|
  {
    if ss != [] {
      SubnetViewsAt(ss[1..]);
    }
  }

  function HostViews(hs: seq<DHCPReservedHost>): seq<Host>
    reads hs
  {
    if hs == [] then [] else [hs[0].View()] + HostViews(hs[1..])
  }

  lemma {:induction false} HostViewsSnoc(hs: seq<DHCPReservedHost>, h: DHCPReservedHost)
    ensures HostViews(hs + [h]) == HostViews(hs) + [h.View()]
    decreases |hs|
  {
    if hs == [] {
      assert hs + [h] == [h] && [h][1..] == [];
    } else {
      assert (hs + [h])[1..] == hs[1..] + [h];
      HostViewsSnoc(hs[1..], h);
    }
  }

  /** Which hosts of the list carry the hardware address. */
  function Matches(hs: seq<DHCPReservedHost>, hwAddr: string): (flags: seq<bool>)
    reads hs
    ensures |flags| == |hs|
    ensures forall i | 0 <= i < |hs| :: flags[i] <==> hs[i].hwAddr == Some(hwAddr)
  {
    if hs == [] then [] else [hs[0].hwAddr == Some(hwAddr)] + Matches(hs[1..], hwAddr)
  }

  /** `list.remove`: the first occurrence goes. */
  function Remove<T(==)>(xs: seq<T>, x: T): seq<T> {
    if xs == [] then []
    else if xs[0] == x then xs[1..]
    else [xs[0]] + Remove(xs[1..], x)
  }

  lemma {:induction false} RemoveMiddle<T>(a: seq<T>, x: T, b: seq<T>)
    requires x !in a
    ensures Remove(a + [x] + b, x) == a + b
    decreases |a|
  {
    var xs := a + [x] + b;
    if a == [] {
      assert xs[1..] == b;
    } else {
      assert xs[1..] == a[1..] + [x] + b;
      RemoveMiddle(a[1..], x, b);
    }
  }

  class DHCPConfig {
    var defaultLeaseTime: Option<nat>
    var maxLeaseTime: Option<nat>
    var subnets: seq<DHCPSubnet>
    var peer: DHCPFailoverPeer?
    var hosts: seq<DHCPReservedHost>

    function View(): Config
      reads this, subnets, set s, p | s in subnets && p in s.pools :: p
      reads if peer == null then {} else {peer}
      reads hosts
    {
      Config(defaultLeaseTime, maxLeaseTime, if peer == null then None else Some(peer.peer),
             SubnetViews(subnets), HostViews(hosts))
    }

    /** No object is held twice. */
    ghost predicate Valid()
      reads this, subnets
    {
      && Distinct(hosts) && Distinct(subnets)
      && (forall s | s in subnets :: s.Valid())
      && (forall i, j | 0 <= i < j < |subnets| :: forall p | p in subnets[i].pools :: p !in subnets[j].pools)
    }

    constructor ()
      ensures Valid() && View() == Config(Some(30), Some(30), None, [], [])
    {
      defaultLeaseTime, maxLeaseTime := Some(30), Some(30);
      subnets, peer, hosts := [], null, [];
    }

    method AddReservedHost(hostname: string, hwAddr: string, ipAddr: string)
      requires Valid()
      modifies this`hosts
      ensures Valid()
      ensures |hosts| == |old(hosts)| + 1 && hosts[..|old(hosts)|] == old(hosts)
      ensures View() == old(View()).(hosts := old(View()).hosts + [Host(Some(hostname), Some(hwAddr), Some(ipAddr))])
    {
      var h := new DHCPReservedHost(Host(Some(hostname), Some(hwAddr), Some(ipAddr)));
      HostViewsSnoc(hosts, h);
      hosts := hosts + [h];
    }

    /** The first host with the address, if any. */
    method GetReservedHost(hwAddr: string) returns (h: DHCPReservedHost?)
      ensures h == null <==> forall g | g in hosts :: g.hwAddr != Some(hwAddr)
      ensures h != null ==> exists i | 0 <= i < |hosts| ::
        && hosts[i] == h && h.hwAddr == Some(hwAddr)
        && forall j | 0 <= j < i :: hosts[j].hwAddr != Some(hwAddr)
    {
      for i := 0 to |hosts|
        invariant forall j | 0 <= j < i :: hosts[j].hwAddr != Some(hwAddr)
      {
        if hosts[i].hwAddr == Some(hwAddr) {
          return hosts[i];
        }
      }
      h := null;
    }

    /** The loop removes from the list it runs over; what that leaves is `Sweep`. */
    method DeleteReservedHost(hwAddr: string)
      requires Valid()
      modifies this`hosts
      ensures Valid()
      ensures hosts == ReservedHosts.Sweep(old(hosts), Matches(old(hosts), hwAddr))
    {
      hide ReservedHosts.Sweep, Remove, Distinct, Matches, View;
      SweepNothing<DHCPReservedHost>();
      ghost var start, flags := hosts, Matches(hosts, hwAddr);
      ghost var kept, rest, marks := [], hosts, flags;
      assert [] + ReservedHosts.Sweep(rest, marks) == ReservedHosts.Sweep(rest, marks);
      var i := 0;
      while i < |hosts|
        invariant hosts == kept + rest && Distinct(hosts)
        invariant i == |kept| || (i == |kept| + 1 && rest == [])
        invariant |marks| == |rest|
        invariant forall k | 0 <= k < |rest| :: marks[k] <==> rest[k].hwAddr == Some(hwAddr)
        invariant kept + ReservedHosts.Sweep(rest, marks) == ReservedHosts.Sweep(start, flags)
        decreases |hosts| - i
      {
        var host := hosts[i];
        assert host == rest[0];
        i := i + 1;
        if host.hwAddr == Some(hwAddr) {
          TurnRemoves(kept, rest, marks);
          hosts := Remove(hosts, host);
          if |rest| > 1 {
            kept, rest, marks := kept + [rest[1]], rest[2..], marks[2..];
          } else {
            rest, marks := [], [];
          }
        } else {
          TurnKeeps(kept, rest, marks);
          kept, rest, marks := kept + [host], rest[1..], marks[1..];
        }
      }
    }

    /** `DHCPSubnet(text)`: a new subnet, its own lines first and then its pools. */
    static method NewSubnet(text: string) returns (r: Result<DHCPSubnet>)
      ensures var spec := ParseSubnet(text);
              if spec.Ok? then r.Ok? && r.value.View() == spec.value else r == Err(spec.error)
      ensures r.Ok? ==> fresh(r.value) && r.value.Valid()
    {
      hide SubnetField, PoolLines, FindPools;
      var subnet := new DHCPSubnet();
      var done := subnet.ResolveSubnet(text);
      if done.Err? {
        return Err(done.error);
      }
      OwnHasNoPools(Split(text, NL), NEW_SUBNET);
      done := subnet.ResolvePools(text);
      if done.Err? {
        return Err(done.error);
      }
      assert PoolViews([]) + ParsePools(FindPools(text)).value == ParsePools(FindPools(text)).value;
      r := Ok(subnet);
    }

    /** `resolve_subnets`: every text found makes a new subnet. */
    static method ResolveSubnets(conf: string) returns (r: Result<seq<DHCPSubnet>>)
      ensures var spec := ParseSubnets(conf);
              if spec.Ok? then r.Ok? && SubnetViews(r.value) == spec.value else r == Err(spec.error)
      ensures r.Ok? ==> |r.value| <= 1 && forall s | s in r.value :: fresh(s) && s.Valid()
    {
      hide ParseSubnet;
      var found := FindSubnets(conf);
      if |found| == 0 {
        return Ok([]);
      }
      assert found == [found[0]] && found[1..] == [];
      var subnet := NewSubnet(found[0]);
      if subnet.Err? {
        return Err(subnet.error);
      }
      assert [subnet.value][1..] == [];
      assert SubnetViews([subnet.value]) == [subnet.value.View()] + SubnetViews([]);
      OneSubnetText(found, subnet.value.View());
      r := Ok([subnet.value]);
    }

    /** `DHCPFailoverPeer(conf)` */
    static method NewPeer(conf: string) returns (r: Result<DHCPFailoverPeer>)
      ensures var spec := ParsePeer(conf);
              if spec.Ok? then r.Ok? && fresh(r.value) && r.value.peer == spec.value else r == Err(spec.error)
    {
      hide PeerLines, Split;
      var p := new DHCPFailoverPeer();
      var read := p.Resolve(conf);
      if read.Err? {
        return Err(read.error);
      }
      r := Ok(p);
    }

    /** `DHCPReservedHost(config=text)` */
    static method NewHost(text: string) returns (r: Result<DHCPReservedHost>)
      ensures var spec := ParseHost(text);
              if spec.Ok? then r.Ok? && fresh(r.value) && r.value.View() == spec.value else r == Err(spec.error)
    {
      var h := new DHCPReservedHost(NEW_HOST);
      var read := h.Resolve(text);
      if read.Err? {
        return Err(read.error);
      }
      r := Ok(h);
    }

    /** `resolve_reserved_hosts`, for at most `turns` turns of its loop. */
    static method ResolveReservedHosts(conf: string, turns: nat) returns (hs: seq<DHCPReservedHost>, end: HostScan)
      ensures (forall h | h in hs :: fresh(h)) && Distinct(hs)
      ensures end == Scan(conf, [], 0, turns)
      ensures !end.Failed? ==> HostViews(hs) == end.hosts
    {
      hide ParseHost, Find, Scan, Contains, HostViews;
      hs := [];
      NoHostViews();
      ScanOver(conf, [], 0, 0);
      var start: nat, left: nat := 0, turns;
      while left > 0
        invariant (forall h | h in hs :: fresh(h)) && Distinct(hs)
        invariant Scan(conf, HostViews(hs), start, left) == Scan(conf, [], 0, turns)
      {
        var at := Find(conf, HOST, start);
        if at < 0 {
          ScanOver(conf, HostViews(hs), start, left);
          return hs, Finished(HostViews(hs));
        }
        var close := Find(conf, "}", at);
        ScanNext(conf, HostViews(hs), start, left);
        var h := NewHost(if close < 0 then "" else conf[at..close + 1]);
        if h.Err? {
          return hs, Failed(h.error);
        }
        HostViewsSnoc(hs, h.value);
        hs := hs + [h.value];
        start, left := close + 1, left - 1;
      }
      ScanOver(conf, HostViews(hs), start, left);
      end := Running(HostViews(hs), start);
    }

    method SetSubnets(ss: seq<DHCPSubnet>)
      requires Valid() && |ss| <= 1 && forall s | s in ss :: s.Valid()
      modifies this`subnets
      ensures Valid()
      ensures View() == old(View()).(subnets := SubnetViews(ss))
    {
      subnets := ss;
    }

    method SetPeer(p: DHCPFailoverPeer)
      requires Valid()
      modifies this`peer
      ensures Valid()
      ensures View() == old(View()).(peer := Some(p.peer))
    {
      peer := p;
    }

    method SetHosts(hs: seq<DHCPReservedHost>)
      requires Valid() && Distinct(hs)
      modifies this`hosts
      ensures Valid()
      ensures View() == old(View()).(hosts := HostViews(hs))
    {
      hosts := hs;
    }

    /** `make`: the parts are assigned in turn; an exception ends the call and is swallowed. */
    method Make(conf: string, turns: nat) returns (done: bool)
      requires Valid()
      modifies this
      ensures Valid()
      ensures Made(View(), done) == DhcpText.Make(conf, old(View()), turns)
    {
      hide ParseSubnets, ParsePeer, Scan, SubnetViews, HostViews, View;
      var ss := ResolveSubnets(conf);
      if ss.Err? {
        return true;
      }
      SetSubnets(ss.value);
      var p := NewPeer(conf);
      if p.Err? {
        return true;
      }
      SetPeer(p.value);
      var hs, end := ResolveReservedHosts(conf, turns);
      if end.Finished? {
        SetHosts(hs);
      }
      done := !end.Running?;
    }

    /** `set_subnet` on one of the subnets; the others keep their state. */
    method StoreSubnet(i: nat, base: string, netmask: string) returns (r: Result<()>)
      requires Valid() && i < |subnets|
      modifies subnets[i]
      ensures Valid() && forall s | s in subnets :: s.pools == old(s.pools)
      ensures i < |old(View()).subnets|
      ensures var outcome := SubnetStored(old(View()).subnets[i], base, netmask);
              r == outcome.0 && View() == old(View()).(subnets := old(View()).subnets[i := outcome.1])
    {
      hide HostViews, SubnetStored, SubnetViews;
      AllSubnetViews(subnets);
      r := ChangeSubnet(i, base, netmask);
    }

    method ChangeSubnet(i: nat, base: string, netmask: string) returns (r: Result<()>)
      requires Valid() && i < |subnets|
      modifies subnets[i]
      ensures Valid() && (forall s | s in subnets :: s.pools == old(s.pools))
      ensures |old(SubnetViews(subnets))| == |subnets|
      ensures var outcome := SubnetStored(old(SubnetViews(subnets))[i], base, netmask);
              r == outcome.0 && SubnetViews(subnets) == old(SubnetViews(subnets))[i := outcome.1]
    {
      hide Ipv4.Broadcast, SubnetViews;
      ghost var before := SubnetViews(subnets);
      AllSubnetViews(subnets);
      r := subnets[i].SetSubnet(base, Some(netmask));
      AllSubnetViews(subnets);
      assert SubnetViews(subnets) == before[i := SubnetViews(subnets)[i]];
    }

    /** `set_range` on one pool of one subnet; the others keep their state. */
    method StorePool(i: nat, j: nat, first: string, last: string) returns (r: Result<()>)
      requires Valid() && i < |subnets|
      modifies subnets[i].pools
      ensures Valid()
      ensures i < |old(View()).subnets|
      ensures var outcome := PoolStored(old(View()).subnets[i], j, first, last);
              r == outcome.0 && View() == old(View()).(subnets := old(View()).subnets[i := outcome.1])
    {
      hide HostViews, PoolStored, SubnetViews;
      AllSubnetViews(subnets);
      r := ChangePool(i, j, first, last);
    }

    method ChangePool(i: nat, j: nat, first: string, last: string) returns (r: Result<()>)
      requires Valid() && i < |subnets|
      modifies subnets[i].pools
      ensures Valid() && |old(SubnetViews(subnets))| == |subnets|
      ensures var outcome := PoolStored(old(SubnetViews(subnets))[i], j, first, last);
              r == outcome.0 && SubnetViews(subnets) == old(SubnetViews(subnets))[i := outcome.1]
    {
      hide PoolStored, SubnetViews;
      ghost var before := SubnetViews(subnets);
      AllSubnetViews(subnets);
      assert forall k, p | 0 <= k < |subnets| && k != i && p in subnets[k].pools :: p !in subnets[i].pools;
      assert subnets[i].Valid();
      hide Valid;
      r := subnets[i].SetPoolRange(j, first, last);
      AllSubnetViews(subnets);
      forall k | 0 <= k < |subnets| && k != i
        ensures subnets[k].View() == before[k]
      {
        SameView(subnets[k]);
      }
      assert SubnetViews(subnets) == before[i := SubnetViews(subnets)[i]];
    }

    /** `set_range`: an exception can leave the subnet changed and the pool not. */
    method SetRange(first: string, last: string, subnet: nat, pool: nat) returns (r: Result<()>)
      requires Valid()
      modifies this, subnets, set s, p | s in subnets && p in s.pools :: p
      ensures Valid()
      ensures var outcome := RangeStored(old(View()), first, last, subnet, pool);
              r == outcome.0 && View() == outcome.1
    {
      hide SubnetViews, HostViews, PoolViews, SubnetStored, PoolStored;
      hide Ipv4.SubnetBase, Ipv4.PrefixLength, Ipv4.Netmask;
      ghost var reachable := set s, p | s in subnets && p in s.pools :: p;
      var base := Ipv4.SubnetBase(first);
      var prefix := Ipv4.PrefixLength(first, last);
      if prefix.Err? {
        return Err(prefix.error);
      }
      var netmask := Ipv4.Netmask(prefix.value);
      if netmask.Err? {
        return Err(netmask.error);
      }
      if subnet >= |subnets| {
        AllSubnetViews(subnets);
        return Err(IndexError);
      }
      r := StoreSubnet(subnet, base, netmask.value);
      if r.Ok? {
        assert subnets[subnet] in subnets;
        assert forall m | 0 <= m < |subnets[subnet].pools| :: subnets[subnet].pools[m] in subnets[subnet].pools;
        assert forall p | p in subnets[subnet].pools :: p in reachable;
        r := StorePool(subnet, pool, first, last);
      }
    }
  }

  lemma NoHostViews()
    ensures HostViews([]) == []
  {
  }

  /** The scan when nothing is found any more, or no turn is left. */
  lemma ScanOver(conf: string, hosts: seq<Host>, start: nat, left: nat)
    ensures left == 0 ==> Scan(conf, hosts, start, left) == Running(hosts, start)
    ensures left > 0 && Find(conf, HOST, start) < 0 ==> Scan(conf, hosts, start, left) == Finished(hosts)
  {
  }

  /** The scan when another host is found. */
  lemma ScanNext(conf: string, hosts: seq<Host>, start: nat, left: nat)
    requires left > 0 && Find(conf, HOST, start) >= 0
    ensures var at := Find(conf, HOST, start);
            var close := Find(conf, "}", at);
            var h := ParseHost(if close < 0 then "" else conf[at..close + 1]);
            Scan(conf, hosts, start, left) ==
              if h.Err? then Failed(h.error) else Scan(conf, hosts + [h.value], close + 1, left - 1)
  {
    hide ParseHost, Find, MatchAt, HOST;
  }

  lemma AllSubnetViews(ss: seq<DHCPSubnet>)
    ensures |SubnetViews(ss)| == |ss|
    ensures forall i | 0 <= i < |ss| :: SubnetViews(ss)[i] == ss[i].View()
  {
    SubnetViewsAt(ss);
  }

  /** What `set_subnet` does to a subnet. */
  function SubnetStored(s: Subnet, base: string, netmask: string): (Result<()>, Subnet) {
    var stored := s.(subnet := Some(base), subnetMask := Some(netmask));
    match Ipv4.Broadcast(base, netmask)
    case Ok(b) => (Ok(()), stored.(broadcast := Some(b)))
    case Err(e) => (Err(e), stored)
  }

  function PoolStored(s: Subnet, j: nat, first: string, last: string): (Result<()>, Subnet) {
    if j >= |s.pools| then (Err(IndexError), s)
    else (Ok(()), s.(pools := s.pools[j := s.pools[j].(rangeStart := Some(first), rangeEnd := Some(last))]))
  }

  /** What `set_range` does to a configuration. */
  function RangeStored(c: Config, first: string, last: string, i: nat, j: nat): (Result<()>, Config) {
    var prefix := Ipv4.PrefixLength(first, last);
    if prefix.Err? then (Err(prefix.error), c)
    else
      var netmask := Ipv4.Netmask(prefix.value);
      if netmask.Err? then (Err(netmask.error), c)
      else if i >= |c.subnets| then (Err(IndexError), c)
      else
        var (r1, s1) := SubnetStored(c.subnets[i], Ipv4.SubnetBase(first), netmask.value);
        if r1.Err? then (r1, c.(subnets := c.subnets[i := s1]))
        else
          var (r2, s2) := PoolStored(s1, j, first, last);
          (r2, c.(subnets := c.subnets[i := s2]))
  }

  lemma OneSubnetText(found: seq<string>, s: Subnet)
    requires |found| == 1 && ParseSubnet(found[0]) == Ok(s)
    ensures ParseSubnetTexts(found) == Ok([s])
  {
    hide ParseSubnet;
    assert found[1..] == [] && [s] + [] == [s];
  }

  /** Reading the subnet's own lines never touches the pools. */
  lemma {:induction false} OwnHasNoPools(lines: seq<string>, s: Subnet)
    requires s.pools == []
    ensures SubnetLines(lines, s).Ok? ==> SubnetLines(lines, s).value.pools == []
    decreases |lines|
  {
    if lines != [] {
      var next := SubnetField(s, lines[0]);
      if next.Ok? {
        OwnHasNoPools(lines[1..], next.value);
      }
    }
  }

  lemma SweepNothing<T>()
    ensures ReservedHosts.Sweep<T>([], []) == []
  {
  }

  /** A turn of the loop on an element that matches: it goes, and the loop steps over the next. */
  lemma TurnRemoves<T>(kept: seq<T>, rest: seq<T>, marks: seq<bool>)
    requires rest != [] && |marks| == |rest| && marks[0] && Distinct(kept + rest)
    ensures Remove(kept + rest, rest[0]) == kept + rest[1..] && Distinct(kept + rest[1..])
    ensures |rest| == 1 ==> kept + ReservedHosts.Sweep(rest, marks) == kept && kept + rest[1..] == kept
    ensures |rest| > 1 ==>
      && kept + ReservedHosts.Sweep(rest, marks) == kept + [rest[1]] + ReservedHosts.Sweep(rest[2..], marks[2..])
      && kept + rest[1..] == kept + [rest[1]] + rest[2..]
  {
    assert kept + rest == kept + [rest[0]] + rest[1..];
    NotKept(kept, rest);
    RemoveMiddle(kept, rest[0], rest[1..]);
    DistinctWithout(kept, rest[0], rest[1..]);
    hide Distinct, Remove;
    if |rest| > 1 {
      AssocSweep(kept, rest[1], ReservedHosts.Sweep(rest[2..], marks[2..]));
      assert rest[1..] == [rest[1]] + rest[2..];
      AssocSweep(kept, rest[1], rest[2..]);
    }
  }

  lemma TurnKeeps<T>(kept: seq<T>, rest: seq<T>, marks: seq<bool>)
    requires rest != [] && |marks| == |rest| && !marks[0]
    ensures kept + ReservedHosts.Sweep(rest, marks) == kept + [rest[0]] + ReservedHosts.Sweep(rest[1..], marks[1..])
    ensures kept + rest == kept + [rest[0]] + rest[1..]
  {
    AssocSweep(kept, rest[0], ReservedHosts.Sweep(rest[1..], marks[1..]));
    assert rest == [rest[0]] + rest[1..];
    AssocSweep(kept, rest[0], rest[1..]);
  }

  lemma NotKept<T>(kept: seq<T>, rest: seq<T>)
    requires rest != [] && Distinct(kept + rest)
    ensures rest[0] !in kept
  {
    var xs := kept + rest;
    assert xs[|kept|] == rest[0];
    assert forall k | 0 <= k < |kept| :: xs[k] == kept[k];
  }

  lemma DistinctWithout<T>(a: seq<T>, x: T, b: seq<T>)
    requires Distinct(a + [x] + b)
    ensures Distinct(a + b)
  {
    var xs, ys := a + [x] + b, a + b;
    forall i, j | 0 <= i < j < |ys|
      ensures ys[i] != ys[j]
    {
      var k, l := if i < |a| then i else i + 1, if j < |a| then j else j + 1;
      assert xs[k] == ys[i] && xs[l] == ys[j];
    }
  }

  lemma AssocSweep<T>(a: seq<T>, x: T, b: seq<T>)
    ensures a + ([x] + b) == a + [x] + b
  {
  }
}
