/** The dhcpd.conf subset: how a configuration is printed, and how the text is read back.
    Every function follows one method of dhcp_config.py. */
module DhcpText {
  import opened Common
  import opened Text
  import opened Lines

  // ---------------------------------------------------------------------
  // What the objects hold
  // ---------------------------------------------------------------------

  datatype Peer = Peer(
    name: Option<string>,
    primary: bool,
    address: Option<string>,
    port: Option<string>,
    peerAddress: Option<string>,
    peerPort: Option<string>,
    maxResponseDelay: Option<string>,
    maxUnackedUpdates: Option<string>,
    mclt: Option<string>,
    split: Option<string>,
    loadBalance: Option<string>,
    enabled: bool)

  datatype Pool = Pool(
    failoverPeer: Option<string>,
    rangeStart: Option<string>,
    rangeEnd: Option<string>,
    peerEnabled: bool)

  datatype Subnet = Subnet(
    authoritative: bool,
    subnet: Option<string>,
    ntpServers: Option<string>,
    subnetMask: Option<string>,
    broadcast: Option<string>,
    routers: Option<string>,
    dnsServers: Option<string>,
    interface: Option<string>,
    pools: seq<Pool>)

  datatype Host = Host(host: Option<string>, hwAddr: Option<string>, fixedAddr: Option<string>)

  datatype Config = Config(
    defaultLeaseTime: Option<nat>,
    maxLeaseTime: Option<nat>,
    peer: Option<Peer>,
    subnets: seq<Subnet>,
    hosts: seq<Host>)

  const NEW_PEER := Peer(None, false, None, None, None, None, None, None, None, None, None, true)
  const NEW_POOL := Pool(None, None, None, true)
  const NEW_SUBNET := Subnet(false, None, None, None, None, None, None, None, [])
  const NEW_HOST := Host(None, None, None)

  const FAILOVER_PEER := "failover peer"
  const PRIMARY := "primary"
  const ADDRESS := "address"
  const PORT := "port"
  const PEER_ADDRESS := "peer address"
  const PEER_PORT := "peer port"
  const MAX_RESPONSE_DELAY := "max-response-delay"
  const MAX_UNACKED_UPDATES := "max-unacked-updates"
  const MCLT := "mclt"
  const SPLIT := "split"
  const LOAD_BALANCE := "load balance max seconds"

  const SUBNET := "subnet"
  const NTP := "option ntp-servers"
  const SUBNET_MASK := "option subnet-mask"
  const BROADCAST := "option broadcast-address"
  const ROUTERS := "option routers"
  const DNS := "option domain-name-servers"
  const INTERFACE := "interface"
  const AUTHORITATIVE := "authoritative"

  const POOL := "pool"
  const RANGE := "range"

  const HOST := "host"
  const HARDWARE := "hardware ethernet"
  const FIXED_ADDRESS := "fixed-address"

  // ---------------------------------------------------------------------
  // Printing. `cr` is "\r" in the text `str()` builds; after the text has gone through a file
  // that is read with universal newlines it is "\n".
  // ---------------------------------------------------------------------

  /** How `format` renders a field. */
  function Show(v: Option<string>): string {
    if v.Some? then v.value else "None"
  }

  /** One optional line of a block. */
  function KeyLine(indent: string, key: string, v: Option<string>): string {
    if v.Some? then NL + (indent + key + " " + v.value + ";") else ""
  }

  function PeerText(cr: string, p: Peer): string {
    ("failover peer \"" + Show(p.name) + "\" {")
    + NL + (if p.primary then "\tprimary;" else "secondary;")
    + KeyLine("\t", ADDRESS, p.address)
    + KeyLine("\t", PORT, p.port)
    + KeyLine("\t", PEER_ADDRESS, p.peerAddress)
    + KeyLine("\t", PEER_PORT, p.peerPort)
    + KeyLine("\t", MAX_RESPONSE_DELAY, p.maxResponseDelay)
    + KeyLine("\t", MAX_UNACKED_UPDATES, p.maxUnackedUpdates)
    + KeyLine("\t", MCLT, p.mclt)
    + KeyLine("\t", SPLIT, p.split)
    + KeyLine("\t", LOAD_BALANCE, p.loadBalance)
    + NL + (cr + "}")
  }

  /** `#` before every line; the last line is stripped first. */
  function CommentLines(ls: seq<string>): seq<string> {
    if |ls| == 0 then []
    else if |ls| == 1 then ["#" + Strip(ls[0])]
    else ["#" + ls[0]] + CommentLines(ls[1..])
  }

  function PrintPeer(cr: string, p: Peer): string {
    if p.enabled then PeerText(cr, p)
    else Join(CommentLines(Split(Strip(PeerText(cr, p)), NL)), NL)
  }

  function PoolText(p: Pool): string {
    "pool {"
    + (if p.failoverPeer.Some? then NL + ("\t\tfailover peer \"" + p.failoverPeer.value + "\";") else "")
    + (if p.rangeStart.Some? && p.rangeEnd.Some?
       then NL + ("\t\trange " + (p.rangeStart.value + " " + p.rangeEnd.value) + ";") else "")
    + NL + "\t}"
  }

  /** `replace` is a split joined again. */
  function PrintPool(p: Pool): string {
    if p.peerEnabled then PoolText(p)
    else Join(Split(PoolText(p), FAILOVER_PEER), "#failover peer")
  }

  function PrintPools(pools: seq<Pool>): string {
    if pools == [] then "" else NL + ("\t" + PrintPool(pools[0])) + PrintPools(pools[1..])
  }

  function SubnetHead(s: Subnet): string {
    ("subnet " + (Show(s.subnet) + " netmask " + Show(s.subnetMask)) + " {")
    + KeyLine("\t", NTP, s.ntpServers)
    + KeyLine("\t", SUBNET_MASK, s.subnetMask)
    + KeyLine("\t", BROADCAST, s.broadcast)
    + KeyLine("\t", ROUTERS, s.routers)
    + KeyLine("\t", DNS, s.dnsServers)
    + KeyLine("\t", INTERFACE, s.interface)
    + (if s.authoritative then NL + "\tauthoritative;" else "")
  }

  function PrintSubnet(s: Subnet): string {
    SubnetHead(s) + PrintPools(s.pools) + NL + "}"
  }

  function PrintSubnets(ss: seq<Subnet>): string {
    if ss == [] then "" else NL + "" + NL + PrintSubnet(ss[0]) + PrintSubnets(ss[1..])
  }

  function PrintHost(cr: string, h: Host): string {
    ("host " + Show(h.host) + " {")
    + NL + ("    " + cr + ("\thardware ethernet " + Show(h.hwAddr) + ";"))
    + NL + ("    " + cr + ("\tfixed-address " + Show(h.fixedAddr) + ";"))
    + NL + ("    " + cr + "}")
  }

  function PrintHosts(cr: string, hs: seq<Host>): string {
    if hs == [] then "" else NL + PrintHost(cr, hs[0]) + PrintHosts(cr, hs[1..])
  }

  function PrintHeader(cr: string, c: Config): string {
    (if c.defaultLeaseTime.Some? then "default-lease-time " + Dec(c.defaultLeaseTime.value) + ";" else "")
    + (if c.maxLeaseTime.Some? then NL + (cr + ("max-lease-time " + Dec(c.maxLeaseTime.value) + ";")) else "")
  }

  function PrintConfig(cr: string, c: Config): string {
    PrintHeader(cr, c)
    + NL + "" + NL + (if c.peer.Some? then PrintPeer(cr, c.peer.value) else "None")
    + PrintSubnets(c.subnets)
    + PrintHosts(cr, c.hosts)
  }

  // ---------------------------------------------------------------------
  // Reading
  // ---------------------------------------------------------------------

  /** `line.strip().split(key)[1].strip().split(';')[0]` */
  function Field(line: string, key: string): Result<string>
    requires key != ""
  {
    var pieces := Split(Strip(line), key);
    if |pieces| < 2 then Err(IndexError) else Ok(Split(Strip(pieces[1]), ";")[0])
  }

  /** The name between the first two quotes of the line that opens a peer block. */
  function PeerName(line: string): Result<string> {
    var pieces := Split(Strip(line), FAILOVER_PEER);
    if |pieces| < 2 then Err(IndexError)
    else
      var quoted := Split(Split(Strip(pieces[1]), "{")[0], "\"");
      if |quoted| < 2 then Err(IndexError) else Ok(quoted[1])
  }

  function PeerField(p: Peer, line: string): Result<Peer> {
    if Contains(line, PRIMARY) then
      Ok(p.(primary := true))
    else if Contains(line, ADDRESS) && !Contains(line, PEER_ADDRESS) then
      var v :- Field(line, ADDRESS); Ok(p.(address := Some(v)))
    else if Contains(line, PORT) && !Contains(line, PEER_PORT) then
      var v :- Field(line, PORT); Ok(p.(port := Some(v)))
    else if Contains(line, PEER_ADDRESS) then
      var v :- Field(line, PEER_ADDRESS); Ok(p.(peerAddress := Some(v)))
    else if Contains(line, PEER_PORT) then
      var v :- Field(line, PEER_PORT); Ok(p.(peerPort := Some(v)))
    else if Contains(line, MAX_RESPONSE_DELAY) then
      var v :- Field(line, MAX_RESPONSE_DELAY); Ok(p.(maxResponseDelay := Some(v)))
    else if Contains(line, MAX_UNACKED_UPDATES) then
      var v :- Field(line, MAX_UNACKED_UPDATES); Ok(p.(maxUnackedUpdates := Some(v)))
    else if Contains(line, MCLT) then
      var v :- Field(line, MCLT); Ok(p.(mclt := Some(v)))
    else if Contains(line, SPLIT) then
      var v :- Field(line, SPLIT); Ok(p.(split := Some(v)))
    else if Contains(line, LOAD_BALANCE) then
      var v :- Field(line, LOAD_BALANCE); Ok(p.(loadBalance := Some(v)))
    else
      Ok(p)
  }

  /** One line inside a peer block; the first line of the block also names the peer. */
  function PeerLine(p: Peer, started: bool, line: string): Result<Peer> {
    if started then PeerField(p, line)
    else
      var name :- PeerName(line);
      PeerField(p.(name := Some(name)), line)
  }

  /** `resolve_peer`: lines are read from the one that opens the block to the one ending in `}`. */
  function PeerLines(lines: seq<string>, p: Peer, started: bool): Result<Peer>
    decreases |lines|
  {
    if lines == [] then Ok(p)
    else if started || StartsWith(lines[0], FAILOVER_PEER) then
      var q :- PeerLine(p, started, lines[0]);
      if EndsWith(lines[0], "}") then Ok(q) else PeerLines(lines[1..], q, true)
    else
      PeerLines(lines[1..], p, false)
  }

  function ParsePeer(conf: string): Result<Peer> {
    PeerLines(Split(conf, NL), NEW_PEER, false)
  }

  function SubnetField(s: Subnet, line: string): Result<Subnet> {
    if StartsWith(Strip(line), SUBNET) then
      var words := Words(Strip(line));
      if |words| < 2 then Err(IndexError) else Ok(s.(subnet := Some(words[1])))
    else if Contains(line, NTP) then
      var v :- Field(line, NTP); Ok(s.(ntpServers := Some(v)))
    else if Contains(line, SUBNET_MASK) then
      var v :- Field(line, SUBNET_MASK); Ok(s.(subnetMask := Some(v)))
    else if Contains(line, BROADCAST) then
      var v :- Field(line, BROADCAST); Ok(s.(broadcast := Some(v)))
    else if Contains(line, ROUTERS) then
      var v :- Field(line, ROUTERS); Ok(s.(routers := Some(v)))
    else if Contains(line, DNS) then
      var v :- Field(line, DNS); Ok(s.(dnsServers := Some(v)))
    else if Contains(line, INTERFACE) then
      var v :- Field(line, INTERFACE); Ok(s.(interface := Some(v)))
    else if Contains(line, AUTHORITATIVE) then
      Ok(s.(authoritative := true))
    else
      Ok(s)
  }

  function SubnetLines(lines: seq<string>, s: Subnet): Result<Subnet>
    decreases |lines|
  {
    if lines == [] then Ok(s)
    else
      var t :- SubnetField(s, lines[0]);
      SubnetLines(lines[1..], t)
  }

  /** The failover line and the range line are tested independently. */
  function PoolLine(p: Pool, line: string): Result<Pool> {
    var q :-
      if Contains(line, FAILOVER_PEER) then
        var v :- Field(line, FAILOVER_PEER); Ok(p.(failoverPeer := Some(Without(v, '\"'))))
      else Ok(p);
    if Contains(line, RANGE) then
      var v :- Field(line, RANGE);
      var ends := Split(v, " ");
      if |ends| < 2 then Err(IndexError)
      else Ok(q.(rangeStart := Some(Strip(ends[0])), rangeEnd := Some(Strip(ends[1]))))
    else Ok(q)
  }

  function PoolLines(lines: seq<string>, p: Pool): Result<Pool>
    decreases |lines|
  {
    if lines == [] then Ok(p)
    else
      var q :- PoolLine(p, lines[0]);
      PoolLines(lines[1..], q)
  }

  function ParsePool(text: string): Result<Pool> {
    PoolLines(Split(text, NL), NEW_POOL)
  }

  /** `re.findall(r'(pool.*)\}', text, DOTALL)`: greedy, so at most one match, from the first
      `pool` to the last `}`. */
  function FindPools(text: string): seq<string> {
    var i := Find(text, POOL, 0);
    var j := FindLast(text, "}", |text|);
    if i < 0 || j < i + |POOL| then [] else [text[i..j]]
  }

  function ParsePools(texts: seq<string>): Result<seq<Pool>> {
    if texts == [] then Ok([])
    else
      var p :- ParsePool(texts[0]);
      var ps :- ParsePools(texts[1..]);
      Ok([p] + ps)
  }

  function ParseSubnet(text: string): Result<Subnet> {
    var s :- SubnetLines(Split(text, NL), NEW_SUBNET);
    var pools :- ParsePools(FindPools(text));
    Ok(s.(pools := pools))
  }

  /** `re.findall(r'(subnet.*)', conf, DOTALL)`: everything from the first `subnet`. */
  function FindSubnets(conf: string): seq<string> {
    var i := Find(conf, SUBNET, 0);
    if i < 0 then [] else [conf[i..]]
  }

  function ParseSubnetTexts(texts: seq<string>): Result<seq<Subnet>> {
    if texts == [] then Ok([])
    else
      var s :- ParseSubnet(texts[0]);
      var ss :- ParseSubnetTexts(texts[1..]);
      Ok([s] + ss)
  }

  function ParseSubnets(conf: string): Result<seq<Subnet>> {
    ParseSubnetTexts(FindSubnets(conf))
  }

  function HostField(h: Host, line: string): Result<Host> {
    if Contains(line, HOST) then
      var pieces := Split(Strip(line), HOST);
      if |pieces| < 2 then Err(IndexError)
      else Ok(h.(host := Some(Split(Strip(pieces[1]), "{")[0])))
    else if Contains(line, HARDWARE) then
      var v :- Field(line, HARDWARE); Ok(h.(hwAddr := Some(v)))
    else if Contains(line, FIXED_ADDRESS) then
      var v :- Field(line, FIXED_ADDRESS); Ok(h.(fixedAddr := Some(v)))
    else Ok(h)
  }

  function HostLines(lines: seq<string>, h: Host): Result<Host>
    decreases |lines|
  {
    if lines == [] then Ok(h)
    else
      var g :- HostField(h, lines[0]);
      HostLines(lines[1..], g)
  }

  function ParseHost(text: string): Result<Host> {
    HostLines(Split(text, NL), NEW_HOST)
  }

  /** The host scan after some number of turns of its loop. */
  datatype HostScan = Finished(hosts: seq<Host>) | Running(hosts: seq<Host>, start: nat) | Failed(error: Error)

  /** One turn of the `while True` loop. When no `}` follows, `find` gives -1: the host is read
      from the empty text and the scan starts over at 0. */
  function ScanTurn(conf: string, hosts: seq<Host>, start: nat): (r: HostScan)
    ensures r.Running? ==> r.start <= |conf|
  {
    var i := Find(conf, HOST, start);
    if i < 0 then Finished(hosts)
    else
      var end := Find(conf, "}", i);
      var h := ParseHost(if end < 0 then "" else conf[i..end + 1]);
      if h.Err? then Failed(h.error) else Running(hosts + [h.value], end + 1)
  }

  function Scan(conf: string, hosts: seq<Host>, start: nat, turns: nat): HostScan
    decreases turns
  {
    if turns == 0 then Running(hosts, start)
    else
      var r := ScanTurn(conf, hosts, start);
      if r.Running? then Scan(conf, r.hosts, r.start, turns - 1) else r
  }

  /** What `make` leaves behind: the three parts are assigned one after the other, an exception
      is printed and ends the call, and `done` says that the host scan came to an end. */
  datatype Made = Made(config: Config, done: bool)

  function Make(conf: string, c0: Config, turns: nat): Made {
    var subnets := ParseSubnets(conf);
    if subnets.Err? then Made(c0, true)
    else
      var c1 := c0.(subnets := subnets.value);
      var peer := ParsePeer(conf);
      if peer.Err? then Made(c1, true)
      else
        var c2 := c1.(peer := Some(peer.value));
        match Scan(conf, [], 0, turns)
        case Finished(hosts) => Made(c2.(hosts := hosts), true)
        case Failed(_) => Made(c2, true)
        case Running(_, _) => Made(c2, false)
  }
}
