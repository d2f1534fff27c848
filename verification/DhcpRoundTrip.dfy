/** Printing a configuration and reading it back. */
module DhcpRoundTrip {
  import opened Common
  import opened Text
  import opened Lines
  import opened DhcpText
  import opened DhcpKeywords
  import opened DhcpPeerTrip
  import opened DhcpDisabledPeer
  import opened DhcpBlocksTrip
  import opened DhcpHostsTrip
  import opened DhcpHostScan
  import opened DhcpSubnetTrip

  /** What a printed configuration must be like to be read back. */
  ghost predicate CleanConfig(c: Config) {
    && c.peer.Some? && CleanPeer(c.peer.value)
    && |c.subnets| == 1 && CleanSubnet(c.subnets[0])
    && CleanHosts(c.hosts)
  }

  // ---------------------------------------------------------------------
  // The pool
  // ---------------------------------------------------------------------

  lemma NoPoolKeyStep(p: Pool, line: string)
    requires NoPoolKey(line)
    ensures PoolLine(p, line) == Ok(p)
  {
  }

  lemma {:induction false} PoolSkip(ls: seq<string>, p: Pool)
    requires forall l | l in ls :: NoPoolKey(l)
    ensures PoolLines(ls, p) == Ok(p)
    decreases |ls|
  {
    hide NoPoolKey;
    if ls != [] {
      NoPoolKeyStep(p, ls[0]);
      PoolSkip(ls[1..], p);
    }
  }

  lemma PoolStep(line: string, rest: seq<string>, p: Pool, q: Pool)
    requires PoolLine(p, line) == Ok(q)
    ensures PoolLines([line] + rest, p) == PoolLines(rest, q)
  {
    assert ([line] + rest)[1..] == rest;
  }

  lemma Regroup(a: seq<string>, b: seq<string>, c: seq<string>, d: seq<string>)
    ensures a + (b + c) + d == a + (b + (c + d))
  {
  }

  lemma PoolInnerTrip(p: Pool, rest: seq<string>)
    requires CleanPool(p) && forall l | l in rest :: NoPoolKey(l)
    ensures PoolLines(["pool {"] + (PoolInner(p) + rest), NEW_POOL) == Ok(PoolRead(p))
  {
    hide Clean, PoolLine, NoPoolKey, FailoverLine, RangeLine, Token;
    PoolOpens();
    NoPoolKeyStep(NEW_POOL, "pool {");
    hide POOL;
    var tail := ["\t}"] + rest;
    var over, range := FailoverLines(p), RangeLines(p);
    PoolStep("pool {", PoolInner(p) + rest, NEW_POOL, NEW_POOL);
    Regroup(over, range, ["\t}"], rest);
    var p1 := NEW_POOL.(failoverPeer := p.failoverPeer);
    if p.failoverPeer.Some? {
      FailoverRead(NEW_POOL, p.failoverPeer.value, p.peerEnabled);
      PoolStep(FailoverLine(p.failoverPeer.value, p.peerEnabled), range + tail, NEW_POOL, p1);
    } else {
      assert over + (range + tail) == range + tail;
    }
    if p.rangeStart.Some? {
      RangeRead(p1, p.rangeStart.value, p.rangeEnd.value);
      PoolStep(RangeLine(p.rangeStart.value, p.rangeEnd.value), tail, p1, PoolRead(p));
    } else {
      assert range + tail == tail;
    }
    ShortBlockLine("\t}");
    PoolSkip(tail, PoolRead(p));
  }

  lemma AfterPoolForeign(cr: string, hs: seq<Host>)
    requires IsCr(cr) && CleanHosts(hs)
    ensures forall l | l in AfterPool(cr, hs) :: Foreign(l)
  {
    hide NoSubnetKey, NoPoolKey, CleanHosts;
    ShortBlockLine("}");
    ShortNoSubnetKey("}");
    HostsForeign(cr, hs);
  }

  lemma PoolInnerForeign(p: Pool)
    requires CleanPool(p)
    ensures forall l | l in PoolInner(p) :: NoSubnetKey(l) && OneLine(l) && !Contains(l, HOST)
  {
    hide NoSubnetKey, OneLine, Clean, Contains, FailoverLine, RangeLine, Token;
    if p.failoverPeer.Some? {
      FailoverRead(NEW_POOL, p.failoverPeer.value, p.peerEnabled);
    }
    if p.rangeStart.Some? {
      RangeRead(NEW_POOL, p.rangeStart.value, p.rangeEnd.value);
    }
    ShortBlockLine("\t}");
    ShortNoSubnetKey("\t}");
    OneLineShort("\t}");
  }

  lemma OneLineShort(l: string)
    requires l == "\t}" || l == "\tpool {" || l == "pool {" || l == "}" || l == ""
    ensures OneLine(l)
  {
  }

  lemma AfterFieldsForeign(cr: string, p: Pool, hs: seq<Host>)
    requires IsCr(cr) && CleanPool(p) && CleanHosts(hs)
    ensures forall l | l in AfterFields(cr, p, hs) :: NoSubnetKey(l) && OneLine(l)
  {
    hide NoSubnetKey, NoPoolKey, OneLine, CleanPool, CleanHosts, PoolInner, AfterPool;
    PoolOpens();
    OneLineShort("\tpool {");
    PoolInnerForeign(p);
    AfterPoolForeign(cr, hs);
  }

  /** Cutting the last character off a text cuts it off its last line. */
  lemma {:induction false} SplitSnoc(u: string, c: char)
    requires c != '\n'
    ensures var ls := Split(u, NL); Split(u + [c], NL) == ls[..|ls| - 1] + [ls[|ls| - 1] + [c]]
    decreases |u|
  {
    if OneLine(u) {
      SplitNoChar(u, '\n');
      SplitNoChar(u + [c], '\n');
    } else {
      var i := FirstIndex(u, '\n');
      var x, y := u[..i], u[i + 1..];
      assert u == x + NL + y;
      assert u + [c] == x + NL + (y + [c]);
      SplitFirstLine(x, y);
      SplitFirstLine(x, y + [c]);
      SplitSnoc(y, c);
      SnocPieces(x, Split(y, NL), c);
    }
  }

  lemma SnocPieces(x: string, ys: seq<string>, c: char)
    requires ys != []
    ensures var ls := [x] + ys; ls[..|ls| - 1] + [ls[|ls| - 1] + [c]] == [x] + (ys[..|ys| - 1] + [ys[|ys| - 1] + [c]])
  {
  }

  lemma NoPoolKeyPrefix(l: string)
    requires NoPoolKey(l + "}")
    ensures NoPoolKey(l)
  {
    AbsentPrefix(l, "}", FAILOVER_PEER);
    AbsentPrefix(l, "}", RANGE);
  }

  /** The pool, read from the text between the word `pool` and the last brace. */
  lemma PoolTrip(cr: string, p: Pool, hs: seq<Host>, u: string)
    requires IsCr(cr) && CleanPool(p) && CleanHosts(hs)
    requires u + "}" == PoolToEnd(cr, p, hs)
    ensures ParsePool(u) == Ok(PoolRead(p))
  {
    hide NoPoolKey, NoSubnetKey, CleanPool, CleanHosts, PoolToEnd, PoolInner, HostsLines, OneLine;
    var after := AfterPool(cr, hs);
    var below := PoolInner(p) + after;
    PoolToEndLines(cr, p, hs);
    PoolInnerForeign(p);
    AfterPoolForeign(cr, hs);
    SplitBelow("pool {", below);
    OneLineShort("pool {");
    assert Split("pool {", NL) == ["pool {"] by {
      PoolOpensOneLine();
    }
    SplitSnoc(u, '}');
    var ls := Split(u, NL);
    var last := ls[|ls| - 1];
    var n := |after| - 1;
    assert ls[..|ls| - 1] + [last + "}"] == ["pool {"] + below;
    LastOf(ls, "pool {", PoolInner(p), after);
    assert after[n] in after && Foreign(after[n]);
    NoPoolKeyPrefix(last);
    assert forall l | l in after[..n] :: l in after && Foreign(l);
    PoolInnerTrip(p, after[..n] + [last]);
  }

  lemma PoolOpensOneLine()
    ensures Split("pool {", NL) == ["pool {"]
  {
    SplitNoChar("pool {", '\n');
  }

  lemma LastOf(ls: seq<string>, first: string, inner: seq<string>, after: seq<string>)
    requires ls != [] && after != []
    requires ls[..|ls| - 1] + [ls[|ls| - 1] + "}"] == [first] + (inner + after)
    ensures ls == [first] + (inner + (after[..|after| - 1] + [ls[|ls| - 1]]))
    ensures ls[|ls| - 1] + "}" == after[|after| - 1]
  {
    var all := [first] + (inner + after);
    assert |all| == |ls|;
    assert all[|all| - 1] == after[|after| - 1];
    assert ls[..|ls| - 1] == all[..|all| - 1];
    assert all[..|all| - 1] == [first] + (inner + after[..|after| - 1]);
    assert ls == ls[..|ls| - 1] + [ls[|ls| - 1]];
  }

  /** The text of the file ends with a closing brace. */
  lemma {:induction false} HostsEnd(cr: string, hs: seq<Host>)
    requires IsCr(cr) && CleanHosts(hs) && hs != []
    ensures PrintHosts(cr, hs) != "" && PrintHosts(cr, hs)[|PrintHosts(cr, hs)| - 1] == '}'
    decreases |hs|
  {
    hide CleanHost, PrintHost;
    assert CleanHost(hs[0]);
    HostShape(cr, hs[0]);
    var text, rest := PrintHost(cr, hs[0]), PrintHosts(cr, hs[1..]);
    if |hs| > 1 {
      HostsEnd(cr, hs[1..]);
    } else {
      assert NL + text + "" == NL + text;
    }
  }

  lemma PoolToEndClosed(cr: string, p: Pool, hs: seq<Host>)
    requires IsCr(cr) && CleanPool(p) && CleanHosts(hs)
    ensures var t := PoolToEnd(cr, p, hs); |t| > 4 && t[|t| - 1] == '}' && t[..4] == POOL
  {
    hide CleanPool, CleanHosts, PrintPool, PrintHosts;
    var t := PoolToEnd(cr, p, hs);
    if hs == [] {
      NoHostsText(cr);
      assert t == PrintPool(p) + NL + "}";
    } else {
      HostsEnd(cr, hs);
    }
    PrintPoolOpens(p);
    assert t[..4] == PrintPool(p)[..4];
  }

  lemma NoHostsText(cr: string)
    ensures PrintHosts(cr, []) == ""
  {
  }

  lemma PrintPoolOpens(p: Pool)
    requires CleanPool(p)
    ensures |PrintPool(p)| > 4 && PrintPool(p)[..4] == POOL
  {
    hide CleanPool, PrintPool, PoolInner, Below;
    PrintPoolLines(p);
    BelowPrefix("pool {", "", PoolInner(p));
    assert "pool {" + "" == "pool {" && "pool {"[..4] == POOL;
  }

  // ---------------------------------------------------------------------
  // The subnet
  // ---------------------------------------------------------------------

  lemma LastBrace(t: string)
    requires t != "" && t[|t| - 1] == '}'
    ensures FindLast(t, "}", |t|) == |t| - 1
  {
    MatchOfChar(t, '}', |t| - 1);
  }

  /** The greedy pool expression matches from the word `pool` to the last brace of the file. */
  lemma PoolFound(cr: string, s: Subnet, hs: seq<Host>)
    requires IsCr(cr) && CleanSubnet(s) && CleanHosts(hs)
    ensures ParsePools(FindPools(SubnetToEnd(cr, s, hs))) == Ok([PoolRead(s.pools[0])])
  {
    hide Clean, CleanPool, CleanHosts, PoolToEnd, SubnetHead, SubnetToEnd, AbovePool, Contains, ParsePool, SubnetFields;
    var p := s.pools[0];
    var head, gap, text := SubnetHead(s), NL + "\t", PoolToEnd(cr, p, hs);
    var t := SubnetToEnd(cr, s, hs);
    SubnetToEndText(cr, s, hs);
    PoolToEndClosed(cr, p, hs);
    HeadHasNoPool(s);
    PoolGap(gap);
    assert t == head + gap + POOL + text[4..];
    FindBelow(head, gap, POOL, text[4..]);
    LastBrace(t);
    var u := text[..|text| - 1];
    assert t[|head| + |gap|..|t| - 1] == u;
    assert u + "}" == text;
    PoolTrip(cr, p, hs, u);
    OnePool(u, PoolRead(p));
  }

  lemma PoolGap(gap: string)
    requires gap == NL + "\t"
    ensures gap == "\n\t" && forall c | c in gap :: c !in POOL
    ensures '\n' !in POOL
  {
  }

  lemma OnePool(u: string, p: Pool)
    requires ParsePool(u) == Ok(p)
    ensures ParsePools([u]) == Ok([p])
  {
    hide ParsePool;
    assert [u][1..] == [] && [p] + [] == [p];
  }

  lemma HeadHasNoPool(s: Subnet)
    requires CleanSubnet(s)
    ensures !Contains(SubnetHead(s), POOL) && !Contains(SubnetHead(s), HOST)
  {
    hide Clean, CleanPool, Contains, FirstOf, SubnetFields, POOL, HOST, SubnetHead;
    SubnetFieldsAbovePool(s);
    HeadLines(s, []);
    PoolAndHostWords();
    AbsentBelow(FirstOf(s), SubnetFields(s, []), POOL);
    AbsentBelow(FirstOf(s), SubnetFields(s, []), HOST);
  }

  lemma PoolAndHostWords()
    ensures POOL != "" && '\n' !in POOL && HOST != "" && '\n' !in HOST
    ensures SUBNET != "" && '\n' !in SUBNET
  {
  }

  lemma SubnetFieldsRest(s: Subnet, rest: seq<string>)
    ensures SubnetFields(s, rest) == SubnetFields(s, []) + rest
  {
    hide OptLine, AuthLine;
    var l7 := AuthLine(s) + [];
    var l6 := OptLine("\t", INTERFACE, s.interface) + l7;
    var l5 := OptLine("\t", DNS, s.dnsServers) + l6;
    var l4 := OptLine("\t", ROUTERS, s.routers) + l5;
    var l3 := OptLine("\t", BROADCAST, s.broadcast) + l4;
    var l2 := OptLine("\t", SUBNET_MASK, s.subnetMask) + l3;
    AssocPieces(AuthLine(s), [], rest);
    assert [] + rest == rest;
    AssocPieces(OptLine("\t", INTERFACE, s.interface), l7, rest);
    AssocPieces(OptLine("\t", DNS, s.dnsServers), l6, rest);
    AssocPieces(OptLine("\t", ROUTERS, s.routers), l5, rest);
    AssocPieces(OptLine("\t", BROADCAST, s.broadcast), l4, rest);
    AssocPieces(OptLine("\t", SUBNET_MASK, s.subnetMask), l3, rest);
    AssocPieces(OptLine("\t", NTP, s.ntpServers), l2, rest);
  }

  /** The lines of the subnet to the end of the file. */
  lemma SubnetToEndSplit(cr: string, s: Subnet, hs: seq<Host>)
    requires IsCr(cr) && CleanSubnet(s) && CleanHosts(hs)
    ensures Split(SubnetToEnd(cr, s, hs), NL) == [FirstOf(s)] + SubnetFields(s, AfterFields(cr, s.pools[0], hs))
    ensures AllOneLine([FirstOf(s)] + SubnetFields(s, AfterFields(cr, s.pools[0], hs)))
  {
    hide Clean, CleanPool, CleanHosts, Contains, FirstOf, SubnetFields, AfterFields, SubnetToEnd, NoSubnetKey, OneLine;
    var p := s.pools[0];
    var rest := AfterFields(cr, p, hs);
    SubnetFieldsAbovePool(s);
    SubnetFieldsRest(s, rest);
    AfterFieldsForeign(cr, p, hs);
    assert AllOneLine(SubnetFields(s, rest));
    SubnetToEndLines(cr, s, hs);
    SplitBelow(FirstOf(s), SubnetFields(s, rest));
    SplitOneLine(FirstOf(s));
  }

  lemma SplitOneLine(l: string)
    requires OneLine(l)
    ensures Split(l, NL) == [l]
  {
    SplitNoChar(l, '\n');
  }

  /** The subnet as it is read back. */
  function SubnetRead(s: Subnet): Subnet
    requires s.pools != []
  {
    s.(pools := [PoolRead(s.pools[0])])
  }

  /** The subnet, read from the text that starts at its first line. */
  lemma SubnetTrip(cr: string, s: Subnet, hs: seq<Host>)
    requires IsCr(cr) && CleanSubnet(s) && CleanHosts(hs)
    ensures ParseSubnet(SubnetToEnd(cr, s, hs)) == Ok(SubnetRead(s))
  {
    hide Clean, CleanPool, CleanHosts, Contains, SubnetFields, AfterFields, SubnetToEnd, NoSubnetKey, OneLine,
         SubnetField, FindPools, ParsePools, SubnetFirst, Token;
    var rest := AfterFields(cr, s.pools[0], hs);
    SubnetToEndSplit(cr, s, hs);
    var t := NEW_SUBNET.(subnet := s.subnet);
    HeadLine(NEW_SUBNET, s.subnet.value, Show(s.subnetMask));
    SubnetStep(FirstOf(s), SubnetFields(s, rest), NEW_SUBNET, t);
    SubnetFieldsTrip(s, rest, t);
    AfterFieldsForeign(cr, s.pools[0], hs);
    SubnetSkip(rest, s.(pools := []));
    PoolFound(cr, s, hs);
  }

  // ---------------------------------------------------------------------
  // The whole file
  // ---------------------------------------------------------------------

  /** The lease times: letters that keep every block keyword out. */
  lemma HeaderLetters(cr: string, c: Config)
    requires IsCr(cr)
    ensures 'v' !in PrintHeader(cr, c) && 'b' !in PrintHeader(cr, c) && 'h' !in PrintHeader(cr, c)
  {
    hide PrintHeader;
    HeaderLetter(cr, c, 'v');
    HeaderLetter(cr, c, 'b');
    HeaderLetter(cr, c, 'h');
  }

  lemma HeaderLetter(cr: string, c: Config, ch: char)
    requires IsCr(cr) && ch in "vbh"
    ensures ch !in PrintHeader(cr, c)
  {
    hide Dec;
    if c.defaultLeaseTime.Some? {
      Digits(c.defaultLeaseTime.value);
    }
    if c.maxLeaseTime.Some? {
      Digits(c.maxLeaseTime.value);
    }
    assert ch == 'v' || ch == 'b' || ch == 'h';
    assert ch !in "default-lease-time " && ch !in "max-lease-time " && ch !in ";" && ch !in NL && ch !in cr;
  }

  lemma {:induction false} Digits(n: nat)
    ensures forall d | d in Dec(n) :: '0' <= d <= '9'
  {
    if n >= 10 {
      Digits(n / 10);
    }
  }

  lemma {:induction false} SplitKeepsLetters(s: string, c: char)
    requires c !in s
    ensures forall l | l in Split(s, NL) :: c !in l
    decreases |s|
  {
    if OneLine(s) {
      SplitNoChar(s, '\n');
    } else {
      var i := FirstIndex(s, '\n');
      assert s == s[..i] + NL + s[i + 1..];
      SplitFirstLine(s[..i], s[i + 1..]);
      SplitKeepsLetters(s[i + 1..], c);
    }
  }

  /** Lines that do not open a peer block are passed over. */
  lemma {:induction false} PeerSkip(ls: seq<string>, rest: seq<string>, p: Peer)
    requires forall l | l in ls :: !StartsWith(l, FAILOVER_PEER)
    ensures PeerLines(ls + rest, p, false) == PeerLines(rest, p, false)
    decreases |ls|
  {
    hide StartsWith;
    if ls == [] {
      assert ls + rest == rest;
    } else {
      assert (ls + rest)[1..] == ls[1..] + rest;
      PeerSkip(ls[1..], rest, p);
    }
  }

  lemma NoPeerStart(l: string)
    requires 'v' !in l || (l != "" && l[0] != 'f')
    ensures !StartsWith(l, FAILOVER_PEER)
  {
    if MatchAt(l, FAILOVER_PEER, 0) {
      MatchChar(l, FAILOVER_PEER, 0, 0);
      MatchChar(l, FAILOVER_PEER, 0, 5);
    }
  }

  /** The text of a configuration whose peer is written as `text`. */
  function ConfigWith(cr: string, c: Config, text: string): string {
    PrintHeader(cr, c) + NL + "" + NL + text + PrintSubnets(c.subnets) + PrintHosts(cr, c.hosts)
  }

  /** The text above the subnet. */
  function Above(cr: string, c: Config, text: string): string {
    PrintHeader(cr, c) + NL + "" + NL + text + NL + ""
  }

  lemma ConfigText(cr: string, c: Config, text: string)
    requires CleanConfig(c)
    ensures ConfigWith(cr, c, text) == Above(cr, c, text) + NL + SubnetToEnd(cr, c.subnets[0], c.hosts)
  {
    hide CleanPeer, CleanSubnet, CleanHosts, PrintHeader, PrintSubnet, PrintHosts;
    var s := c.subnets[0];
    assert c.subnets[1..] == [];
    assert PrintSubnets(c.subnets) == NL + "" + NL + PrintSubnet(s) + "";
    AssocConfig(PrintHeader(cr, c) + NL + "" + NL + text, PrintSubnet(s), PrintHosts(cr, c.hosts));
  }

  lemma AssocConfig(a: string, b: string, d: string)
    ensures a + (NL + "" + NL + b + "") + d == a + NL + "" + NL + (b + d)
  {
    assert NL + "" + NL + b + "" == NL + "" + NL + b;
    assert a + (NL + "" + NL + b) == a + NL + "" + NL + b;
  }

  /** The peer block as lines, with the subnet and the hosts below it. */
  lemma PeerToEndSplit(cr: string, c: Config)
    requires IsCr(cr) && CleanConfig(c)
    ensures var p := c.peer.value;
            var t := SubnetToEnd(cr, c.subnets[0], c.hosts);
            Split(PeerText(cr, p) + NL + "" + NL + t, NL) == [PeerFirst(p.name.value)] + PeerBody(cr, p, [""] + Split(t, NL))
  {
    hide Clean, CleanSubnet, CleanHosts, Contains, PeerFirst, PeerFields, SubnetToEnd, PeerText;
    var p := c.peer.value;
    var t := SubnetToEnd(cr, c.subnets[0], c.hosts);
    var first := PeerFirst(p.name.value);
    PeerLinesPassed(cr, p);
    PeerTextLines(cr, p, []);
    OneLinePassed(PeerBody(cr, p, []));
    SplitBelow(first, PeerBody(cr, p, []));
    assert OneLine(first);
    SplitOneLine(first);
    SplitTwoTexts(PeerText(cr, p) + NL + "", t);
    SplitTwoTexts(PeerText(cr, p), "");
    SplitOneLine("");
    PeerBodyRest(cr, p, [""] + Split(t, NL));
    AssocPeer(first, PeerBody(cr, p, []), Split(t, NL));
  }

  lemma AssocPeer(first: string, body: seq<string>, t: seq<string>)
    ensures [first] + body + [""] + t == [first] + (body + ([""] + t))
  {
  }

  lemma OneLinePassed(ls: seq<string>)
    requires forall l | l in ls :: Passed(l)
    ensures AllOneLine(ls)
  {
  }

  lemma PeerBodyRest(cr: string, p: Peer, rest: seq<string>)
    ensures PeerBody(cr, p, rest) == PeerBody(cr, p, []) + rest
  {
    hide OptLine, CrLine;
    var l10 := CrLine(cr, "", "}") + [];
    var l9 := OptLine("\t", LOAD_BALANCE, p.loadBalance) + l10;
    var l8 := OptLine("\t", SPLIT, p.split) + l9;
    var l7 := OptLine("\t", MCLT, p.mclt) + l8;
    var l6 := OptLine("\t", MAX_UNACKED_UPDATES, p.maxUnackedUpdates) + l7;
    var l5 := OptLine("\t", MAX_RESPONSE_DELAY, p.maxResponseDelay) + l6;
    var l4 := OptLine("\t", PEER_PORT, p.peerPort) + l5;
    var l3 := OptLine("\t", PEER_ADDRESS, p.peerAddress) + l4;
    var l2 := OptLine("\t", PORT, p.port) + l3;
    var l1 := OptLine("\t", ADDRESS, p.address) + l2;
    AssocPieces(CrLine(cr, "", "}"), [], rest);
    assert [] + rest == rest;
    AssocPieces(OptLine("\t", LOAD_BALANCE, p.loadBalance), l10, rest);
    AssocPieces(OptLine("\t", SPLIT, p.split), l9, rest);
    AssocPieces(OptLine("\t", MCLT, p.mclt), l8, rest);
    AssocPieces(OptLine("\t", MAX_UNACKED_UPDATES, p.maxUnackedUpdates), l7, rest);
    AssocPieces(OptLine("\t", MAX_RESPONSE_DELAY, p.maxResponseDelay), l6, rest);
    AssocPieces(OptLine("\t", PEER_PORT, p.peerPort), l5, rest);
    AssocPieces(OptLine("\t", PEER_ADDRESS, p.peerAddress), l4, rest);
    AssocPieces(OptLine("\t", PORT, p.port), l3, rest);
    AssocPieces(OptLine("\t", ADDRESS, p.address), l2, rest);
    AssocPieces([if p.primary then "\tprimary;" else "secondary;"], l1, rest);
  }

  /** The lease times and the blank line below them do not open a peer block. */
  lemma HeaderSkip(cr: string, c: Config, rest: seq<string>)
    requires IsCr(cr)
    ensures PeerLines(Split(PrintHeader(cr, c), NL) + [""] + rest, NEW_PEER, false) == PeerLines(rest, NEW_PEER, false)
  {
    hide PrintHeader, StartsWith;
    var head := Split(PrintHeader(cr, c), NL);
    HeaderLetters(cr, c);
    SplitKeepsLetters(PrintHeader(cr, c), 'v');
    forall l | l in head + [""]
      ensures !StartsWith(l, FAILOVER_PEER)
    {
      NoPeerStart(l);
    }
    PeerSkip(head + [""], rest, NEW_PEER);
  }

  lemma ConfigSplit(cr: string, c: Config, text: string)
    requires CleanConfig(c)
    ensures var t := SubnetToEnd(cr, c.subnets[0], c.hosts);
            Split(ConfigWith(cr, c, text), NL) == Split(PrintHeader(cr, c), NL) + [""] + Split(text + NL + "" + NL + t, NL)
  {
    hide CleanConfig, SubnetToEnd, PrintHeader, ConfigWith;
    assert c.subnets != [] by {
      HasSubnet(c);
    }
    var t := SubnetToEnd(cr, c.subnets[0], c.hosts);
    var head, block := PrintHeader(cr, c), text + NL + "" + NL + t;
    ConfigText(cr, c, text);
    AssocAbove(head, text, t);
    SplitTwoTexts(head, "" + NL + block);
    SplitTwoTexts("", block);
    SplitOneLine("");
    AssocPieces(Split(head, NL), [""], Split(block, NL));
  }

  lemma HasSubnet(c: Config)
    requires CleanConfig(c)
    ensures |c.subnets| == 1
  {
  }

  /** An enabled peer, found in the whole file. */
  lemma PeerFound(cr: string, c: Config)
    requires IsCr(cr) && CleanConfig(c)
    ensures ParsePeer(ConfigWith(cr, c, PeerText(cr, c.peer.value))) == Ok(c.peer.value.(enabled := true))
  {
    hide Clean, CleanSubnet, CleanHosts, Contains, PeerFirst, PeerBody, SubnetToEnd, PrintHeader, PeerText, ConfigWith;
    var p := c.peer.value;
    var t := SubnetToEnd(cr, c.subnets[0], c.hosts);
    ConfigSplit(cr, c, PeerText(cr, p));
    PeerToEndSplit(cr, c);
    var lines := [PeerFirst(p.name.value)] + PeerBody(cr, p, [""] + Split(t, NL));
    HeaderSkip(cr, c, lines);
    PeerTrip(cr, p, [""] + Split(t, NL));
  }

  /** A line that starts with another letter than the one that opens a peer block. */
  predicate NoOpening(l: string) {
    l != "" && l[0] != 'f'
  }

  lemma CrLineNoOpening(cr: string, l: string)
    requires IsCr(cr) && NoOpening(l)
    ensures forall m | m in CrLine(cr, "    ", l) :: NoOpening(m)
  {
  }

  lemma {:induction false} HostsNoOpening(cr: string, hs: seq<Host>)
    requires IsCr(cr)
    ensures forall l | l in HostsLines(cr, hs) :: NoOpening(l)
    decreases |hs|
  {
    hide CrLine, HardwareText, FixedText;
    if hs != [] {
      var h := hs[0];
      HostTextsNoOpening(h);
      CrLineNoOpening(cr, HardwareText(h));
      CrLineNoOpening(cr, FixedText(h));
      CrLineNoOpening(cr, "}");
      assert NoOpening(HostFirst(Show(h.host)));
      HostsNoOpening(cr, hs[1..]);
    }
  }

  lemma HostTextsNoOpening(h: Host)
    ensures NoOpening(HardwareText(h)) && NoOpening(FixedText(h))
  {
  }

  lemma PoolNoOpening(p: Pool)
    ensures forall l | l in PoolInner(p) :: NoOpening(l)
  {
  }

  lemma OptNoOpening(key: string, v: Option<string>)
    ensures forall l | l in OptLine("\t", key, v) :: NoOpening(l)
  {
  }

  lemma SubnetNoOpening(cr: string, s: Subnet, hs: seq<Host>)
    requires IsCr(cr) && s.pools != []
    ensures forall l | l in [FirstOf(s)] + SubnetFields(s, AfterFields(cr, s.pools[0], hs)) :: NoOpening(l)
  {
    hide OptLine, PoolInner, HostsLines;
    OptNoOpening(NTP, s.ntpServers);
    OptNoOpening(SUBNET_MASK, s.subnetMask);
    OptNoOpening(BROADCAST, s.broadcast);
    OptNoOpening(ROUTERS, s.routers);
    OptNoOpening(DNS, s.dnsServers);
    OptNoOpening(INTERFACE, s.interface);
    PoolNoOpening(s.pools[0]);
    HostsNoOpening(cr, hs);
  }

  /** With the peer commented out no line of the file opens a peer block: the peer is a new one. */
  lemma PeerLost(cr: string, c: Config, text: string)
    requires IsCr(cr) && CleanConfig(c) && Silent(text)
    ensures ParsePeer(ConfigWith(cr, c, text)) == Ok(NEW_PEER)
  {
    hide Clean, CleanPeer, CleanSubnet, CleanHosts, Contains, SubnetToEnd, PrintHeader, ConfigWith, StartsWith,
         FirstOf, SubnetFields, AfterFields;
    var s := c.subnets[0];
    var t := SubnetToEnd(cr, s, c.hosts);
    ConfigSplit(cr, c, text);
    SplitTwoTexts(text + NL + "", t);
    SplitTwoTexts(text, "");
    SplitOneLine("");
    var lines := Split(text, NL) + [""] + Split(t, NL);
    HeaderSkip(cr, c, lines);
    assert s.pools != [] by {
      HasPool(s);
    }
    SubnetToEndSplit(cr, s, c.hosts);
    SubnetNoOpening(cr, s, c.hosts);
    forall l | l in lines
      ensures !StartsWith(l, FAILOVER_PEER)
    {
      NoPeerStart(l);
    }
    PeerSkip(lines, [], NEW_PEER);
    assert lines + [] == lines;
  }

  lemma HasPool(s: Subnet)
    requires CleanSubnet(s)
    ensures |s.pools| == 1
  {
  }

  lemma AssocAbove(a: string, b: string, d: string)
    ensures a + NL + "" + NL + b + NL + "" + NL + d == a + NL + ("" + NL + (b + NL + "" + NL + d))
  {
    var x := b + NL + "" + NL + d;
    assert a + NL + "" + NL + b + NL + "" + NL + d == a + NL + "" + NL + x;
  }

  /** The text above the subnet does not mention it, nor any host. */
  lemma AboveFree(cr: string, c: Config, text: string)
    requires IsCr(cr) && !Contains(text, SUBNET) && !Contains(text, HOST)
    ensures !Contains(Above(cr, c, text), SUBNET) && !Contains(Above(cr, c, text), HOST)
  {
    hide Contains, PrintHeader;
    HeaderFree(cr, c);
    EmptyFree();
    PoolAndHostWords();
    BreaksFree(PrintHeader(cr, c), text, SUBNET);
    BreaksFree(PrintHeader(cr, c), text, HOST);
  }

  lemma BreaksFree(a: string, b: string, k: string)
    requires k != "" && '\n' !in k && !Contains(a, k) && !Contains(b, k) && !Contains("", k)
    ensures !Contains(a + NL + "" + NL + b + NL + "", k)
  {
    hide Contains;
    AbsentInBreak(a, "", k);
    AbsentInBreak(a + NL + "", b, k);
    AbsentInBreak(a + NL + "" + NL + b, "", k);
  }

  lemma EmptyFree()
    ensures !Contains("", SUBNET) && !Contains("", HOST)
  {
    TooShort("", SUBNET);
    TooShort("", HOST);
  }

  lemma HeaderFree(cr: string, c: Config)
    requires IsCr(cr)
    ensures !Contains(PrintHeader(cr, c), SUBNET) && !Contains(PrintHeader(cr, c), HOST)
  {
    hide PrintHeader, Contains;
    HeaderLetters(cr, c);
    AbsentChar(PrintHeader(cr, c), SUBNET, 'b');
    AbsentChar(PrintHeader(cr, c), HOST, 'h');
  }

  /** The greedy subnet expression matches from the first `subnet` to the end of the text. */
  lemma OneSubnetText(above: string, t: string)
    requires !Contains(above, SUBNET) && |t| > 6 && t == SUBNET + t[6..]
    ensures FindSubnets(above + NL + t) == [t]
  {
    hide Contains;
    PoolAndHostWords();
    FindBelow(above, NL, SUBNET, t[6..]);
    AssocSubnet(above + NL, t);
    assert (above + NL + t)[|above| + 1..] == t;
  }

  lemma AssocSubnet(a: string, t: string)
    requires |t| > 6 && t == SUBNET + t[6..]
    ensures a + SUBNET + t[6..] == a + t
  {
    hide SUBNET;
    Assoc(a, SUBNET, t[6..]);
  }

  /** The subnet, found in the whole file. */
  lemma SubnetFound(cr: string, c: Config, text: string)
    requires IsCr(cr) && CleanConfig(c) && !Contains(text, SUBNET) && !Contains(text, HOST)
    ensures ParseSubnets(ConfigWith(cr, c, text)) == Ok([SubnetRead(c.subnets[0])])
  {
    hide Clean, CleanPeer, CleanHosts, Contains, ConfigWith, Above, ParseSubnet, CleanSubnet, SubnetRead, SubnetToEnd,
         FindSubnets, SUBNET, HOST;
    var s := c.subnets[0];
    var t := SubnetToEnd(cr, s, c.hosts);
    ConfigText(cr, c, text);
    AboveFree(cr, c, text);
    SubnetTextOpens(cr, s, c.hosts);
    OneSubnetText(Above(cr, c, text), t);
    assert s.pools != [] by {
      HasPool(s);
    }
    SubnetTrip(cr, s, c.hosts);
    OneSubnet(t, SubnetRead(s));
  }

  lemma OneSubnet(t: string, s: Subnet)
    requires ParseSubnet(t) == Ok(s)
    ensures ParseSubnetTexts([t]) == Ok([s])
  {
    hide ParseSubnet;
    assert [t][1..] == [] && [s] + [] == [s];
  }

  lemma SubnetTextOpens(cr: string, s: Subnet, hs: seq<Host>)
    ensures |SubnetToEnd(cr, s, hs)| > 6 && SubnetToEnd(cr, s, hs) == SUBNET + SubnetToEnd(cr, s, hs)[6..]
  {
    hide PrintPools, PrintHosts, KeyLine;
    var first := "subnet " + (Show(s.subnet) + " netmask " + Show(s.subnetMask)) + " {";
    assert first[..6] == SUBNET;
    assert SubnetHead(s)[..6] == first[..6];
    assert SubnetToEnd(cr, s, hs)[..6] == SubnetHead(s)[..6];
  }

  /** The hosts, found in the whole file; each name has gained one blank. */
  lemma HostsFound(cr: string, c: Config, text: string, turns: nat)
    requires IsCr(cr) && CleanConfig(c) && turns > |c.hosts| && !Contains(text, SUBNET) && !Contains(text, HOST)
    ensures Scan(ConfigWith(cr, c, text), [], 0, turns) == Finished(AllGained(c.hosts))
  {
    hide Clean, CleanPeer, CleanHosts, Contains, SubnetHead, ConfigWith, Above, CleanSubnet, PrintHosts, PrintSubnet;
    var s := c.subnets[0];
    ConfigText(cr, c, text);
    var before := Above(cr, c, text) + NL + PrintSubnet(s);
    assert Above(cr, c, text) + NL + (PrintSubnet(s) + PrintHosts(cr, c.hosts)) == before + PrintHosts(cr, c.hosts);
    AboveFree(cr, c, text);
    PoolAndHostWords();
    SubnetFree(cr, s);
    AbsentInBreak(Above(cr, c, text), PrintSubnet(s), HOST);
    ScanFromStart(ConfigWith(cr, c, text), before, cr, c.hosts, turns);
  }

  lemma SubnetFree(cr: string, s: Subnet)
    requires IsCr(cr) && CleanSubnet(s)
    ensures !Contains(PrintSubnet(s), HOST)
  {
    hide Clean, CleanPool, Contains, FirstOf, SubnetFields, PoolInner, PrintSubnet, HOST;
    var p := s.pools[0];
    PoolAndHostWords();
    NoHostsText(cr);
    NoHostsLines(cr);
    SubnetFieldsAbovePool(s);
    SubnetFieldsRest(s, AfterFields(cr, p, []));
    PoolInnerForeign(p);
    PoolOpens();
    ShortBlockLine("}");
    assert AfterPool(cr, []) == ["}"];
    SubnetToEndLines(cr, s, []);
    assert PrintSubnet(s) + "" == PrintSubnet(s);
    AbsentBelow(FirstOf(s), SubnetFields(s, AfterFields(cr, p, [])), HOST);
  }

  lemma NoHostsLines(cr: string)
    ensures HostsLines(cr, []) == []
  {
  }

  /** How the peer of a configuration stands in its file. */
  ghost predicate PeerWritten(cr: string, p: Peer, text: string) {
    if p.enabled then text == PeerText(cr, p) else Silent(text)
  }

  /** What the reader makes of a configuration: a disabled peer is lost, every pool is switched on,
      and every host name gains one trailing blank. The lease times are never read: they stay those of `c0`. */
  ghost function Restored(c: Config, c0: Config): Config
    requires CleanConfig(c)
  {
    c0.(subnets := [SubnetRead(c.subnets[0])],
        peer := Some(if c.peer.value.enabled then c.peer.value else NEW_PEER),
        hosts := AllGained(c.hosts))
  }

  lemma WrittenRead(cr: string, c: Config, text: string, c0: Config, turns: nat)
    requires IsCr(cr) && CleanConfig(c) && turns > |c.hosts| && PeerWritten(cr, c.peer.value, text)
    ensures Make(ConfigWith(cr, c, text), c0, turns) == Made(Restored(c, c0), true)
  {
    hide Clean, CleanPeer, CleanSubnet, CleanHosts, ConfigWith, ParsePeer, ParseSubnets, Scan, PeerText, Contains;
    var p := c.peer.value;
    if p.enabled {
      PeerTextFree(cr, p);
      PeerFound(cr, c);
      assert p.(enabled := true) == p;
    } else {
      PeerLost(cr, c, text);
    }
    SubnetFound(cr, c, text);
    HostsFound(cr, c, text, turns);
  }

  /** Printing a configuration and making one from the text restores the peer, the subnet with
      its pool, and the hosts in order, except that a disabled peer is lost and a pool that was switched
      off is on; every host name has gained exactly one trailing blank. The lease times are printed but
      never read: they stay those of the configuration `c0` read into. */
  lemma RoundTrip(cr: string, c: Config, c0: Config, turns: nat)
    requires IsCr(cr) && CleanConfig(c) && turns > |c.hosts|
    ensures Make(PrintConfig(cr, c), c0, turns) == Made(Restored(c, c0), true)
  {
    hide Clean, CleanPeer, CleanSubnet, CleanHosts, PeerText, Silent, Restored, Make;
    var p := c.peer.value;
    if !p.enabled {
      DisabledSilent(cr, p);
    }
    WrittenRead(cr, c, PrintPeer(cr, p), c0, turns);
  }
}
