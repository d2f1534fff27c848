/** Reading back the printed subnet with its pool. */
module DhcpSubnetTrip {
  import opened Common
  import opened Text
  import opened Lines
  import opened DhcpText
  import opened DhcpKeywords
  import opened DhcpPeerTrip
  import opened DhcpBlocksTrip
  import opened DhcpHostsTrip
  import opened DhcpHostScan

  ghost predicate CleanPool(p: Pool) {
    && CleanOpt(p.failoverPeer)
    && (p.rangeStart.Some? <==> p.rangeEnd.Some?)
    && (p.rangeStart.Some? ==>
          && Clean(p.rangeStart.value + " " + p.rangeEnd.value)
          && p.rangeStart.value != "" && Token(p.rangeStart.value) && Token(p.rangeEnd.value))
  }

  ghost predicate CleanSubnet(s: Subnet) {
    && s.subnet.Some? && Clean(s.subnet.value) && s.subnet.value != "" && Token(s.subnet.value)
    && CleanOpt(s.ntpServers) && CleanOpt(s.subnetMask) && CleanOpt(s.broadcast)
    && CleanOpt(s.routers) && CleanOpt(s.dnsServers) && CleanOpt(s.interface)
    && |s.pools| == 1 && CleanPool(s.pools[0])
  }

  function AuthLine(s: Subnet): seq<string> {
    if s.authoritative then ["\tauthoritative;"] else []
  }

  /** The subnet's own lines after its first, and the lines that follow them. */
  function SubnetFields(s: Subnet, rest: seq<string>): seq<string> {
    OptLine("\t", NTP, s.ntpServers)
    + (OptLine("\t", SUBNET_MASK, s.subnetMask)
    + (OptLine("\t", BROADCAST, s.broadcast)
    + (OptLine("\t", ROUTERS, s.routers)
    + (OptLine("\t", DNS, s.dnsServers)
    + (OptLine("\t", INTERFACE, s.interface)
    + (AuthLine(s)
    + rest))))))
  }

  function FailoverLines(p: Pool): seq<string> {
    if p.failoverPeer.Some? then [FailoverLine(p.failoverPeer.value, p.peerEnabled)] else []
  }

  function RangeLines(p: Pool): seq<string> {
    if p.rangeStart.Some? && p.rangeEnd.Some? then [RangeLine(p.rangeStart.value, p.rangeEnd.value)] else []
  }

  /** The pool as it is read back: whether it is switched off cannot be read. */
  function PoolRead(p: Pool): Pool {
    p.(peerEnabled := true)
  }

  function PoolInner(p: Pool): seq<string> {
    FailoverLines(p)
    + (RangeLines(p)
    + ["\t}"])
  }

  function AfterPool(cr: string, hs: seq<Host>): seq<string> {
    ["}"] + HostsLines(cr, hs)
  }

  function AfterFields(cr: string, p: Pool, hs: seq<Host>): seq<string> {
    ["\tpool {"] + (PoolInner(p) + AfterPool(cr, hs))
  }

  function FirstOf(s: Subnet): string {
    SubnetFirst(Show(s.subnet), Show(s.subnetMask))
  }

  /** The text from the subnet to the end of the file. */
  function SubnetToEnd(cr: string, s: Subnet, hs: seq<Host>): string {
    PrintSubnet(s) + PrintHosts(cr, hs)
  }

  // ---------------------------------------------------------------------
  // Text and lines
  // ---------------------------------------------------------------------

  lemma HeadLines(s: Subnet, rest: seq<string>)
    ensures Below(FirstOf(s), SubnetFields(s, rest)) == Below(SubnetHead(s), rest)
  {
    var s0 := FirstOf(s);
    var s1 := s0 + KeyLine("\t", NTP, s.ntpServers);
    var s2 := s1 + KeyLine("\t", SUBNET_MASK, s.subnetMask);
    var s3 := s2 + KeyLine("\t", BROADCAST, s.broadcast);
    var s4 := s3 + KeyLine("\t", ROUTERS, s.routers);
    var s5 := s4 + KeyLine("\t", DNS, s.dnsServers);
    var s6 := s5 + KeyLine("\t", INTERFACE, s.interface);
    var l7 := AuthLine(s) + rest;
    var l6 := OptLine("\t", INTERFACE, s.interface) + l7;
    var l5 := OptLine("\t", DNS, s.dnsServers) + l6;
    var l4 := OptLine("\t", ROUTERS, s.routers) + l5;
    var l3 := OptLine("\t", BROADCAST, s.broadcast) + l4;
    var l2 := OptLine("\t", SUBNET_MASK, s.subnetMask) + l3;
    BelowOpt(s0, "\t", NTP, s.ntpServers, l2);
    BelowOpt(s1, "\t", SUBNET_MASK, s.subnetMask, l3);
    BelowOpt(s2, "\t", BROADCAST, s.broadcast, l4);
    BelowOpt(s3, "\t", ROUTERS, s.routers, l5);
    BelowOpt(s4, "\t", DNS, s.dnsServers, l6);
    BelowOpt(s5, "\t", INTERFACE, s.interface, l7);
    BelowAuth(s6, s, rest);
  }

  lemma BelowAuth(x: string, s: Subnet, rest: seq<string>)
    ensures Below(x, AuthLine(s) + rest) == Below(x + (if s.authoritative then NL + "\tauthoritative;" else ""), rest)
  {
    BelowAppend(x, AuthLine(s), rest);
    if s.authoritative {
      assert AuthLine(s)[1..] == [];
      assert x + (NL + "\tauthoritative;") == x + NL + "\tauthoritative;";
    } else {
      assert x + "" == x;
    }
  }

  lemma PoolTextLines(p: Pool)
    requires p.peerEnabled
    ensures PoolText(p) == Below("pool {", PoolInner(p))
  {
    var s0 := "pool {";
    var a, b := FailoverLines(p), RangeLines(p);
    var ta := if p.failoverPeer.Some? then NL + ("\t\tfailover peer \"" + p.failoverPeer.value + "\";") else "";
    var tb := if p.rangeStart.Some? && p.rangeEnd.Some?
              then NL + ("\t\trange " + (p.rangeStart.value + " " + p.rangeEnd.value) + ";") else "";
    FailoverLineText(p);
    RangeLineText(p);
    BelowMaybe(s0, a, ta, b + ["\t}"]);
    BelowMaybe(s0 + ta, b, tb, ["\t}"]);
    assert ["\t}"][1..] == [];
    assert Below(s0 + ta + tb, ["\t}"]) == s0 + ta + tb + NL + "\t}";
  }

  /** Replacing the only occurrence of a keyword. */
  lemma ReplaceOne(a: string, key: string, b: string, other: string)
    requires key != "" && key[0] !in a && !Contains(b, key)
    ensures Join(Split(a + key + b, key), other) == a + other + b
  {
    SplitAtLetter(a, key, b);
    SplitWhole(b, key);
    assert [a, b][1..] == [b];
  }

  /** The rest of the failover line does not repeat its keyword. */
  lemma FailoverValueFree(v: string)
    requires Clean(v)
    ensures !Contains(" " + Quoted(v) + ";", FAILOVER_PEER)
  {
    hide Contains, Quoted;
    QuotedValuesFree2(v);
    AbsentChar(";", FAILOVER_PEER, 'f');
    AbsentRight(Quoted(v), ";", FAILOVER_PEER);
    AbsentAfterSpace(Quoted(v) + ";", FAILOVER_PEER);
    assert " " + (Quoted(v) + ";") == " " + Quoted(v) + ";";
  }

  lemma AfterFailoverFree(p: Pool)
    requires CleanPool(p)
    ensures forall l | l in RangeLines(p) + ["\t}"] :: !Contains(l, FAILOVER_PEER)
  {
    hide Clean, Contains, RangeLine, Token;
    if p.rangeStart.Some? {
      RangeRead(NEW_POOL, p.rangeStart.value, p.rangeEnd.value);
    }
    ShortBlockLine("\t}");
  }

  /** A pool in print, on or off: the keyword is commented out where it stands. */
  lemma PrintPoolLines(p: Pool)
    requires CleanPool(p)
    ensures PrintPool(p) == Below("pool {", PoolInner(p))
  {
    hide Clean, Contains, Quoted, RangeLines, Token, PoolText;
    var q := PoolRead(p);
    PoolTextLines(q);
    assert PoolText(p) == PoolText(q) by {
      SwitchUnprinted(p);
    }
    if !p.peerEnabled {
      AfterFailoverFree(p);
      var ls := RangeLines(p) + ["\t}"];
      assert RangeLines(q) == RangeLines(p) by {
        RangeLinesRead(p);
      }
      if p.failoverPeer.None? {
        PoolOpens();
        FailoverWord();
        AbsentBelow("pool {", PoolInner(q), FAILOVER_PEER);
        SplitWhole(PoolText(p), FAILOVER_PEER);
      } else {
        CommentedPool(p, ls);
      }
    }
  }

  lemma SwitchUnprinted(p: Pool)
    ensures PoolText(p) == PoolText(PoolRead(p))
  {
  }

  lemma RangeLinesRead(p: Pool)
    ensures RangeLines(p) == RangeLines(PoolRead(p))
  {
  }

  lemma FailoverWord()
    ensures FAILOVER_PEER != "" && '\n' !in FAILOVER_PEER && FAILOVER_PEER[0] == 'f'
    ensures FailoverKey(false) == "#failover peer" && FailoverKey(true) == FAILOVER_PEER
  {
  }

  lemma CommentedPool(p: Pool, ls: seq<string>)
    requires CleanPool(p) && p.failoverPeer.Some?
    requires forall l | l in ls :: !Contains(l, FAILOVER_PEER)
    ensures Join(Split(Below("pool {", [FailoverLine(p.failoverPeer.value, true)] + ls), FAILOVER_PEER), "#failover peer")
         == Below("pool {", [FailoverLine(p.failoverPeer.value, false)] + ls)
  {
    hide Clean, Contains, Quoted, FailoverKey, FAILOVER_PEER, Token, Below, Split, Join;
    var v := p.failoverPeer.value;
    var a, b := "pool {\n\t\t", " " + Quoted(v) + ";";
    FailoverWord();
    FailoverValueFree(v);
    AbsentBelow(b, ls, FAILOVER_PEER);
    FirstBelow(a, v, true, ls);
    FirstBelow(a, v, false, ls);
    ReplaceOne(a, FAILOVER_PEER, Below(b, ls), "#failover peer");
  }

  lemma FirstBelow(a: string, v: string, on: bool, ls: seq<string>)
    requires a == "pool {\n\t\t"
    ensures Below("pool {", [FailoverLine(v, on)] + ls) == a + FailoverKey(on) + Below(" " + Quoted(v) + ";", ls)
  {
    hide Quoted, FailoverKey;
    var key, b := FailoverKey(on), " " + Quoted(v) + ";";
    assert ([FailoverLine(v, on)] + ls)[1..] == ls;
    assert "pool {" + NL + FailoverLine(v, on) == a + key + b;
    BelowPrefix(a + key, b, ls);
  }

  /** A line that may be missing. */
  lemma BelowMaybe(s: string, ls: seq<string>, text: string, rest: seq<string>)
    requires (ls == [] && text == "") || (|ls| == 1 && text == NL + ls[0])
    ensures Below(s, ls + rest) == Below(s + text, rest)
  {
    BelowAppend(s, ls, rest);
    if ls == [] {
      assert s + text == s;
    } else {
      assert ls[1..] == [];
      assert s + (NL + ls[0]) == s + NL + ls[0];
    }
  }

  lemma FailoverLineText(p: Pool)
    ensures p.failoverPeer.Some? ==>
      FailoverLine(p.failoverPeer.value, true) == "\t\tfailover peer \"" + p.failoverPeer.value + "\";"
  {
    if p.failoverPeer.Some? {
      var v := p.failoverPeer.value;
      assert "\t\t" + FAILOVER_PEER + " " == "\t\tfailover peer ";
      assert FailoverLine(v, true) == "\t\tfailover peer " + ("\"" + v + "\"") + ";";
    }
  }

  lemma RangeLineText(p: Pool)
    ensures p.rangeStart.Some? && p.rangeEnd.Some? ==>
      RangeLine(p.rangeStart.value, p.rangeEnd.value) == "\t\trange " + (p.rangeStart.value + " " + p.rangeEnd.value) + ";"
  {
    assert "\t\t" + RANGE + " " == "\t\trange ";
  }

  /** Everything from the word `pool` on. */
  function PoolToEnd(cr: string, p: Pool, hs: seq<Host>): string {
    PrintPool(p) + NL + "}" + PrintHosts(cr, hs)
  }

  lemma PoolToEndLines(cr: string, p: Pool, hs: seq<Host>)
    requires IsCr(cr) && CleanPool(p)
    ensures Below("pool {", PoolInner(p) + AfterPool(cr, hs)) == PoolToEnd(cr, p, hs)
  {
    hide PrintPool, PoolInner, CleanPool;
    BelowAppend("pool {", PoolInner(p), AfterPool(cr, hs));
    PrintPoolLines(p);
    assert AfterPool(cr, hs)[1..] == HostsLines(cr, hs);
    PrintHostsLines(PrintPool(p) + NL + "}", cr, hs);
  }

  lemma SubnetToEndText(cr: string, s: Subnet, hs: seq<Host>)
    requires |s.pools| == 1
    ensures SubnetToEnd(cr, s, hs) == SubnetHead(s) + (NL + "\t") + PoolToEnd(cr, s.pools[0], hs)
  {
    hide SubnetHead, PrintPool, PrintHosts;
    var p := s.pools[0];
    assert s.pools[1..] == [];
    assert PrintPools(s.pools) == NL + ("\t" + PrintPool(p)) + "";
    AssocPool(SubnetHead(s), PrintPool(p), PrintHosts(cr, hs));
  }

  lemma AssocPool(a: string, b: string, c: string)
    ensures a + (NL + ("\t" + b) + "") + NL + "}" + c == a + (NL + "\t") + (b + NL + "}" + c)
  {
    assert NL + ("\t" + b) + "" == NL + "\t" + b;
  }

  lemma SubnetToEndLines(cr: string, s: Subnet, hs: seq<Host>)
    requires IsCr(cr) && |s.pools| == 1 && CleanPool(s.pools[0])
    ensures Below(FirstOf(s), SubnetFields(s, AfterFields(cr, s.pools[0], hs))) == SubnetToEnd(cr, s, hs)
  {
    hide SubnetHead, FirstOf, SubnetFields, PoolInner, AfterPool, PoolToEnd, CleanPool;
    var p := s.pools[0];
    var rest := PoolInner(p) + AfterPool(cr, hs);
    HeadLines(s, AfterFields(cr, p, hs));
    assert AfterFields(cr, p, hs)[1..] == rest;
    var above := SubnetHead(s) + (NL + "\t");
    assert SubnetHead(s) + NL + "\tpool {" == above + "pool {";
    BelowPrefix(above, "pool {", rest);
    PoolToEndLines(cr, p, hs);
    SubnetToEndText(cr, s, hs);
  }

  // ---------------------------------------------------------------------
  // The fields of the subnet
  // ---------------------------------------------------------------------

  lemma SubnetStep(line: string, rest: seq<string>, s: Subnet, t: Subnet)
    requires SubnetField(s, line) == Ok(t)
    ensures SubnetLines([line] + rest, s) == SubnetLines(rest, t)
  {
    assert ([line] + rest)[1..] == rest;
  }

  lemma SubnetOptStep(key: string, v: Option<string>, rest: seq<string>, s: Subnet, t: Subnet)
    requires v.None? ==> t == s
    requires v.Some? ==> SubnetField(s, "\t" + key + " " + v.value + ";") == Ok(t)
    ensures SubnetLines(OptLine("\t", key, v) + rest, s) == SubnetLines(rest, t)
  {
    if v.None? {
      assert OptLine("\t", key, v) + rest == rest;
    } else {
      SubnetStep("\t" + key + " " + v.value + ";", rest, s, t);
    }
  }

  lemma {:induction false} SubnetSkip(ls: seq<string>, s: Subnet)
    requires forall l | l in ls :: NoSubnetKey(l)
    ensures SubnetLines(ls, s) == Ok(s)
    decreases |ls|
  {
    hide NoSubnetKey;
    if ls != [] {
      NoSubnetKeyStep(s, ls[0]);
      SubnetSkip(ls[1..], s);
    }
  }

  lemma NoSubnetKeyStep(s: Subnet, line: string)
    requires NoSubnetKey(line)
    ensures SubnetField(s, line) == Ok(s)
  {
  }

  /** The optional fields of a subnet that are printed on lines of their own. */
  datatype SubnetKey = AtNtp | AtSubnetMask | AtBroadcast | AtRouters | AtDns | AtInterface

  function SubnetKeyText(k: SubnetKey): string {
    match k
    case AtNtp => NTP
    case AtSubnetMask => SUBNET_MASK
    case AtBroadcast => BROADCAST
    case AtRouters => ROUTERS
    case AtDns => DNS
    case AtInterface => INTERFACE
  }

  function WithSubnetField(s: Subnet, k: SubnetKey, v: Option<string>): Subnet {
    match k
    case AtNtp => s.(ntpServers := v)
    case AtSubnetMask => s.(subnetMask := v)
    case AtBroadcast => s.(broadcast := v)
    case AtRouters => s.(routers := v)
    case AtDns => s.(dnsServers := v)
    case AtInterface => s.(interface := v)
  }

  lemma SubnetKeyLine(s: Subnet, k: SubnetKey, v: string)
    requires Clean(v)
    ensures var line := "\t" + SubnetKeyText(k) + " " + v + ";";
            SubnetField(s, line) == Ok(WithSubnetField(s, k, Some(v))) && AbovePool(line)
  {
    hide Clean, SubnetField, AbovePool, NTP, SUBNET_MASK, BROADCAST, ROUTERS, DNS, INTERFACE;
    match k
    case AtNtp => NtpLine(s, v);
    case AtSubnetMask => SubnetMaskLine(s, v);
    case AtBroadcast => BroadcastLine(s, v);
    case AtRouters => RoutersLine(s, v);
    case AtDns => DnsLine(s, v);
    case AtInterface => InterfaceLine(s, v);
  }

  lemma SubnetKeyStep(k: SubnetKey, v: Option<string>, rest: seq<string>, s: Subnet)
    requires CleanOpt(v) && WithSubnetField(s, k, None) == s
    ensures SubnetLines(OptLine("\t", SubnetKeyText(k), v) + rest, s) == SubnetLines(rest, WithSubnetField(s, k, v))
    ensures forall l | l in OptLine("\t", SubnetKeyText(k), v) :: AbovePool(l)
  {
    hide Contains, Clean, SubnetField, SubnetKeyText, WithSubnetField;
    if v.Some? {
      SubnetKeyLine(s, k, v.value);
    }
    SubnetOptStep(SubnetKeyText(k), v, rest, s, WithSubnetField(s, k, v));
  }

  lemma AuthStep(s: Subnet, rest: seq<string>, t: Subnet)
    requires t.authoritative == false
    ensures SubnetLines(AuthLine(s) + rest, t) == SubnetLines(rest, t.(authoritative := s.authoritative))
    ensures forall l | l in AuthLine(s) :: AbovePool(l)
  {
    hide SubnetField, AbovePool;
    AuthoritativeLine(t);
    if s.authoritative {
      SubnetStep("\tauthoritative;", rest, t, t.(authoritative := true));
    } else {
      assert AuthLine(s) + rest == rest;
    }
  }

  /** The subnet's fields, read line by line, are the fields that were printed. */
  lemma SubnetFieldsTrip(s: Subnet, rest: seq<string>, t: Subnet)
    requires CleanSubnet(s)
    requires t == NEW_SUBNET.(subnet := s.subnet)
    ensures SubnetLines(SubnetFields(s, rest), t) == SubnetLines(rest, s.(pools := []))
  {
    hide Clean, SubnetLines, OptLine, AuthLine;
    var l7 := AuthLine(s) + rest;
    var l6 := OptLine("\t", INTERFACE, s.interface) + l7;
    var l5 := OptLine("\t", DNS, s.dnsServers) + l6;
    var l4 := OptLine("\t", ROUTERS, s.routers) + l5;
    var l3 := OptLine("\t", BROADCAST, s.broadcast) + l4;
    var l2 := OptLine("\t", SUBNET_MASK, s.subnetMask) + l3;
    SubnetKeyStep(AtNtp, s.ntpServers, l2, t);
    var t1 := t.(ntpServers := s.ntpServers);
    SubnetKeyStep(AtSubnetMask, s.subnetMask, l3, t1);
    var t2 := t1.(subnetMask := s.subnetMask);
    SubnetKeyStep(AtBroadcast, s.broadcast, l4, t2);
    var t3 := t2.(broadcast := s.broadcast);
    SubnetKeyStep(AtRouters, s.routers, l5, t3);
    var t4 := t3.(routers := s.routers);
    SubnetKeyStep(AtDns, s.dnsServers, l6, t4);
    var t5 := t4.(dnsServers := s.dnsServers);
    SubnetKeyStep(AtInterface, s.interface, l7, t5);
    var t6 := t5.(interface := s.interface);
    AuthStep(s, rest, t6);
  }

  /** The lines above the pool stop neither the search for `pool` nor the one for `host`. */
  lemma SubnetFieldsAbovePool(s: Subnet)
    requires CleanSubnet(s)
    ensures AbovePool(FirstOf(s))
    ensures forall l | l in SubnetFields(s, []) :: AbovePool(l)
  {
    hide Clean, AbovePool, SubnetLines, OptLine, AuthLine, SubnetFirst;
    HeadLine(NEW_SUBNET, s.subnet.value, Show(s.subnetMask));
    SubnetKeyStep(AtNtp, s.ntpServers, [], NEW_SUBNET);
    SubnetKeyStep(AtSubnetMask, s.subnetMask, [], NEW_SUBNET);
    SubnetKeyStep(AtBroadcast, s.broadcast, [], NEW_SUBNET);
    SubnetKeyStep(AtRouters, s.routers, [], NEW_SUBNET);
    SubnetKeyStep(AtDns, s.dnsServers, [], NEW_SUBNET);
    SubnetKeyStep(AtInterface, s.interface, [], NEW_SUBNET);
    AuthStep(s, [], NEW_SUBNET);
  }
}
