/** The configuration file over time: written to disk and read again, any number of times. */
module DhcpFile {
  import opened Common
  import opened Text
  import opened Lines
  import opened DhcpText
  import opened DhcpKeywords
  import opened DhcpPeerTrip
  import opened DhcpDisabledPeer
  import opened DhcpHostsTrip
  import opened DhcpHostScan
  import opened DhcpSubnetTrip
  import opened DhcpRoundTrip

  // ---------------------------------------------------------------------
  // Universal newlines
  // ---------------------------------------------------------------------

  /** What reading a file in text mode makes of its contents. */
  function UniversalNewlines(s: string): string
    decreases |s|
  {
    if s == "" then ""
    else if s[0] != '\r' then [s[0]] + UniversalNewlines(s[1..])
    else if |s| > 1 && s[1] == '\n' then NL + UniversalNewlines(s[2..])
    else NL + UniversalNewlines(s[1..])
  }

  /** `s` reads as `t`, whatever text comes after it. */
  ghost predicate ReadsAs(s: string, t: string) {
    forall rest :: UniversalNewlines(s + rest) == t + UniversalNewlines(rest)
  }

  lemma {:induction false} PlainPrefix(s: string, rest: string)
    requires '\r' !in s
    ensures UniversalNewlines(s + rest) == s + UniversalNewlines(rest)
    decreases |s|
  {
    if s == "" {
      assert s + rest == rest && s + UniversalNewlines(rest) == UniversalNewlines(rest);
    } else {
      PlainPrefix(s[1..], rest);
      assert (s + rest)[1..] == s[1..] + rest;
      assert [s[0]] + (s[1..] + UniversalNewlines(rest)) == s + UniversalNewlines(rest);
    }
  }

  lemma PlainReadsAs(s: string)
    requires '\r' !in s
    ensures ReadsAs(s, s)
  {
    forall rest
      ensures UniversalNewlines(s + rest) == s + UniversalNewlines(rest)
    {
      PlainPrefix(s, rest);
    }
  }

  lemma ConcatReadsAs(a: string, ra: string, b: string, rb: string)
    requires ReadsAs(a, ra) && ReadsAs(b, rb)
    ensures ReadsAs(a + b, ra + rb)
  {
    hide UniversalNewlines;
    forall rest
      ensures UniversalNewlines(a + b + rest) == ra + rb + UniversalNewlines(rest)
    {
      ReadsThrough(a, ra, b + rest);
      ReadsThrough(b, rb, rest);
      Assoc(a, b, rest);
      Assoc(ra, rb, UniversalNewlines(rest));
    }
  }

  lemma ReadsThrough(s: string, t: string, rest: string)
    requires ReadsAs(s, t)
    ensures UniversalNewlines(s + rest) == t + UniversalNewlines(rest)
  {
  }

  /** A carriage return before ordinary text becomes a newline. */
  lemma CrReadsAs(x: string)
    requires x != "" && x[0] != '\n' && '\r' !in x
    ensures ReadsAs("\r" + x, NL + x)
  {
    forall rest
      ensures UniversalNewlines("\r" + x + rest) == NL + x + UniversalNewlines(rest)
    {
      CrPrefix(x, rest);
    }
  }

  lemma CrPrefix(x: string, rest: string)
    requires x != "" && x[0] != '\n' && '\r' !in x
    ensures UniversalNewlines("\r" + x + rest) == NL + x + UniversalNewlines(rest)
  {
    var s := "\r" + x + rest;
    assert s[1..] == x + rest && s[1] == x[0];
    PlainPrefix(x, rest);
    assert NL + (x + UniversalNewlines(rest)) == NL + x + UniversalNewlines(rest);
  }

  lemma HeaderReadsAs(c: Config)
    ensures ReadsAs(PrintHeader("\r", c), PrintHeader("\n", c))
  {
    hide Dec, ReadsAs;
    var a := if c.defaultLeaseTime.Some? then "default-lease-time " + Dec(c.defaultLeaseTime.value) + ";" else "";
    if c.defaultLeaseTime.Some? {
      Digits(c.defaultLeaseTime.value);
    }
    PlainReadsAs(a);
    if c.maxLeaseTime.Some? {
      var x := "max-lease-time " + Dec(c.maxLeaseTime.value) + ";";
      Digits(c.maxLeaseTime.value);
      CrReadsAs(x);
      PlainReadsAs(NL);
      ConcatReadsAs(NL, NL, "\r" + x, NL + x);
      ConcatReadsAs(a, a, NL + ("\r" + x), NL + (NL + x));
    } else {
      assert a + "" == a;
    }
  }

  lemma KeyLineNoCr(key: string, v: Option<string>)
    requires CleanOpt(v) && '\r' !in key
    ensures '\r' !in KeyLine("\t", key, v)
  {
    hide Contains;
  }

  /** The peer block before its last line. */
  function PeerOpen(p: Peer): string {
    ("failover peer \"" + Show(p.name) + "\" {")
    + NL + (if p.primary then "\tprimary;" else "secondary;")
    + KeyLine("\t", ADDRESS, p.address)
    + KeyLine("\t", PORT, p.port)
    + KeyLine("\t", PEER_ADDRESS, p.peerAddress)
    + KeyLine("\t", PEER_PORT, p.peerPort)
    + KeyLine("\t", MAX_RESPONSE_DELAY, p.maxResponseDelay)
    + KeyLine("\t", MAX_UNACKED_UPDATES, p.maxUnackedUpdates)
    + KeyLine("\t", MCLT, p.mclt)
    + KeyLine("\t", SPLIT, p.split)
    + KeyLine("\t", LOAD_BALANCE, p.loadBalance)
  }

  lemma PeerReadsAs(p: Peer)
    requires CleanPeer(p)
    ensures ReadsAs(PeerText("\r", p), PeerText("\n", p))
  {
    hide ReadsAs, Contains;
    var x := PeerOpen(p);
    PeerOpenNoCr(p);
    PlainReadsAs(x + NL);
    CrReadsAs("}");
    ConcatReadsAs(x + NL, x + NL, "\r" + "}", NL + "}");
  }

  lemma PeerOpenNoCr(p: Peer)
    requires CleanPeer(p)
    ensures '\r' !in PeerOpen(p) && PeerOpen(p) != "" && PeerOpen(p)[0] == 'f'
  {
    hide Contains, KeyLine;
    PeerNoCr(p);
  }

  /** The line that is stripped before it is commented out is the only one with a carriage return. */
  lemma {:induction false} CommentedButLast(ls: seq<string>, k: string)
    requires ls != [] && k != "" && '#' !in k && !Contains(Strip(ls[|ls| - 1]), k)
    requires forall l | l in ls[..|ls| - 1] :: !Contains(l, k)
    ensures CommentLines(ls) != [] && forall l | l in CommentLines(ls) :: !Contains(l, k)
    decreases |ls|
  {
    hide Contains, Strip;
    if |ls| == 1 {
      CommentFree(Strip(ls[0]), k);
    } else {
      assert ls[0] in ls[..|ls| - 1] && ls[1..][..|ls| - 2] == ls[..|ls| - 1][1..];
      CommentFree(ls[0], k);
      CommentedButLast(ls[1..], k);
    }
  }

  /** A disabled peer is written without carriage returns: the file gives it back as it was printed. */
  lemma DisabledNoCr(p: Peer)
    requires CleanPeer(p) && !p.enabled
    ensures '\r' !in PrintPeer("\r", p)
  {
    hide CleanPeer, Contains, PeerOpen, PeerText, Strip;
    var x := PeerOpen(p);
    PeerOpenNoCr(p);
    PeerTextParts(p, x);
    BraceStrip();
    SplitTwoTexts(x, "\r}");
    SplitNoChar("\r}", '\n');
    ContainsChar(x, '\r');
    SplitLines(x, "\r");
    ContainsChar("}", '\r');
    var ls := Split(x, NL) + ["\r}"];
    assert ls[..|ls| - 1] == Split(x, NL);
    CommentedButLast(ls, "\r");
    JoinedFree(CommentLines(ls), "\r");
    ContainsChar(PrintPeer("\r", p), '\r');
  }

  lemma PeerTextParts(p: Peer, x: string)
    requires x == PeerOpen(p) && x != "" && x[0] == 'f'
    ensures PeerText("\r", p) == x + NL + "\r}" && Strip(PeerText("\r", p)) == PeerText("\r", p)
  {
    assert "\r" + "}" == "\r}";
    StripPad("", x + NL + "\r}");
    assert "" + (x + NL + "\r}") == x + NL + "\r}";
  }

  lemma BraceStrip()
    ensures Strip("\r}") == "}"
  {
    StripPad("\r", "}");
    assert "\r" + "}" == "\r}";
  }

  lemma PeerNoCr(p: Peer)
    requires CleanPeer(p)
    ensures '\r' !in KeyLine("\t", ADDRESS, p.address) && '\r' !in KeyLine("\t", PORT, p.port)
    ensures '\r' !in KeyLine("\t", PEER_ADDRESS, p.peerAddress) && '\r' !in KeyLine("\t", PEER_PORT, p.peerPort)
    ensures '\r' !in KeyLine("\t", MAX_RESPONSE_DELAY, p.maxResponseDelay)
    ensures '\r' !in KeyLine("\t", MAX_UNACKED_UPDATES, p.maxUnackedUpdates)
    ensures '\r' !in KeyLine("\t", MCLT, p.mclt) && '\r' !in KeyLine("\t", SPLIT, p.split)
    ensures '\r' !in KeyLine("\t", LOAD_BALANCE, p.loadBalance)
    ensures '\r' !in Show(p.name)
  {
    hide KeyLine, Contains;
    KeyLineNoCr(ADDRESS, p.address);
    KeyLineNoCr(PORT, p.port);
    KeyLineNoCr(PEER_ADDRESS, p.peerAddress);
    KeyLineNoCr(PEER_PORT, p.peerPort);
    KeyLineNoCr(MAX_RESPONSE_DELAY, p.maxResponseDelay);
    KeyLineNoCr(MAX_UNACKED_UPDATES, p.maxUnackedUpdates);
    KeyLineNoCr(MCLT, p.mclt);
    KeyLineNoCr(SPLIT, p.split);
    KeyLineNoCr(LOAD_BALANCE, p.loadBalance);
  }

  lemma SubnetNoCr(s: Subnet)
    requires CleanSubnet(s)
    ensures '\r' !in PrintSubnet(s)
  {
    hide KeyLine, Contains, PrintPool;
    KeyLineNoCr(NTP, s.ntpServers);
    KeyLineNoCr(SUBNET_MASK, s.subnetMask);
    KeyLineNoCr(BROADCAST, s.broadcast);
    KeyLineNoCr(ROUTERS, s.routers);
    KeyLineNoCr(DNS, s.dnsServers);
    KeyLineNoCr(INTERFACE, s.interface);
    PoolNoCr(s.pools[0]);
    assert s.pools[1..] == [];
    assert '\r' !in PrintPools(s.pools);
    assert '\r' !in SubnetHead(s);
  }

  lemma PoolNoCr(p: Pool)
    requires CleanPool(p)
    ensures '\r' !in PrintPool(p)
  {
    hide Contains, PrintPool, FailoverKey;
    PrintPoolLines(p);
    FailoverKeyLetters(p.peerEnabled);
    if p.rangeStart.Some? {
      assert '\r' !in p.rangeStart.value + " " + p.rangeEnd.value;
    }
    NoCrBelow("pool {", PoolInner(p));
  }

  lemma {:induction false} NoCrBelow(s: string, ls: seq<string>)
    requires '\r' !in s && forall l | l in ls :: '\r' !in l
    ensures '\r' !in Below(s, ls)
    decreases |ls|
  {
    if ls != [] {
      NoCrBelow(s + NL + ls[0], ls[1..]);
    }
  }

  lemma HostReadsAs(h: Host)
    requires CleanHost(h)
    ensures ReadsAs(PrintHost("\r", h), PrintHost("\n", h))
  {
    hide ReadsAs, Contains;
    var a := ("host " + Show(h.host) + " {") + NL + "    ";
    var x := "\thardware ethernet " + Show(h.hwAddr) + ";";
    var y := "\tfixed-address " + Show(h.fixedAddr) + ";";
    var gap := NL + "    ";
    PlainReadsAs(a);
    CrReadsAs(x);
    PlainReadsAs(gap);
    CrReadsAs(y);
    CrReadsAs("}");
    ConcatReadsAs(a, a, "\r" + x, NL + x);
    ConcatReadsAs(a + ("\r" + x), a + (NL + x), gap, gap);
    ConcatReadsAs(a + ("\r" + x) + gap, a + (NL + x) + gap, "\r" + y, NL + y);
    ConcatReadsAs(a + ("\r" + x) + gap + ("\r" + y), a + (NL + x) + gap + (NL + y), gap, gap);
    ConcatReadsAs(a + ("\r" + x) + gap + ("\r" + y) + gap, a + (NL + x) + gap + (NL + y) + gap, "\r" + "}", NL + "}");
    HostTextParts("\r", h, a, x, y, gap);
    HostTextParts("\n", h, a, x, y, gap);
  }

  lemma HostTextParts(cr: string, h: Host, a: string, x: string, y: string, gap: string)
    requires a == ("host " + Show(h.host) + " {") + NL + "    " && gap == NL + "    "
    requires x == "\thardware ethernet " + Show(h.hwAddr) + ";" && y == "\tfixed-address " + Show(h.fixedAddr) + ";"
    ensures PrintHost(cr, h) == a + (cr + x) + gap + (cr + y) + gap + (cr + "}")
  {
    var first := "host " + Show(h.host) + " {";
    Assoc(first, NL, "    ");
    var x1 := first + gap + (cr + x);
    var y1 := x1 + gap + (cr + y);
    GapLine(first, cr, x, gap);
    GapLine(x1, cr, y, gap);
    GapLine(y1, cr, "}", gap);
    hide NL, Show;
    assert PrintHost(cr, h)
        == first + NL + ("    " + cr + x) + NL + ("    " + cr + y) + NL + ("    " + cr + "}");
  }

  lemma GapLine(s: string, cr: string, x: string, gap: string)
    requires gap == NL + "    "
    ensures s + NL + ("    " + cr + x) == s + gap + (cr + x)
  {
    Assoc("    ", cr, x);
    Assoc(s + NL, "    ", cr + x);
    Assoc(s, NL, "    ");
  }

  lemma {:induction false} HostsReadAs(hs: seq<Host>)
    requires CleanHosts(hs)
    ensures ReadsAs(PrintHosts("\r", hs), PrintHosts("\n", hs))
    decreases |hs|
  {
    hide ReadsAs, CleanHost, PrintHost;
    if hs == [] {
      PlainReadsAs("");
    } else {
      assert CleanHost(hs[0]);
      HostReadsAs(hs[0]);
      HostsReadAs(hs[1..]);
      PlainReadsAs(NL);
      ConcatReadsAs(NL, NL, PrintHost("\r", hs[0]), PrintHost("\n", hs[0]));
      ConcatReadsAs(NL + PrintHost("\r", hs[0]), NL + PrintHost("\n", hs[0]),
                    PrintHosts("\r", hs[1..]), PrintHosts("\n", hs[1..]));
    }
  }

  /** What the file makes of the text of the peer. */
  function PeerInFile(p: Peer): string {
    if p.enabled then PeerText("\n", p) else PrintPeer("\r", p)
  }

  lemma PeerPrintReadsAs(p: Peer)
    requires CleanPeer(p)
    ensures ReadsAs(PrintPeer("\r", p), PeerInFile(p)) && PeerWritten("\n", p, PeerInFile(p))
  {
    hide CleanPeer, ReadsAs, PeerText, Silent;
    if p.enabled {
      PeerReadsAs(p);
    } else {
      DisabledNoCr(p);
      PlainReadsAs(PrintPeer("\r", p));
      DisabledSilent("\r", p);
    }
  }

  lemma ConfigReadsAs(c: Config)
    requires CleanConfig(c)
    ensures UniversalNewlines(PrintConfig("\r", c)) == ConfigWith("\n", c, PeerInFile(c.peer.value))
  {
    hide CleanPeer, CleanSubnet, CleanHosts, PrintHeader, PrintPeer, PeerInFile, PeerWritten, PrintSubnet, PrintHosts, ReadsAs;
    var p, s := c.peer.value, c.subnets[0];
    HeaderReadsAs(c);
    PeerPrintReadsAs(p);
    SubnetNoCr(s);
    HostsReadAs(c.hosts);
    var gap := NL + "" + NL;
    PlainReadsAs(gap);
    var tail := gap + PrintSubnet(s);
    PlainReadsAs(tail);
    var h1, h2 := PrintHeader("\r", c), PrintHeader("\n", c);
    var p1, p2 := PrintPeer("\r", p), PeerInFile(p);
    ConcatReadsAs(h1, h2, gap, gap);
    ConcatReadsAs(h1 + gap, h2 + gap, p1, p2);
    ConcatReadsAs(h1 + gap + p1, h2 + gap + p2, tail, tail);
    ConcatReadsAs(h1 + gap + p1 + tail, h2 + gap + p2 + tail, PrintHosts("\r", c.hosts), PrintHosts("\n", c.hosts));
    assert c.subnets[1..] == [];
    assert PrintSubnets(c.subnets) == tail;
    ConfigParts(h1, gap, p1, tail, PrintHosts("\r", c.hosts));
    ConfigParts(h2, gap, p2, tail, PrintHosts("\n", c.hosts));
    WholeReadsAs(PrintConfig("\r", c), ConfigWith("\n", c, p2));
  }

  lemma ConfigParts(h: string, gap: string, p: string, t: string, hs: string)
    requires gap == NL + "" + NL
    ensures h + NL + "" + NL + p + t + hs == h + gap + p + t + hs
  {
    assert h + NL + "" + NL == h + gap;
  }

  lemma WholeReadsAs(s: string, t: string)
    requires ReadsAs(s, t)
    ensures UniversalNewlines(s) == t
  {
    assert s + "" == s && t + UniversalNewlines("") == t;
  }

  /** Writing the file and reading it back gives the same as making a configuration of the printed text. */
  lemma FileRoundTrip(c: Config, c0: Config, turns: nat)
    requires CleanConfig(c) && turns > |c.hosts|
    ensures Make(UniversalNewlines(PrintConfig("\r", c)), c0, turns) == Made(Restored(c, c0), true)
  {
    hide CleanPeer, CleanSubnet, CleanHosts, PeerWritten, PeerInFile, Restored, Make, ConfigWith, PrintConfig;
    ConfigReadsAs(c);
    PeerPrintReadsAs(c.peer.value);
    WrittenRead("\n", c, PeerInFile(c.peer.value), c0, turns);
  }

  // ---------------------------------------------------------------------
  // Many cycles
  // ---------------------------------------------------------------------

  function Blanks(k: nat): string {
    if k == 0 then "" else Blanks(k - 1) + " "
  }

  function GainedTimes(h: Host, k: nat): Host {
    if h.host.Some? then h.(host := Some(h.host.value + Blanks(k))) else h
  }

  /** `k` times print the configuration and make a configuration from the text. */
  function Cycles(cr: string, c: Config, k: nat, turns: nat): Config {
    if k == 0 then c else
      var before := Cycles(cr, c, k - 1, turns);
      Make(PrintConfig(cr, before), before, turns).config
  }

  lemma TailFree(v: string, k: string)
    requires k != "" && k[|k| - 1] != ' ' && !Contains(v, k)
    ensures !Contains(v + " ", k)
  {
    forall i: nat | MatchAt(v + " ", k, i)
      ensures false
    {
      MatchChar(v + " ", k, i, |k| - 1);
      MatchInConcat(v, " ", k, i);
    }
  }

  /** A blank more at the end keeps a value clean. */
  lemma CleanTail(v: string)
    requires Clean(v) && v != ""
    ensures Clean(v + " ")
  {
    hide Contains;
    TailFree(v, PRIMARY);
    TailFree(v, ADDRESS);
    TailFree(v, PORT);
    TailFree(v, MAX_RESPONSE_DELAY);
    TailFree(v, MAX_UNACKED_UPDATES);
    TailFree(v, MCLT);
    TailFree(v, SPLIT);
    TailFree(v, LOAD_BALANCE);
    TailFree(v, FAILOVER_PEER);
    TailFree(v, SUBNET);
    TailFree(v, NTP);
    TailFree(v, ROUTERS);
    TailFree(v, DNS);
    TailFree(v, INTERFACE);
    TailFree(v, AUTHORITATIVE);
    TailFree(v, POOL);
    TailFree(v, RANGE);
    TailFree(v, HOST);
    TailFree(v, HARDWARE);
  }

  lemma {:induction false} GainedIndex(hs: seq<Host>)
    ensures |AllGained(hs)| == |hs|
    ensures forall i | 0 <= i < |hs| :: AllGained(hs)[i] == Gained(hs[i])
    decreases |hs|
  {
    if hs != [] {
      GainedIndex(hs[1..]);
    }
  }

  lemma GainedClean(hs: seq<Host>)
    requires CleanHosts(hs)
    ensures CleanHosts(AllGained(hs))
  {
    GainedIndex(hs);
    forall g | g in AllGained(hs)
      ensures CleanHost(g)
    {
      var i :| 0 <= i < |hs| && AllGained(hs)[i] == g;
      assert CleanHost(hs[i]);
      CleanTail(hs[i].host.value);
    }
  }

  /** The peer after `k` cycles: disabled, it is lost by the first, and from the second on the file has an
      enabled peer by the name of `None`. */
  function PeerAfter(p: Peer, k: nat): Peer {
    if p.enabled || k == 0 then p
    else if k == 1 then NEW_PEER
    else NEW_PEER.(name := Some("None"))
  }

  /** The subnets after `k` cycles: their pools are on. */
  function SubnetsAfter(ss: seq<Subnet>, k: nat): seq<Subnet>
    requires |ss| == 1 && ss[0].pools != []
  {
    if k == 0 then ss else [SubnetRead(ss[0])]
  }

  /** The configuration whose peer has for its name what is printed as its name. */
  function Named(c: Config): Config {
    if c.peer.Some? then c.(peer := Some(c.peer.value.(name := Some(Show(c.peer.value.name))))) else c
  }

  lemma NamedPrints(cr: string, c: Config)
    ensures PrintConfig(cr, c) == PrintConfig(cr, Named(c))
  {
    hide PrintSubnets, PrintHosts, KeyLine, Dec;
    if c.peer.Some? {
      NamedText(cr, c.peer.value);
    }
    assert PrintHeader(cr, c) == PrintHeader(cr, Named(c));
  }

  lemma NamedText(cr: string, p: Peer)
    ensures PeerText(cr, p) == PeerText(cr, p.(name := Some(Show(p.name))))
  {
    hide KeyLine;
  }

  /** What is true of the configuration `d` after `k` cycles that began with `c`. */
  ghost predicate After(c: Config, d: Config, k: nat)
    requires CleanConfig(c)
  {
    && d == c.(peer := Some(PeerAfter(c.peer.value, k)), subnets := SubnetsAfter(c.subnets, k), hosts := d.hosts)
    && |d.hosts| == |c.hosts|
    && forall i | 0 <= i < |c.hosts| :: d.hosts[i] == GainedTimes(c.hosts[i], k)
  }

  lemma AfterNone(c: Config)
    requires CleanConfig(c)
    ensures After(c, c, 0) && Named(c) == c
  {
    hide Clean, CleanSubnet, CleanHosts;
    forall i | 0 <= i < |c.hosts|
      ensures GainedTimes(c.hosts[i], 0) == c.hosts[i]
    {
      if c.hosts[i].host.Some? {
        assert c.hosts[i].host.value + "" == c.hosts[i].host.value;
      }
    }
  }

  /** The name printed for a peer without one. */
  lemma NoneIsClean()
    ensures Clean("None")
  {
    hide Contains;
    TooShort("None", PRIMARY);
    TooShort("None", ADDRESS);
    AbsentChar("None", PORT, 't');
    TooShort("None", MAX_RESPONSE_DELAY);
    TooShort("None", MAX_UNACKED_UPDATES);
    AbsentChar("None", MCLT, 't');
    TooShort("None", SPLIT);
    TooShort("None", LOAD_BALANCE);
    TooShort("None", FAILOVER_PEER);
    TooShort("None", SUBNET);
    TooShort("None", NTP);
    TooShort("None", ROUTERS);
    TooShort("None", DNS);
    TooShort("None", INTERFACE);
    TooShort("None", AUTHORITATIVE);
    AbsentChar("None", POOL, 'l');
    TooShort("None", RANGE);
    AbsentChar("None", HOST, 't');
    TooShort("None", HARDWARE);
  }

  lemma NamedPeerClean(p: Peer)
    requires CleanPeer(p) || p == NEW_PEER
    ensures CleanPeer(p.(name := Some(Show(p.name))))
  {
    hide Clean;
    NoneIsClean();
  }

  lemma SubnetReadClean(s: Subnet)
    requires CleanSubnet(s)
    ensures CleanSubnet(SubnetRead(s)) && SubnetRead(SubnetRead(s)) == SubnetRead(s)
  {
    hide Clean, Token;
  }

  /** One cycle more. */
  lemma AfterOneMore(c: Config, b: Config, k: nat)
    requires CleanConfig(c) && After(c, b, k) && CleanConfig(Named(b))
    ensures After(c, Restored(Named(b), b), k + 1) && CleanConfig(Named(Restored(Named(b), b)))
  {
    hide CleanPeer, CleanSubnet, CleanHost, GainedTimes, SubnetRead;
    var d := Restored(Named(b), b);
    SubnetReadClean(c.subnets[0]);
    NameKept(c.peer.value);
    NamedPeerClean(d.peer.value);
    GainedIndex(b.hosts);
    GainedClean(b.hosts);
    forall i | 0 <= i < |c.hosts|
      ensures Gained(b.hosts[i]) == GainedTimes(c.hosts[i], k + 1)
    {
      GainOnce(c.hosts[i], k);
    }
  }

  lemma NameKept(p: Peer)
    requires CleanPeer(p)
    ensures p.(name := Some(Show(p.name))) == p
  {
  }

  /** After `k` cycles each host name ends in `k` more blanks; pools are on, and a disabled peer is lost
      and replaced by one named `None`; nothing else has changed. */
  lemma {:induction false} CyclesGainBlanks(cr: string, c: Config, k: nat, turns: nat)
    requires IsCr(cr) && CleanConfig(c) && turns > |c.hosts|
    ensures After(c, Cycles(cr, c, k, turns), k) && CleanConfig(Named(Cycles(cr, c, k, turns)))
    decreases k
  {
    hide CleanConfig, PrintConfig, Make, After, Named, Restored;
    AfterNone(c);
    if k > 0 {
      var b := Cycles(cr, c, k - 1, turns);
      CyclesGainBlanks(cr, c, k - 1, turns);
      AfterHosts(c, b, k - 1);
      NamedPrints(cr, b);
      RoundTrip(cr, Named(b), b, turns);
      AfterOneMore(c, b, k - 1);
    }
  }

  lemma AfterHosts(c: Config, b: Config, k: nat)
    requires CleanConfig(c) && After(c, b, k)
    ensures |b.hosts| == |c.hosts| && Named(b).hosts == b.hosts
  {
    hide CleanConfig, GainedTimes;
  }

  lemma GainOnce(h: Host, k: nat)
    ensures Gained(GainedTimes(h, k)) == GainedTimes(h, k + 1)
  {
    if h.host.Some? {
      assert h.host.value + Blanks(k) + " " == h.host.value + Blanks(k + 1);
    }
  }

  /** `k` times write the configuration to its file and read it back. */
  function FileCycles(c: Config, k: nat, turns: nat): Config {
    if k == 0 then c else
      var before := FileCycles(c, k - 1, turns);
      Make(UniversalNewlines(PrintConfig("\r", before)), before, turns).config
  }

  /** The same through the file. */
  lemma {:induction false} FileCyclesGainBlanks(c: Config, k: nat, turns: nat)
    requires CleanConfig(c) && turns > |c.hosts|
    ensures After(c, FileCycles(c, k, turns), k) && CleanConfig(Named(FileCycles(c, k, turns)))
    decreases k
  {
    hide CleanConfig, PrintConfig, Make, After, Named, Restored, UniversalNewlines;
    AfterNone(c);
    if k > 0 {
      var b := FileCycles(c, k - 1, turns);
      FileCyclesGainBlanks(c, k - 1, turns);
      AfterHosts(c, b, k - 1);
      NamedPrints("\r", b);
      FileRoundTrip(Named(b), b, turns);
      AfterOneMore(c, b, k - 1);
    }
  }

  // ---------------------------------------------------------------------
  // Values that are clean
  // ---------------------------------------------------------------------

  lemma LetterFree(v: string, k: string)
    requires forall c | c in v :: '0' <= c <= '9' || c == '.'
    requires k != "" && 'a' <= k[0] <= 'z'
    ensures !Contains(v, k)
  {
    AbsentChar(v, k, k[0]);
  }

  lemma NumberChar(c: char)
    requires '0' <= c <= '9' || c == '.'
    ensures c !in "\n\r;{}\"" && !IsSpace(c)
  {
  }

  /** Numbers and dotted addresses are clean: every keyword starts with a letter. */
  lemma NumbersAreClean(v: string)
    requires forall c | c in v :: '0' <= c <= '9' || c == '.'
    ensures Clean(v)
  {
    hide Contains;
    forall c | c in v
      ensures c !in "\n\r;{}\"" && !IsSpace(c)
    {
      NumberChar(c);
    }
    LetterFree(v, PRIMARY);
    LetterFree(v, ADDRESS);
    LetterFree(v, PORT);
    LetterFree(v, MAX_RESPONSE_DELAY);
    LetterFree(v, MAX_UNACKED_UPDATES);
    LetterFree(v, MCLT);
    LetterFree(v, SPLIT);
    LetterFree(v, LOAD_BALANCE);
    LetterFree(v, FAILOVER_PEER);
    LetterFree(v, SUBNET);
    LetterFree(v, NTP);
    LetterFree(v, ROUTERS);
    LetterFree(v, DNS);
    LetterFree(v, INTERFACE);
    LetterFree(v, AUTHORITATIVE);
    LetterFree(v, POOL);
    LetterFree(v, RANGE);
    LetterFree(v, HOST);
    LetterFree(v, HARDWARE);
  }
}
