/** What the printed configuration declares, read by another reader than the program's own: one that takes
    the words of the lines that begin with a keyword. */
module DhcpDeclares {
  import opened Common
  import opened Text
  import opened Lines
  import opened DhcpText
  import opened DhcpKeywords
  import opened DhcpPeerTrip
  import opened DhcpDisabledPeer
  import opened DhcpHostsTrip
  import opened DhcpHostScan
  import opened DhcpSubnetTrip
  import opened DhcpRoundTrip
  import Ipv4

  // ---------------------------------------------------------------------
  // The reader
  // ---------------------------------------------------------------------

  /** The first word of a line, or nothing for a blank one. */
  function Keyword(line: string): string {
    FirstWord(StripLeft(line))
  }

  /** The words of the lines that begin with the keyword, line by line. */
  function DeclaredIn(lines: seq<string>, key: string): seq<seq<string>> {
    if lines == [] then []
    else (if Keyword(lines[0]) == key then [Words(lines[0])] else []) + DeclaredIn(lines[1..], key)
  }

  function Declared(text: string, key: string): seq<seq<string>> {
    DeclaredIn(Split(text, NL), key)
  }

  lemma {:induction false} DeclaredConcat(a: seq<string>, b: seq<string>, key: string)
    ensures DeclaredIn(a + b, key) == DeclaredIn(a, key) + DeclaredIn(b, key)
    decreases |a|
  {
    hide Keyword, Words;
    if a == [] {
      assert a + b == b;
    } else {
      assert a == [a[0]] + a[1..] && a + b == [a[0]] + (a[1..] + b);
      DeclaredConcat(a[1..], b, key);
      DeclaredOne(a[0], a[1..], key);
      DeclaredOne(a[0], a[1..] + b, key);
      hide DeclaredIn;
      Assoc(if Keyword(a[0]) == key then [Words(a[0])] else [], DeclaredIn(a[1..], key), DeclaredIn(b, key));
    }
  }

  lemma {:induction false} DeclaredNone(lines: seq<string>, key: string)
    requires forall l | l in lines :: Keyword(l) != key
    ensures DeclaredIn(lines, key) == []
  {
    hide Keyword, Words;
    if lines != [] {
      DeclaredNone(lines[1..], key);
    }
  }

  lemma DeclaredOne(line: string, rest: seq<string>, key: string)
    ensures DeclaredIn([line] + rest, key) == (if Keyword(line) == key then [Words(line)] else []) + DeclaredIn(rest, key)
  {
    assert ([line] + rest)[1..] == rest;
  }

  lemma KeywordIs(pad: string, w: string, rest: string)
    requires Blank(pad) && w != "" && Token(w) && (rest != "" ==> IsSpace(rest[0]))
    ensures Keyword(pad + w + rest) == w
  {
    assert pad + w + rest == pad + (w + rest);
    StripLeftPad(pad, w + rest);
    FirstWordIs(w, rest);
  }

  lemma {:induction false} WordsConcat(a: string, b: string)
    ensures Words(a + " " + b) == Words(a) + Words(b)
    decreases |a|
  {
    if a == "" {
      assert "" + " " + b == " " + b;
      WordsSpace(b);
    } else if IsSpace(a[0]) {
      WordsConcat(a[1..], b);
      LeadingSpace(a, b);
    } else {
      hide Words, FirstWord;
      var w := FirstWord(a);
      FirstWordParts(a);
      var rest := a[|w|..];
      assert a == w + rest;
      WordsConcat(rest, b);
      WordThen(w, rest, b);
      Assoc([w], Words(rest), Words(b));
    }
  }

  lemma LeadingSpace(a: string, b: string)
    requires a != "" && IsSpace(a[0])
    ensures Words(a) == Words(a[1..]) && Words(a + " " + b) == Words(a[1..] + " " + b)
  {
    assert (a + " " + b)[1..] == a[1..] + " " + b;
  }

  lemma WordThen(w: string, rest: string, b: string)
    requires w != "" && Token(w) && (rest != "" ==> IsSpace(rest[0]))
    ensures Words(w + rest) == [w] + Words(rest)
    ensures Words(w + rest + " " + b) == [w] + Words(rest + " " + b)
  {
    hide Words;
    WordsStep(w, rest);
    WordsStep(w, rest + " " + b);
    assert w + rest + " " + b == w + (rest + " " + b);
  }

  lemma {:induction false} FirstWordParts(a: string)
    requires a != "" && !IsSpace(a[0])
    ensures var w := FirstWord(a); w != "" && Token(w) && w <= a && (a[|w|..] != "" ==> IsSpace(a[|w|]))
  {
    if |a| > 1 && !IsSpace(a[1]) {
      FirstWordParts(a[1..]);
    }
  }

  lemma TokenWords(w: string)
    requires w != "" && Token(w)
    ensures Words(w) == [w]
  {
    WordsStep(w, "");
    assert w + "" == w;
  }

  // ---------------------------------------------------------------------
  // The lines that declare nothing of interest
  // ---------------------------------------------------------------------

  const LEASE_TIME := "default-lease-time"
  const MAX_LEASE_TIME := "max-lease-time"

  /** The keywords looked for. */
  predicate Sought(w: string) {
    w == "subnet" || w == LEASE_TIME || w == MAX_LEASE_TIME || w == "primary;" || w == "secondary;"
  }

  predicate Quiet(line: string) {
    !Sought(Keyword(line))
  }

  lemma QuietNone(lines: seq<string>, key: string)
    requires (forall l | l in lines :: Quiet(l)) && Sought(key)
    ensures DeclaredIn(lines, key) == []
  {
    hide Keyword;
    DeclaredNone(lines, key);
  }

  lemma WordQuiet(pad: string, w: string, rest: string)
    requires Blank(pad) && w != "" && Token(w) && (rest != "" ==> IsSpace(rest[0])) && !Sought(w)
    ensures Quiet(pad + w + rest)
  {
    hide Keyword, Sought;
    KeywordIs(pad, w, rest);
  }

  /** The first word of a key, and what follows it. */
  lemma KeyQuiet(pad: string, key: string, v: string, w: string, tail: string)
    requires Blank(pad) && key == w + tail && w != "" && Token(w) && !Sought(w) && (tail != "" ==> tail[0] == ' ')
    ensures Quiet(pad + key + " " + v + ";")
  {
    hide Sought;
    var rest := tail + " " + v + ";";
    assert pad + key + " " + v + ";" == pad + w + rest;
    assert rest[0] == ' ';
    WordQuiet(pad, w, rest);
  }

  lemma OptQuiet(key: string, v: Option<string>, w: string, tail: string)
    requires key == w + tail && w != "" && Token(w) && !Sought(w) && (tail != "" ==> tail[0] == ' ')
    ensures forall l | l in OptLine("\t", key, v) :: Quiet(l)
  {
    hide Sought, Quiet;
    if v.Some? {
      KeyQuiet("\t", key, v.value, w, tail);
    }
  }

  lemma BlankQuiet(line: string)
    requires Blank(line)
    ensures Quiet(line)
  {
    StripLeftPad(line, "");
    assert line + "" == line;
  }

  lemma BraceQuiet(pad: string)
    requires Blank(pad)
    ensures Quiet(pad + "}")
  {
    WordQuiet(pad, "}", "");
    assert pad + "}" + "" == pad + "}";
  }

  lemma PeerKeysQuiet(p: Peer)
    ensures forall l | l in OptLine("\t", ADDRESS, p.address) :: Quiet(l)
    ensures forall l | l in OptLine("\t", PORT, p.port) :: Quiet(l)
    ensures forall l | l in OptLine("\t", PEER_ADDRESS, p.peerAddress) :: Quiet(l)
    ensures forall l | l in OptLine("\t", PEER_PORT, p.peerPort) :: Quiet(l)
    ensures forall l | l in OptLine("\t", MCLT, p.mclt) :: Quiet(l)
  {
    hide Quiet, OptLine;
    OptQuiet(ADDRESS, p.address, "address", "");
    OptQuiet(PORT, p.port, "port", "");
    OptQuiet(PEER_ADDRESS, p.peerAddress, "peer", " address");
    OptQuiet(PEER_PORT, p.peerPort, "peer", " port");
    OptQuiet(MCLT, p.mclt, "mclt", "");
  }

  lemma PeerLimitsQuiet(p: Peer)
    ensures forall l | l in OptLine("\t", MAX_RESPONSE_DELAY, p.maxResponseDelay) :: Quiet(l)
    ensures forall l | l in OptLine("\t", MAX_UNACKED_UPDATES, p.maxUnackedUpdates) :: Quiet(l)
  {
    hide Quiet, OptLine;
    OptQuiet(MAX_RESPONSE_DELAY, p.maxResponseDelay, "max-response-delay", "");
    OptQuiet(MAX_UNACKED_UPDATES, p.maxUnackedUpdates, "max-unacked-updates", "");
  }

  lemma PeerSharesQuiet(p: Peer)
    ensures forall l | l in OptLine("\t", SPLIT, p.split) :: Quiet(l)
    ensures forall l | l in OptLine("\t", LOAD_BALANCE, p.loadBalance) :: Quiet(l)
  {
    hide Quiet, OptLine;
    OptQuiet(SPLIT, p.split, "split", "");
    OptQuiet(LOAD_BALANCE, p.loadBalance, "load", " balance max seconds");
  }

  lemma PeerEndQuiet(cr: string)
    requires IsCr(cr)
    ensures forall l | l in CrLine(cr, "", "}") :: Quiet(l)
  {
    BlankQuiet("");
    BraceQuiet("");
    BraceQuiet("\r");
    assert "" + cr + "}" == cr + "}" && "" + "}" == "}";
  }

  /** The lines of the peer after its role. */
  lemma PeerFieldsQuiet(cr: string, p: Peer)
    requires IsCr(cr)
    ensures forall l | l in PeerFields(cr, p, []) :: Quiet(l)
  {
    hide Quiet, OptLine, CrLine;
    PeerKeysQuiet(p);
    PeerLimitsQuiet(p);
    PeerSharesQuiet(p);
    PeerEndQuiet(cr);
  }

  lemma PeerFirstQuiet(name: string)
    ensures Quiet(PeerFirst(name))
  {
    var rest := " peer \"" + name + "\" {";
    assert PeerFirst(name) == "" + "failover" + rest;
    WordQuiet("", "failover", rest);
  }

  lemma CommentQuiet(l: string)
    requires IsComment(l)
    ensures Quiet(l)
  {
    assert StripLeft(l) == l && FirstWord(l)[0] == '#';
  }

  lemma SubnetTimeQuiet(s: Subnet)
    ensures forall l | l in OptLine("\t", NTP, s.ntpServers) :: Quiet(l)
  {
    hide Quiet, OptLine;
    OptQuiet(NTP, s.ntpServers, "option", " ntp-servers");
  }

  lemma SubnetAddressesQuiet(s: Subnet)
    ensures forall l | l in OptLine("\t", SUBNET_MASK, s.subnetMask) :: Quiet(l)
    ensures forall l | l in OptLine("\t", BROADCAST, s.broadcast) :: Quiet(l)
  {
    hide Quiet, OptLine;
    OptQuiet(SUBNET_MASK, s.subnetMask, "option", " subnet-mask");
    OptQuiet(BROADCAST, s.broadcast, "option", " broadcast-address");
  }

  lemma SubnetServersQuiet(s: Subnet)
    ensures forall l | l in OptLine("\t", ROUTERS, s.routers) :: Quiet(l)
    ensures forall l | l in OptLine("\t", DNS, s.dnsServers) :: Quiet(l)
    ensures forall l | l in OptLine("\t", INTERFACE, s.interface) :: Quiet(l)
  {
    hide Quiet, OptLine;
    OptQuiet(ROUTERS, s.routers, "option", " routers");
    OptQuiet(DNS, s.dnsServers, "option", " domain-name-servers");
    OptQuiet(INTERFACE, s.interface, "interface", "");
  }

  lemma AuthQuiet(s: Subnet)
    ensures forall l | l in AuthLine(s) :: Quiet(l)
  {
    WordQuiet("\t", "authoritative;", "");
    assert "\t" + "authoritative;" + "" == "\tauthoritative;";
  }

  lemma SubnetFieldsQuiet(s: Subnet)
    ensures forall l | l in SubnetFields(s, []) :: Quiet(l)
  {
    hide Quiet, OptLine, AuthLine;
    SubnetTimeQuiet(s);
    SubnetAddressesQuiet(s);
    SubnetServersQuiet(s);
    AuthQuiet(s);
  }

  lemma FailoverQuiet(v: string, on: bool)
    ensures Quiet(FailoverLine(v, on))
  {
    hide Quoted;
    if on {
      KeyQuiet("\t\t", FailoverKey(on), Quoted(v), "failover", " peer");
    } else {
      KeyQuiet("\t\t", FailoverKey(on), Quoted(v), "#failover", " peer");
    }
  }

  lemma PoolQuiet(p: Pool)
    ensures Quiet("\tpool {") && forall l | l in PoolInner(p) :: Quiet(l)
  {
    WordQuiet("\t", "pool", " {");
    assert "\t" + "pool" + " {" == "\tpool {";
    BraceQuiet("\t");
    assert "\t" + "}" == "\t}";
    hide Quiet, RANGE, FailoverLine;
    if p.failoverPeer.Some? {
      FailoverQuiet(p.failoverPeer.value, p.peerEnabled);
    }
    if p.rangeStart.Some? && p.rangeEnd.Some? {
      RangeQuiet(p.rangeStart.value, p.rangeEnd.value);
    }
  }

  lemma RangeQuiet(first: string, last: string)
    ensures Quiet(RangeLine(first, last))
  {
    KeyQuiet("\t\t", RANGE, first + " " + last, "range", "");
  }

  lemma CrQuiet(cr: string, line: string)
    requires IsCr(cr) && Quiet("    \r" + line) && Quiet(line)
    ensures forall l | l in CrLine(cr, "    ", line) :: Quiet(l)
  {
    hide Quiet;
    BlankQuiet("    ");
    assert "    " + cr == "    \r" || cr == "\n";
  }

  lemma HostKeyQuiet(cr: string, key: string, v: string, w: string, tail: string)
    requires IsCr(cr) && key == w + tail && w != "" && Token(w) && !Sought(w) && (tail != "" ==> tail[0] == ' ')
    ensures forall l | l in CrLine(cr, "    ", "\t" + key + " " + v + ";") :: Quiet(l)
  {
    hide Sought, Quiet;
    var line := "\t" + key + " " + v + ";";
    KeyQuiet("\t", key, v, w, tail);
    KeyQuiet("    \r\t", key, v, w, tail);
    assert "    \r" + line == "    \r\t" + key + " " + v + ";";
    CrQuiet(cr, line);
  }

  lemma HostFirstQuiet(name: string)
    ensures Quiet(HostFirst(name))
  {
    var rest := " " + name + " {";
    assert HostFirst(name) == "" + "host" + rest;
    WordQuiet("", "host", rest);
  }

  lemma HostFieldsQuiet(cr: string, h: Host)
    requires IsCr(cr)
    ensures forall l | l in CrLine(cr, "    ", HardwareText(h)) :: Quiet(l)
    ensures forall l | l in CrLine(cr, "    ", FixedText(h)) :: Quiet(l)
  {
    hide CrLine, Quiet, Show;
    HostKeyQuiet(cr, HARDWARE, Show(h.hwAddr), "hardware", " ethernet");
    HostKeyQuiet(cr, FIXED_ADDRESS, Show(h.fixedAddr), "fixed-address", "");
    assert HardwareText(h) == "\t" + HARDWARE + " " + Show(h.hwAddr) + ";";
    assert FixedText(h) == "\t" + FIXED_ADDRESS + " " + Show(h.fixedAddr) + ";";
  }

  lemma HostQuiet(cr: string, h: Host)
    requires IsCr(cr)
    ensures Quiet(HostFirst(Show(h.host))) && forall l | l in HostBody(cr, h) :: Quiet(l)
  {
    hide CrLine, Quiet, Show, HardwareText, FixedText, HostFirst;
    HostFirstQuiet(Show(h.host));
    HostFieldsQuiet(cr, h);
    BraceQuiet("    \r");
    BraceQuiet("");
    assert "" + "}" == "}";
    CrQuiet(cr, "}");
  }

  lemma {:induction false} HostsQuiet(cr: string, hs: seq<Host>)
    requires IsCr(cr)
    ensures forall l | l in HostsLines(cr, hs) :: Quiet(l)
    decreases |hs|
  {
    hide Quiet, HostFirst, HostBody;
    if hs != [] {
      HostQuiet(cr, hs[0]);
      HostsQuiet(cr, hs[1..]);
    }
  }

  lemma AfterFieldsQuiet(cr: string, p: Pool, hs: seq<Host>)
    requires IsCr(cr)
    ensures forall l | l in AfterFields(cr, p, hs) :: Quiet(l)
  {
    hide Quiet, PoolInner, HostsLines;
    PoolQuiet(p);
    BraceQuiet("");
    assert "" + "}" == "}";
    HostsQuiet(cr, hs);
  }

  // ---------------------------------------------------------------------
  // The lines that declare
  // ---------------------------------------------------------------------

  /** The words of the line that opens the subnet. */
  lemma SubnetWords(net: string, mask: string)
    requires net != "" && Token(net)
    ensures Keyword(SubnetFirst(net, mask)) == "subnet"
    ensures Words(SubnetFirst(net, mask)) == ["subnet", net, "netmask"] + Words(mask) + ["{"]
  {
    hide Words;
    var rest := " " + (net + (" " + ("netmask" + (" " + (mask + " " + "{")))));
    assert SubnetFirst(net, mask) == "subnet" + rest == "" + "subnet" + rest;
    KeywordIs("", "subnet", rest);
    WordsStep("subnet", rest);
    WordsSpace(net + (" " + ("netmask" + (" " + (mask + " " + "{")))));
    WordsStep(net, " " + ("netmask" + (" " + (mask + " " + "{"))));
    WordsSpace("netmask" + (" " + (mask + " " + "{")));
    WordsStep("netmask", " " + (mask + " " + "{"));
    WordsSpace(mask + " " + "{");
    WordsConcat(mask, "{");
    TokenWords("{");
    assert ["subnet"] + ([net] + (["netmask"] + (Words(mask) + ["{"]))) == ["subnet", net, "netmask"] + Words(mask) + ["{"];
  }

  lemma LeaseWords(key: string, n: nat, pad: string)
    requires key != "" && Token(key) && Blank(pad)
    ensures var line := pad + (key + " " + Dec(n) + ";");
      Keyword(line) == key && Words(line) == [key, Dec(n) + ";"]
  {
    hide Words, Dec;
    var v := Dec(n) + ";";
    DecToken(n);
    assert pad + (key + " " + Dec(n) + ";") == pad + key + (" " + v);
    KeywordIs(pad, key, " " + v);
    PadWords(pad, key + (" " + v));
    assert pad + (key + (" " + v)) == pad + key + (" " + v);
    WordsStep(key, " " + v);
    WordsSpace(v);
    TokenWords(v);
  }

  lemma DecToken(n: nat)
    ensures Token(Dec(n) + ";")
  {
    Digits(n);
    hide Dec;
    assert forall c: char | '0' <= c <= '9' || c == ';' :: !IsSpace(c);
  }

  lemma {:induction false} PadWords(pad: string, s: string)
    requires Blank(pad)
    ensures Words(pad + s) == Words(s)
    decreases |pad|
  {
    if pad == "" {
      assert pad + s == s;
    } else {
      assert (pad + s)[1..] == pad[1..] + s;
      PadWords(pad[1..], s);
    }
  }

  /** The line of a lease time, if there is one. */
  function LeaseLine(pad: string, key: string, n: Option<nat>): string {
    if n.Some? then pad + (key + " " + Dec(n.value) + ";") else ""
  }

  lemma LeaseLineDeclares(pad: string, key: string, n: Option<nat>, sought: string)
    requires Blank(pad) && Sought(key) && Sought(sought) && Token(key)
    ensures OneLine(pad) ==> OneLine(LeaseLine(pad, key, n))
    ensures DeclaredIn([LeaseLine(pad, key, n)], sought) ==
      if sought == key && n.Some? then [[key, Dec(n.value) + ";"]] else []
  {
    hide Words, Keyword, Dec;
    DeclaredOne(LeaseLine(pad, key, n), [], sought);
    assert [LeaseLine(pad, key, n)] + [] == [LeaseLine(pad, key, n)];
    if n.Some? {
      LeaseWords(key, n.value, pad);
      Digits(n.value);
      assert '\n' !in key;
    } else {
      BlankQuiet("");
    }
  }

  /** The lease times. */
  lemma HeaderDeclares(cr: string, c: Config, key: string)
    requires IsCr(cr) && Sought(key)
    ensures DeclaredIn(Split(PrintHeader(cr, c), NL), key) ==
      if key == LEASE_TIME && c.defaultLeaseTime.Some? then [[LEASE_TIME, Dec(c.defaultLeaseTime.value) + ";"]]
      else if key == MAX_LEASE_TIME && c.maxLeaseTime.Some? then [[MAX_LEASE_TIME, Dec(c.maxLeaseTime.value) + ";"]]
      else []
  {
    hide Dec, DeclaredIn, Sought, Split, LeaseLine;
    var a, x := LeaseLine("", LEASE_TIME, c.defaultLeaseTime), LeaseLine("", MAX_LEASE_TIME, c.maxLeaseTime);
    LeaseKeys();
    LeaseLineDeclares("", LEASE_TIME, c.defaultLeaseTime, key);
    LeaseLineDeclares("", MAX_LEASE_TIME, c.maxLeaseTime, key);
    LeaseLineDeclares("\r", MAX_LEASE_TIME, c.maxLeaseTime, key);
    SplitOneLine(a);
    HeaderText(cr, c);
    if c.maxLeaseTime.Some? {
      BlankNone(key);
      SplitOneLine("");
      SplitOneLine(x);
      SplitOneLine(LeaseLine("\r", MAX_LEASE_TIME, c.maxLeaseTime));
      if cr == "\r" {
        SplitTwoTexts(a, LeaseLine("\r", MAX_LEASE_TIME, c.maxLeaseTime));
        DeclaredConcat([a], [LeaseLine("\r", MAX_LEASE_TIME, c.maxLeaseTime)], key);
      } else {
        SplitTwoTexts(a, "" + NL + x);
        SplitTwoTexts("", x);
        DeclaredConcat([a], [""] + [x], key);
        DeclaredConcat([""], [x], key);
      }
    }
  }

  lemma LeaseKeys()
    ensures Sought(LEASE_TIME) && Sought(MAX_LEASE_TIME) && Token(LEASE_TIME) && Token(MAX_LEASE_TIME)
    ensures LEASE_TIME != MAX_LEASE_TIME && OneLine("") && OneLine("\r") && Blank("") && Blank("\r")
  {
  }

  lemma BlankNone(key: string)
    requires Sought(key)
    ensures DeclaredIn([""], key) == []
  {
    hide Sought;
    BlankQuiet("");
    QuietNone([""], key);
  }

  lemma HeaderText(cr: string, c: Config)
    requires IsCr(cr)
    ensures var a := LeaseLine("", LEASE_TIME, c.defaultLeaseTime);
      PrintHeader(cr, c) ==
        if c.maxLeaseTime.None? then a
        else if cr == "\r" then a + NL + LeaseLine("\r", MAX_LEASE_TIME, c.maxLeaseTime)
        else a + NL + ("" + NL + LeaseLine("", MAX_LEASE_TIME, c.maxLeaseTime))
  {
    hide Dec;
    var a := LeaseLine("", LEASE_TIME, c.defaultLeaseTime);
    if c.defaultLeaseTime.Some? {
      assert a == "default-lease-time " + Dec(c.defaultLeaseTime.value) + ";";
    }
    if c.maxLeaseTime.Some? {
      var x := "max-lease-time " + Dec(c.maxLeaseTime.value) + ";";
      assert LeaseLine("", MAX_LEASE_TIME, c.maxLeaseTime) == x && LeaseLine("\r", MAX_LEASE_TIME, c.maxLeaseTime) == "\r" + x;
      assert a + (NL + (cr + x)) == a + NL + (cr + x);
      assert "" + NL + x == NL + x;
    } else {
      assert a + "" == a;
    }
  }

  /** The subnet to the end of the file. */
  lemma SubnetDeclares(cr: string, s: Subnet, hs: seq<Host>, key: string)
    requires IsCr(cr) && CleanSubnet(s) && CleanHosts(hs) && Sought(key)
    ensures DeclaredIn(Split(SubnetToEnd(cr, s, hs), NL), key) ==
      if key == "subnet" then [["subnet", s.subnet.value, "netmask"] + Words(Show(s.subnetMask)) + ["{"]] else []
  {
    hide Clean, CleanPool, CleanHosts, Contains, SubnetFields, AfterFields, SubnetToEnd, Quiet, Sought, SubnetFirst,
         Words, Keyword, DeclaredIn;
    assert s.pools != [] by {
      HasPool(s);
    }
    var rest := AfterFields(cr, s.pools[0], hs);
    SubnetToEndSplit(cr, s, hs);
    SubnetFieldsRest(s, rest);
    SubnetFieldsQuiet(s);
    AfterFieldsQuiet(cr, s.pools[0], hs);
    QuietNone(SubnetFields(s, rest), key);
    DeclaredOne(FirstOf(s), SubnetFields(s, rest), key);
    SubnetWords(s.subnet.value, Show(s.subnetMask));
    var d := [Words(FirstOf(s))];
    assert d + [] == d;
  }

  /** The peer: its role, if it is enabled. */
  lemma PeerDeclares(cr: string, p: Peer, key: string)
    requires IsCr(cr) && CleanPeer(p) && Sought(key)
    ensures DeclaredIn(Split(PrintPeer(cr, p), NL), key) ==
      if p.enabled && key == (if p.primary then "primary;" else "secondary;") then [[key]] else []
  {
    hide CleanPeer, Contains, Quiet, Sought, PeerText, DeclaredIn, Keyword, Words, Silent;
    if p.enabled {
      EnabledDeclares(cr, p, key);
    } else {
      DisabledSilent(cr, p);
      SilentLines(PrintPeer(cr, p));
      forall l | l in Split(PrintPeer(cr, p), NL) ensures Quiet(l) {
        CommentQuiet(l);
      }
      QuietNone(Split(PrintPeer(cr, p), NL), key);
    }
  }

  lemma SilentLines(text: string)
    requires Silent(text)
    ensures forall l | l in Split(text, NL) :: IsComment(l)
  {
  }

  lemma EnabledDeclares(cr: string, p: Peer, key: string)
    requires IsCr(cr) && CleanPeer(p) && Sought(key)
    ensures DeclaredIn(Split(PeerText(cr, p), NL), key) ==
      if key == (if p.primary then "primary;" else "secondary;") then [[key]] else []
  {
    hide Clean, Contains, Quiet, Sought, PeerText, PeerFirst, PeerFields, DeclaredIn, Keyword, Words;
    var first, role := PeerFirst(p.name.value), if p.primary then "\tprimary;" else "secondary;";
    PeerLinesPassed(cr, p);
    PeerTextLines(cr, p, []);
    OneLinePassed(PeerBody(cr, p, []));
    SplitBelow(first, PeerBody(cr, p, []));
    assert OneLine(first);
    SplitOneLine(first);
    DeclaredOne(first, PeerBody(cr, p, []), key);
    DeclaredOne(role, PeerFields(cr, p, []), key);
    PeerFirstQuiet(p.name.value);
    QuietNot(first, key);
    PeerFieldsQuiet(cr, p);
    QuietNone(PeerFields(cr, p, []), key);
    RoleWords(p.primary);
  }

  lemma QuietNot(line: string, key: string)
    requires Quiet(line) && Sought(key)
    ensures Keyword(line) != key
  {
  }

  lemma RoleWords(primary: bool)
    ensures var line, w := if primary then "\tprimary;" else "secondary;", if primary then "primary;" else "secondary;";
      Keyword(line) == w && Words(line) == [w]
  {
    if primary {
      KeywordIs("\t", "primary;", "");
      assert "\t" + "primary;" + "" == "\tprimary;";
      PadWords("\t", "primary;");
      TokenWords("primary;");
    } else {
      KeywordIs("", "secondary;", "");
      assert "" + "secondary;" + "" == "secondary;";
      TokenWords("secondary;");
    }
  }

  // ---------------------------------------------------------------------
  // The whole file
  // ---------------------------------------------------------------------

  lemma ConfigDeclares(cr: string, c: Config, key: string)
    requires IsCr(cr) && CleanConfig(c) && Sought(key)
    ensures Declared(PrintConfig(cr, c), key) ==
      DeclaredIn(Split(PrintHeader(cr, c), NL), key)
      + DeclaredIn(Split(PrintPeer(cr, c.peer.value), NL), key)
      + DeclaredIn(Split(SubnetToEnd(cr, c.subnets[0], c.hosts), NL), key)
  {
    hide CleanPeer, CleanSubnet, CleanHosts, Sought, DeclaredIn, Split, PrintHeader, PrintPeer, SubnetToEnd, ConfigWith;
    var text, t := PrintPeer(cr, c.peer.value), SubnetToEnd(cr, c.subnets[0], c.hosts);
    assert PrintConfig(cr, c) == ConfigWith(cr, c, text) by {
      ConfigIsWith(cr, c);
    }
    ConfigSplit(cr, c, text);
    SplitTwoTexts(text + NL + "", t);
    SplitTwoTexts(text, "");
    SplitOneLine("");
    BlankNone(key);
    var head, peer, end := Split(PrintHeader(cr, c), NL), Split(text, NL), Split(t, NL);
    DeclaredConcat(head + [""], peer + [""] + end, key);
    DeclaredConcat(head, [""], key);
    DeclaredConcat(peer + [""], end, key);
    DeclaredConcat(peer, [""], key);
    AssocDeclared(DeclaredIn(head, key), DeclaredIn(peer, key), DeclaredIn(end, key));
  }

  lemma ConfigIsWith(cr: string, c: Config)
    requires CleanConfig(c)
    ensures PrintConfig(cr, c) == ConfigWith(cr, c, PrintPeer(cr, c.peer.value))
  {
  }

  lemma AssocDeclared(a: seq<seq<string>>, b: seq<seq<string>>, d: seq<seq<string>>)
    ensures a + [] + (b + [] + d) == a + b + d
  {
  }

  /** The text has one line that begins with the keyword, and its one value is the number; or no such line, if
      there is no number. */
  ghost predicate DeclaresNumber(text: string, key: string, n: Option<nat>) {
    if n.None? then Declared(text, key) == []
    else exists v :: Declared(text, key) == [[key, v + ";"]] && Ipv4.ParseInt(v) == Ok(n.value)
  }

  /** What a printed configuration declares, its peer enabled or not: one subnet, with its address and its mask;
      each lease time that is set, once, and by its number; and the role of the peer, if it is enabled. */
  lemma ConfigDeclaresAll(cr: string, c: Config)
    requires IsCr(cr) && CleanConfig(c)
    ensures var text, s, p := PrintConfig(cr, c), c.subnets[0], c.peer.value;
      && Declared(text, "subnet") == [["subnet", s.subnet.value, "netmask"] + Words(Show(s.subnetMask)) + ["{"]]
      && (s.subnetMask.Some? && s.subnetMask.value != "" && Token(s.subnetMask.value) ==>
            Declared(text, "subnet") == [["subnet", s.subnet.value, "netmask", s.subnetMask.value, "{"]])
      && DeclaresNumber(text, "default-lease-time", c.defaultLeaseTime)
      && DeclaresNumber(text, "max-lease-time", c.maxLeaseTime)
      && Declared(text, "primary;") == (if p.enabled && p.primary then [["primary;"]] else [])
      && Declared(text, "secondary;") == (if p.enabled && !p.primary then [["secondary;"]] else [])
  {
    hide Clean, CleanPeer, CleanSubnet, CleanHosts, Declared, DeclaredIn, Split, PrintHeader, PrintPeer, SubnetToEnd,
         PrintConfig, Words, Dec, Ipv4.ParseInt;
    var s, p := c.subnets[0], c.peer.value;
    assert s.subnet.Some? by {
      HasSubnetAddress(s);
    }
    KeyDeclares(cr, c, "subnet");
    KeyDeclares(cr, c, "default-lease-time");
    KeyDeclares(cr, c, "max-lease-time");
    KeyDeclares(cr, c, "primary;");
    KeyDeclares(cr, c, "secondary;");
    if s.subnetMask.Some? && s.subnetMask.value != "" && Token(s.subnetMask.value) {
      TokenWords(s.subnetMask.value);
      var net, mask := s.subnet.value, s.subnetMask.value;
      assert ["subnet", net, "netmask"] + [mask] + ["{"] == ["subnet", net, "netmask", mask, "{"];
    }
    NumberDeclared(PrintConfig(cr, c), LEASE_TIME, c.defaultLeaseTime);
    NumberDeclared(PrintConfig(cr, c), MAX_LEASE_TIME, c.maxLeaseTime);
  }

  lemma NumberDeclared(text: string, key: string, n: Option<nat>)
    requires Declared(text, key) == if n.Some? then [[key, Dec(n.value) + ";"]] else []
    ensures DeclaresNumber(text, key, n)
  {
    hide Declared, Dec, Ipv4.ParseInt;
    if n.Some? {
      Ipv4.ParseDec(n.value);
    }
  }

  lemma HasSubnetAddress(s: Subnet)
    requires CleanSubnet(s)
    ensures s.subnet.Some?
  {
  }

  /** The three parts together: at most one of them declares the keyword. */
  lemma KeyDeclares(cr: string, c: Config, key: string)
    requires IsCr(cr) && CleanConfig(c) && Sought(key)
    ensures c.subnets[0].subnet.Some?
    ensures Declared(PrintConfig(cr, c), key) ==
      if key == "subnet" then [["subnet", c.subnets[0].subnet.value, "netmask"] + Words(Show(c.subnets[0].subnetMask)) + ["{"]]
      else if key == LEASE_TIME then
        if c.defaultLeaseTime.Some? then [[LEASE_TIME, Dec(c.defaultLeaseTime.value) + ";"]] else []
      else if key == MAX_LEASE_TIME then
        if c.maxLeaseTime.Some? then [[MAX_LEASE_TIME, Dec(c.maxLeaseTime.value) + ";"]] else []
      else if c.peer.value.enabled && key == (if c.peer.value.primary then "primary;" else "secondary;") then [[key]]
      else []
  {
    hide Clean, CleanPeer, CleanSubnet, CleanHosts, Declared, DeclaredIn, Split, PrintHeader, PrintPeer, SubnetToEnd,
         PrintConfig, Words, Dec;
    HasSubnetAddress(c.subnets[0]);
    ConfigDeclares(cr, c, key);
    HeaderDeclares(cr, c, key);
    PeerDeclares(cr, c.peer.value, key);
    SubnetDeclares(cr, c.subnets[0], c.hosts, key);
  }
}
