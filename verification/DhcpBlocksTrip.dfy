/** Reading back the printed subnet block, its pool and the reserved hosts. */
module DhcpBlocksTrip {
  import opened Common
  import opened Text
  import opened Lines
  import opened DhcpText
  import opened DhcpKeywords
  import opened DhcpPeerTrip

  /** A line without effect on the subnet fields. */
  ghost predicate NoSubnetKey(line: string) {
    && !StartsWith(Strip(line), SUBNET)
    && !Contains(line, NTP) && !Contains(line, SUBNET_MASK) && !Contains(line, BROADCAST)
    && !Contains(line, ROUTERS) && !Contains(line, DNS)
    && !Contains(line, INTERFACE) && !Contains(line, AUTHORITATIVE)
  }

  /** A line without effect on the pool fields. */
  ghost predicate NoPoolKey(line: string) {
    !Contains(line, FAILOVER_PEER) && !Contains(line, RANGE)
  }

  lemma LettersOfOptions()
    ensures 'o' in NTP && 'p' in NTP && 't' in NTP && 'i' in NTP && 'v' in NTP && ';' !in NTP
    ensures 'o' in ROUTERS && 'p' in ROUTERS && 't' in ROUTERS && 'i' in ROUTERS && ';' !in ROUTERS
  {
  }

  lemma LettersOfMask()
    ensures 'o' in SUBNET_MASK && 'p' in SUBNET_MASK && 't' in SUBNET_MASK && 'i' in SUBNET_MASK
    ensures 'k' in SUBNET_MASK && ';' !in SUBNET_MASK
  {
  }

  lemma LettersOfBroadcast()
    ensures 'o' in BROADCAST && 'p' in BROADCAST && 't' in BROADCAST && 'i' in BROADCAST
    ensures 'b' in BROADCAST && ';' !in BROADCAST
  {
  }

  lemma LettersOfRouters()
    ensures 'u' in ROUTERS
  {
  }

  lemma LettersOfDns()
    ensures 'o' in DNS && 'p' in DNS && 't' in DNS && 'i' in DNS
    ensures 'm' in DNS && ';' !in DNS
  {
  }

  lemma LettersOfSwitches()
    ensures 'n' in INTERFACE && 'i' in INTERFACE && 't' in INTERFACE && ' ' !in INTERFACE && ';' !in INTERFACE
    ensures 'o' in AUTHORITATIVE && 'i' in AUTHORITATIVE && 't' in AUTHORITATIVE
    ensures ' ' !in AUTHORITATIVE && ';' !in AUTHORITATIVE
  {
  }

  lemma LettersOfPools()
    ensures 'f' in FAILOVER_PEER && 'o' in FAILOVER_PEER && ';' !in FAILOVER_PEER
    ensures 'g' in RANGE && 'n' in RANGE && ' ' !in RANGE && ';' !in RANGE
    ensures 'l' in POOL && ' ' !in POOL && ';' !in POOL
    ensures 'h' in HOST && 's' in HOST && ' ' !in HOST && ';' !in HOST
  {
  }

  /** A key without one of the letters of `option` keeps every option keyword out of its line. */
  lemma OptionsFree(indent: string, key: string, v: string, c: char)
    requires Blank(indent) && key != "" && key[|key| - 1] != 'n'
    requires c == 'o' || c == 'p' || c == 't' || c == 'i'
    requires c !in key && !Contains(v, NTP) && !Contains(v, SUBNET_MASK) && !Contains(v, BROADCAST)
    requires !Contains(v, ROUTERS) && !Contains(v, DNS)
    ensures var line := indent + key + " " + v + ";";
            && !Contains(line, NTP) && !Contains(line, SUBNET_MASK) && !Contains(line, BROADCAST)
            && !Contains(line, ROUTERS) && !Contains(line, DNS)
  {
    hide Contains, Spaced, NTP, SUBNET_MASK, BROADCAST, ROUTERS, DNS;
    SpacingOptions();
    LettersOfOptions();
    LettersOfMask();
    LettersOfBroadcast();
    LettersOfDns();
    PhraseFree(indent, key, v, NTP, c, "n");
    PhraseFree(indent, key, v, SUBNET_MASK, c, "n");
    PhraseFree(indent, key, v, BROADCAST, c, "n");
    PhraseFree(indent, key, v, ROUTERS, c, "n");
    PhraseFree(indent, key, v, DNS, c, "n");
  }

  /** A `key value;` line of a block that is not the subnet's own. */
  lemma KeyLineNoSubnetKey(indent: string, key: string, v: string, c: char)
    requires Blank(indent) && key != "" && !IsSpace(key[0]) && key[0] != 's' && key[|key| - 1] != 'n'
    requires c == 't' || c == 'i'
    requires c !in key && !Contains(v, NTP) && !Contains(v, SUBNET_MASK) && !Contains(v, BROADCAST)
    requires !Contains(v, ROUTERS) && !Contains(v, DNS)
    requires !Contains(v, INTERFACE) && !Contains(v, AUTHORITATIVE)
    ensures NoSubnetKey(indent + key + " " + v + ";")
  {
    hide Contains, Spaced, INTERFACE, AUTHORITATIVE;
    LettersOfSwitches();
    OptionsFree(indent, key, v, c);
    WordFree(indent, key, v, INTERFACE, c);
    WordFree(indent, key, v, AUTHORITATIVE, c);
    NotSubnetStart(indent, key + (" " + v + ";"));
    assert indent + (key + (" " + v + ";")) == indent + key + " " + v + ";";
  }

  lemma NotSubnetStart(pad: string, text: string)
    requires Blank(pad) && text != "" && !IsSpace(text[0]) && !IsSpace(text[|text| - 1]) && text[0] != 's'
    ensures !StartsWith(Strip(pad + text), SUBNET)
  {
    StripPad(pad, text);
    if MatchAt(text, SUBNET, 0) {
      MatchChar(text, SUBNET, 0, 0);
    }
  }

  // ---------------------------------------------------------------------
  // The lines of the subnet
  // ---------------------------------------------------------------------

  /** A line above the pool: the search for `pool` and the search for `host` pass it. */
  ghost predicate AbovePool(line: string) {
    OneLine(line) && !Contains(line, POOL) && !Contains(line, HOST)
  }

  lemma SubnetKeyAbovePool(key: string, v: string)
    requires '\n' !in key && key != "" && Clean(v) && 'l' !in key && 'h' !in key
    ensures AbovePool("\t" + key + " " + v + ";")
  {
    hide Contains, POOL, HOST;
    LettersOfPools();
    WordFree("\t", key, v, POOL, 'l');
    WordFree("\t", key, v, HOST, 'h');
    LineOfPeer(key, v);
  }

  /** What every option line shares: its value is read, and it does not open a subnet. */
  lemma OptionRead(key: string, v: string)
    requires '\n' !in key && ';' !in key && key != "" && key[0] != 's' && !IsSpace(key[0])
    requires Clean(v) && !Contains(v, key) && 'l' !in key && 'h' !in key
    ensures var line := "\t" + key + " " + v + ";";
            && Contains(line, key) && Field(line, key) == Ok(v)
            && !StartsWith(Strip(line), SUBNET) && AbovePool(line)
  {
    hide Contains, Field, Clean;
    assert Plain(v) by {
      PlainOfClean(v);
    }
    KeyRead("\t", key, v);
    SubnetKeyAbovePool(key, v);
    NotSubnetStart("\t", key + (" " + v + ";"));
    assert "\t" + (key + (" " + v + ";")) == "\t" + key + " " + v + ";";
  }

  lemma PlainOfClean(v: string)
    requires Clean(v)
    ensures Plain(v)
  {
  }

  predicate IsOption(key: string) {
    && key != "" && key[0] == 'o' && key[|key| - 1] != 'n'
    && ';' !in key && '\n' !in key && 'l' !in key && 'h' !in key
  }

  /** The absences in a clean value that the subnet lines need. */
  lemma CleanAbsences(v: string)
    requires Clean(v)
    ensures !Contains(v, NTP) && !Contains(v, SUBNET_MASK) && !Contains(v, BROADCAST)
    ensures !Contains(v, ROUTERS) && !Contains(v, DNS)
    ensures !Contains(v, INTERFACE) && !Contains(v, AUTHORITATIVE)
  {
    CleanLonger(v);
  }

  lemma NtpIsOption()
    ensures IsOption(NTP)
  {
  }

  lemma NtpLine(s: Subnet, v: string)
    requires Clean(v)
    ensures var line := "\t" + NTP + " " + v + ";";
            SubnetField(s, line) == Ok(s.(ntpServers := Some(v))) && AbovePool(line)
  {
    hide Contains, Field, MatchAt, Spaced, Clean, NTP, SUBNET_MASK, BROADCAST, ROUTERS, DNS;
    CleanAbsences(v);
    NtpIsOption();
    OptionRead(NTP, v);
  }

  lemma SubnetMaskIsOption()
    ensures IsOption(SUBNET_MASK)
  {
  }

  lemma SubnetMaskLetters()
    ensures 'v' !in SUBNET_MASK
  {
  }

  lemma SubnetMaskLine(s: Subnet, v: string)
    requires Clean(v)
    ensures var line := "\t" + SUBNET_MASK + " " + v + ";";
            SubnetField(s, line) == Ok(s.(subnetMask := Some(v))) && AbovePool(line)
  {
    hide Contains, Field, MatchAt, Spaced, Clean, NTP, SUBNET_MASK, BROADCAST, ROUTERS, DNS;
    CleanAbsences(v);
    SubnetMaskIsOption();
    SubnetMaskLetters();
    LettersOfOptions();
    SpacingOptions();
    OptionRead(SUBNET_MASK, v);
    PhraseFree("\t", SUBNET_MASK, v, NTP, 'v', "n");
  }

  lemma BroadcastIsOption()
    ensures IsOption(BROADCAST)
  {
  }

  lemma BroadcastLetters()
    ensures 'v' !in BROADCAST && 'k' !in BROADCAST
  {
  }

  lemma BroadcastLine(s: Subnet, v: string)
    requires Clean(v)
    ensures var line := "\t" + BROADCAST + " " + v + ";";
            SubnetField(s, line) == Ok(s.(broadcast := Some(v))) && AbovePool(line)
  {
    hide Contains, Field, MatchAt, Spaced, Clean, NTP, SUBNET_MASK, BROADCAST, ROUTERS, DNS;
    CleanAbsences(v);
    BroadcastIsOption();
    BroadcastLetters();
    LettersOfOptions();
    LettersOfMask();
    SpacingOptions();
    OptionRead(BROADCAST, v);
    PhraseFree("\t", BROADCAST, v, NTP, 'v', "n");
    PhraseFree("\t", BROADCAST, v, SUBNET_MASK, 'k', "n");
  }

  lemma RoutersIsOption()
    ensures IsOption(ROUTERS)
  {
  }

  lemma RoutersLetters()
    ensures 'v' !in ROUTERS && 'k' !in ROUTERS && 'b' !in ROUTERS
  {
  }

  lemma RoutersLine(s: Subnet, v: string)
    requires Clean(v)
    ensures var line := "\t" + ROUTERS + " " + v + ";";
            SubnetField(s, line) == Ok(s.(routers := Some(v))) && AbovePool(line)
  {
    hide Contains, Field, MatchAt, Spaced, Clean, NTP, SUBNET_MASK, BROADCAST, ROUTERS, DNS;
    CleanAbsences(v);
    RoutersIsOption();
    RoutersLetters();
    LettersOfOptions();
    LettersOfMask();
    LettersOfBroadcast();
    SpacingOptions();
    OptionRead(ROUTERS, v);
    PhraseFree("\t", ROUTERS, v, NTP, 'v', "n");
    PhraseFree("\t", ROUTERS, v, SUBNET_MASK, 'k', "n");
    PhraseFree("\t", ROUTERS, v, BROADCAST, 'b', "n");
  }

  lemma DnsIsOption()
    ensures IsOption(DNS)
  {
  }

  lemma DnsLetters()
    ensures 'k' !in DNS && 'b' !in DNS && 'u' !in DNS
  {
  }

  /** `option domain-name-servers` has every letter of `option ntp-servers`, but never t before p. */
  lemma DnsIsNoNtp(v: string)
    requires !Contains(v, NTP)
    ensures !Contains("\t" + DNS + " " + v + ";", NTP)
  {
    hide Contains, Spaced;
    SpacingOptions();
    AbsentPair("\t" + DNS, NTP, 8);
    ValueFree("\t" + DNS, v, NTP, "n");
  }

  lemma DnsLine(s: Subnet, v: string)
    requires Clean(v)
    ensures var line := "\t" + DNS + " " + v + ";";
            SubnetField(s, line) == Ok(s.(dnsServers := Some(v))) && AbovePool(line)
  {
    hide Contains, Field, MatchAt, Spaced, Clean, NTP, SUBNET_MASK, BROADCAST, ROUTERS, DNS;
    CleanAbsences(v);
    DnsIsOption();
    DnsLetters();
    LettersOfOptions();
    LettersOfMask();
    LettersOfBroadcast();
    LettersOfRouters();
    SpacingOptions();
    OptionRead(DNS, v);
    DnsIsNoNtp(v);
    PhraseFree("\t", DNS, v, SUBNET_MASK, 'k', "n");
    PhraseFree("\t", DNS, v, BROADCAST, 'b', "n");
    PhraseFree("\t", DNS, v, ROUTERS, 'u', "n");
  }

  lemma InterfaceLine(s: Subnet, v: string)
    requires Clean(v)
    ensures var line := "\t" + INTERFACE + " " + v + ";";
            SubnetField(s, line) == Ok(s.(interface := Some(v))) && AbovePool(line)
  {
    hide Contains, Field, MatchAt, Spaced, NTP, SUBNET_MASK, BROADCAST, ROUTERS, DNS;
    CleanAbsences(v);
    OptionRead(INTERFACE, v);
    OptionsFree("\t", INTERFACE, v, 'o');
  }

  lemma AuthoritativeLine(s: Subnet)
    ensures SubnetField(s, "\tauthoritative;") == Ok(s.(authoritative := true))
    ensures AbovePool("\tauthoritative;")
  {
    hide Contains, MatchAt, NTP, SUBNET_MASK, BROADCAST, ROUTERS, DNS;
    var line := "\tauthoritative;";
    NotSubnetStart("\t", "authoritative;");
    assert "\t" + "authoritative;" == line;
    AuthoritativeIsNoOption(line);
    AuthoritativeIsSwitch(line);
  }

  lemma AuthoritativeIsSwitch(line: string)
    requires line == "\tauthoritative;"
    ensures Contains(line, AUTHORITATIVE) && !Contains(line, INTERFACE)
    ensures !Contains(line, POOL) && !Contains(line, HOST)
  {
    hide Contains;
    ContainsAt(line, "\t", AUTHORITATIVE, ";");
    AbsentChar(line, INTERFACE, 'n');
    AbsentChar(line, POOL, 'p');
    AbsentChar(line, HOST, 's');
  }

  lemma AuthoritativeIsNoOption(line: string)
    requires line == "\tauthoritative;"
    ensures !Contains(line, NTP) && !Contains(line, SUBNET_MASK) && !Contains(line, BROADCAST)
    ensures !Contains(line, ROUTERS) && !Contains(line, DNS)
  {
    hide Contains, NTP, SUBNET_MASK, BROADCAST, ROUTERS, DNS;
    LettersOfOptions();
    LettersOfMask();
    LettersOfBroadcast();
    LettersOfDns();
    AbsentChar(line, NTP, 'p');
    AbsentChar(line, SUBNET_MASK, 'p');
    AbsentChar(line, BROADCAST, 'p');
    AbsentChar(line, ROUTERS, 'p');
    AbsentChar(line, DNS, 'p');
  }
}
