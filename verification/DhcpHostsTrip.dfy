/** The lines of the pool and of the reserved hosts, and the line that opens the subnet. */
module DhcpHostsTrip {
  import opened Common
  import opened Text
  import opened Lines
  import opened DhcpText
  import opened DhcpKeywords
  import opened DhcpPeerTrip
  import opened DhcpBlocksTrip

  /** One word: what the reader cuts out between blanks. */
  ghost predicate Token(v: string) {
    forall c | c in v :: !IsSpace(c)
  }

  // ---------------------------------------------------------------------
  // The line that opens the subnet
  // ---------------------------------------------------------------------

  function SubnetFirst(net: string, mask: string): string {
    "subnet " + (net + " netmask " + mask) + " {"
  }

  lemma HeadFree(net: string, mask: string, k: string, c: char)
    requires c in k && c !in "subnet netmask{" && ' ' !in k
    requires !Contains(net, k) && !Contains(mask, k)
    ensures !Contains(SubnetFirst(net, mask), k)
  {
    assert forall d | d in "subnet " || d in " netmask " || d in " {" :: d in "subnet netmask{";
    AbsentChar("subnet ", k, c);
    AbsentChar(" netmask ", k, c);
    AbsentChar(" {", k, c);
    var tail := " netmask " + mask + " {";
    AbsentAround(" netmask ", mask, " {", k);
    AbsentAround("subnet ", net, tail, k);
    assert SubnetFirst(net, mask) == "subnet " + net + tail;
  }

  lemma HeadText(net: string, mask: string)
    ensures Strip(SubnetFirst(net, mask)) == SubnetFirst(net, mask)
    ensures SubnetFirst(net, mask) == SUBNET + (" " + (net + (" netmask " + mask + " {")))
    ensures StartsWith(SubnetFirst(net, mask), SUBNET)
  {
    var line := SubnetFirst(net, mask);
    assert line == SUBNET + (" " + (net + (" netmask " + mask + " {")));
    assert line[|line| - 1] == '{';
    StripPad("", line);
    assert "" + line == line;
  }

  lemma HeadLine(s: Subnet, net: string, mask: string)
    requires Clean(net) && net != "" && Token(net)
    requires Clean(mask) || mask == "None"
    ensures SubnetField(s, SubnetFirst(net, mask)) == Ok(s.(subnet := Some(net)))
    ensures AbovePool(SubnetFirst(net, mask))
  {
    hide Contains, SubnetFirst, StartsWith, Words;
    HeadText(net, mask);
    SecondWord(SUBNET, net, " netmask " + mask + " {");
    HeadAbovePool(net, mask);
  }

  lemma HeadAbovePool(net: string, mask: string)
    requires Clean(net)
    requires Clean(mask) || mask == "None"
    ensures AbovePool(SubnetFirst(net, mask))
  {
    hide Contains;
    if mask == "None" {
      AbsentChar(mask, POOL, 'p');
      AbsentChar(mask, HOST, 'h');
    }
    HeadFree(net, mask, POOL, 'l');
    HeadFree(net, mask, HOST, 'h');
    assert OneLine(SubnetFirst(net, mask));
  }

  // ---------------------------------------------------------------------
  // The lines of the pool
  // ---------------------------------------------------------------------

  lemma ShortBlockLine(line: string)
    requires |line| < 4 && OneLine(line) && (line != "" ==> line[0] != 's')
    ensures !Contains(line, HOST)
    ensures NoPoolKey(line)
    ensures forall p :: PoolLine(p, line) == Ok(p)
  {
  }

  lemma StripShorter(s: string)
    ensures |Strip(s)| <= |s|
  {
    StripLeftShorter(s);
    StripRightShorter(StripLeft(s));
  }

  lemma {:induction false} StripLeftShorter(s: string)
    ensures |StripLeft(s)| <= |s|
  {
    if s != "" {
      StripLeftShorter(s[1..]);
    }
  }

  lemma {:induction false} StripRightShorter(s: string)
    ensures |StripRight(s)| <= |s|
  {
    if s != "" {
      StripRightShorter(s[..|s| - 1]);
    }
  }

  /** Every line shorter than the keywords leaves the subnet as it is. */
  lemma ShortNoSubnetKey(line: string)
    requires |line| < 6
    ensures NoSubnetKey(line)
  {
    hide Contains, Strip;
    StripShorter(line);
    TooShort(line, NTP);
    TooShort(line, SUBNET_MASK);
    TooShort(line, BROADCAST);
    TooShort(line, ROUTERS);
    TooShort(line, DNS);
    TooShort(line, INTERFACE);
    TooShort(line, AUTHORITATIVE);
  }

  lemma PoolOpens()
    ensures NoSubnetKey("\tpool {") && !Contains("\tpool {", HOST)
    ensures NoPoolKey("pool {")
  {
    hide Contains, Strip;
    TooShort("\tpool {", NTP);
    TooShort("\tpool {", SUBNET_MASK);
    TooShort("\tpool {", BROADCAST);
    TooShort("\tpool {", ROUTERS);
    TooShort("\tpool {", DNS);
    TooShort("\tpool {", INTERFACE);
    TooShort("\tpool {", AUTHORITATIVE);
    NotSubnetStart("\t", "pool {");
    assert "\t" + "pool {" == "\tpool {";
    AbsentChar("\tpool {", HOST, 'h');
    TooShort("pool {", FAILOVER_PEER);
    AbsentChar("pool {", RANGE, 'g');
  }

  function Quoted(v: string): string {
    "\"" + v + "\""
  }

  lemma QuotedValueFree(v: string, k: string)
    requires '\"' !in k && k != "" && !Contains(v, k)
    ensures !Contains(Quoted(v), k)
  {
    QuotedFree("\"", v, "\"", k, k[0]);
  }

  lemma QuotedValuesFree(v: string)
    requires Clean(v)
    ensures !Contains(Quoted(v), NTP) && !Contains(Quoted(v), SUBNET_MASK)
    ensures !Contains(Quoted(v), BROADCAST) && !Contains(Quoted(v), ROUTERS)
  {
    hide Contains, Clean;
    CleanAbsences(v);
    QuotedValueFree(v, NTP);
    QuotedValueFree(v, SUBNET_MASK);
    QuotedValueFree(v, BROADCAST);
    QuotedValueFree(v, ROUTERS);
  }

  lemma QuotedValuesFree2(v: string)
    requires Clean(v)
    ensures !Contains(Quoted(v), DNS) && !Contains(Quoted(v), INTERFACE)
    ensures !Contains(Quoted(v), AUTHORITATIVE) && !Contains(Quoted(v), RANGE)
    ensures !Contains(Quoted(v), FAILOVER_PEER) && !Contains(Quoted(v), HOST)
  {
    hide Contains;
    QuotedValueFree(v, DNS);
    QuotedValueFree(v, INTERFACE);
    QuotedValueFree(v, AUTHORITATIVE);
    QuotedValueFree(v, RANGE);
    QuotedValueFree(v, FAILOVER_PEER);
    QuotedValueFree(v, HOST);
  }

  lemma Unquoted(v: string)
    requires '\"' !in v
    ensures Without(Quoted(v), '\"') == v
  {
    WithoutNone(v, '\"');
    WithoutConcat("\"" + v, "\"", '\"');
    WithoutConcat("\"", v, '\"');
    assert Without("\"", '\"') == "";
  }

  /** The keyword of the failover line; switched off it is commented out in the middle of its line. */
  function FailoverKey(on: bool): string {
    if on then FAILOVER_PEER else "#" + FAILOVER_PEER
  }

  function FailoverLine(v: string, on: bool): string {
    "\t\t" + FailoverKey(on) + " " + Quoted(v) + ";"
  }

  /** The reader does not mind the comment mark: the line gives the same field on or off. */
  lemma FailoverRead(p: Pool, v: string, on: bool)
    requires Clean(v)
    ensures PoolLine(p, FailoverLine(v, on)) == Ok(p.(failoverPeer := Some(v)))
    ensures NoSubnetKey(FailoverLine(v, on)) && !Contains(FailoverLine(v, on), HOST)
    ensures OneLine(FailoverLine(v, on))
  {
    hide Contains, Field, Quoted, NoSubnetKey, OneLine, RANGE, HOST, FAILOVER_PEER, FailoverLine;
    FailoverFree(v, on);
    FailoverField(v, on);
    Unquoted(v);
  }

  predicate IsFailoverKey(k: string) {
    && k != "" && !IsSpace(k[0]) && k[0] != 's' && k[|k| - 1] != 'n'
    && 'g' !in k && 'h' !in k && 't' !in k && '\n' !in k && '\r' !in k
  }

  lemma FailoverLetters()
    ensures IsFailoverKey(FAILOVER_PEER)
  {
  }

  lemma FailoverKeyLetters(on: bool)
    ensures IsFailoverKey(FailoverKey(on))
  {
    hide FAILOVER_PEER;
    FailoverLetters();
  }

  lemma FailoverFree(v: string, on: bool)
    requires Clean(v)
    ensures NoSubnetKey(FailoverLine(v, on))
    ensures !Contains(FailoverLine(v, on), HOST) && !Contains(FailoverLine(v, on), RANGE)
  {
    hide Contains, Field, MatchAt, Quoted, NoSubnetKey, FailoverKey, RANGE, HOST;
    QuotedValuesFree(v);
    QuotedValuesFree2(v);
    LettersOfPools();
    FailoverKeyLetters(on);
    WordFree("\t\t", FailoverKey(on), Quoted(v), RANGE, 'g');
    WordFree("\t\t", FailoverKey(on), Quoted(v), HOST, 'h');
    KeyLineNoSubnetKey("\t\t", FailoverKey(on), Quoted(v), 't');
  }

  lemma FailoverField(v: string, on: bool)
    requires Clean(v)
    ensures Contains(FailoverLine(v, on), FAILOVER_PEER) && Field(FailoverLine(v, on), FAILOVER_PEER) == Ok(Quoted(v))
    ensures OneLine(FailoverLine(v, on))
  {
    hide Contains, Field, MatchAt, Quoted;
    QuotedIsPlain(v);
    QuotedValuesFree2(v);
    if on {
      KeyRead("\t\t", FAILOVER_PEER, Quoted(v));
    } else {
      MarkedRead("\t\t", FAILOVER_PEER, Quoted(v));
    }
  }

  /** Reading a `key value;` line whose key is commented out gives the value as well. */
  lemma MarkedRead(indent: string, key: string, v: string)
    requires Blank(indent) && key != "" && key[0] != ' ' && key[0] != '#' && ';' !in key
    requires Plain(v) && !Contains(v, key)
    ensures var line := indent + ("#" + key) + " " + v + ";";
            Contains(line, key) && Field(line, key) == Ok(v)
  {
    hide Contains;
    var tail := " " + (v + ";");
    var line, text := indent + ("#" + key) + " " + v + ";", "#" + key + tail;
    assert line == indent + text == (indent + "#") + key + tail;
    ContainsAt(line, indent + "#", key, tail);
    StripPad(indent, text);
    AbsentChar(";", key, key[0]);
    AbsentRight(v, ";", key);
    AbsentAfterSpace(v + ";", key);
    SplitAtLetter("#", key, tail);
    SplitWhole(tail, key);
    ValueRead(v);
  }

  lemma QuotedIsPlain(v: string)
    requires Clean(v)
    ensures Plain(Quoted(v)) && OneLine(Quoted(v)) && '\"' !in v
  {
  }

  function RangeLine(first: string, last: string): string {
    "\t\t" + RANGE + " " + (first + " " + last) + ";"
  }

  lemma {:induction false} StripToken(s: string)
    requires Token(s)
    ensures Strip(s) == s
  {
  }

  lemma RangeEnds(first: string, last: string)
    requires Token(first) && Token(last)
    ensures Split(first + " " + last, " ") == [first, last]
    ensures Strip(first) == first && Strip(last) == last
  {
    SplitAtChar(first, ' ', last);
    SplitNoChar(last, ' ');
    assert first + [' '] + last == first + " " + last;
    StripToken(first);
    StripToken(last);
  }

  lemma RangeRead(p: Pool, first: string, last: string)
    requires Clean(first + " " + last) && first != "" && Token(first) && Token(last)
    ensures PoolLine(p, RangeLine(first, last)) == Ok(p.(rangeStart := Some(first), rangeEnd := Some(last)))
    ensures NoSubnetKey(RangeLine(first, last)) && !Contains(RangeLine(first, last), HOST)
    ensures OneLine(RangeLine(first, last)) && !Contains(RangeLine(first, last), FAILOVER_PEER)
  {
    hide Contains, Field, MatchAt, NoSubnetKey, FAILOVER_PEER, HOST, Spaced;
    var v := first + " " + last;
    LettersOfPools();
    SpacingPeers();
    CleanAbsences(v);
    KeyRead("\t\t", RANGE, v);
    RangeEnds(first, last);
    PhraseFree("\t\t", RANGE, v, FAILOVER_PEER, 'f', "r");
    WordFree("\t\t", RANGE, v, HOST, 'h');
    KeyLineNoSubnetKey("\t\t", RANGE, v, 't');
  }

  // ---------------------------------------------------------------------
  // The lines of a host
  // ---------------------------------------------------------------------

  function HostFirst(name: string): string {
    "host " + name + " {"
  }

  lemma MatchLast(s: string, k: string, i: nat)
    requires MatchAt(s, k, i) && k != ""
    ensures s[i + |k| - 1] == k[|k| - 1]
  {
    MatchChar(s, k, i, |k| - 1);
  }

  /** A keyword absent before, in and after a name that stands before an opening brace. */
  lemma OpeningFree(name: string, k: string, c: char)
    requires c in k && c !in "host {" && k[|k| - 1] != ' ' && '{' !in k
    requires Spaced(k, "nr") && !Contains(name, k)
    ensures !Contains(HostFirst(name), k)
  {
    assert forall d | d in "host" || d in " {" :: d in "host {";
    AbsentChar("host", k, c);
    assert "host" != "" && "host"[3] == 't';
    AbsentChar("host ", k, c);
    assert EndsApart("host ", k);
    AbsentLeft("host ", name, k);
    AbsentChar(" {", k, c);
    var a := "host " + name;
    forall i: nat | MatchAt(a + " {", k, i)
      ensures false
    {
      MatchInConcat(a, " {", k, i);
      MatchLast(a + " {", k, i);
    }
  }

  lemma NameLineNoOption(name: string)
    requires Clean(name)
    ensures var line := HostFirst(name);
            && !Contains(line, NTP) && !Contains(line, SUBNET_MASK) && !Contains(line, BROADCAST)
            && !Contains(line, ROUTERS) && !Contains(line, DNS)
  {
    hide Contains, Clean, HostFirst, NTP, SUBNET_MASK, BROADCAST, ROUTERS, DNS, Spaced;
    CleanAbsences(name);
    OptionsEndWell();
    LettersOfOptions();
    LettersOfMask();
    LettersOfBroadcast();
    LettersOfDns();
    OpeningFree(name, NTP, 'i');
    OpeningFree(name, SUBNET_MASK, 'i');
    OpeningFree(name, BROADCAST, 'i');
    OpeningFree(name, ROUTERS, 'i');
    OpeningFree(name, DNS, 'i');
  }

  predicate EndsWell(k: string) {
    k != "" && k[|k| - 1] != ' ' && '{' !in k && Spaced(k, "nr")
  }

  lemma OptionsEndWell()
    ensures EndsWell(NTP) && EndsWell(SUBNET_MASK) && EndsWell(BROADCAST)
    ensures EndsWell(ROUTERS) && EndsWell(DNS)
  {
    hide Spaced;
    SpacingOptions();
    SpacedMore(NTP, "n");
    SpacedMore(SUBNET_MASK, "n");
    SpacedMore(BROADCAST, "n");
    SpacedMore(ROUTERS, "n");
    SpacedMore(DNS, "n");
  }

  lemma SpacedMore(k: string, x: string)
    requires Spaced(k, x) && (x == "n" || x == "r" || x == "")
    ensures Spaced(k, "nr")
  {
  }

  lemma SwitchesEndWell()
    ensures EndsWell(INTERFACE) && EndsWell(AUTHORITATIVE) && EndsWell(FAILOVER_PEER) && EndsWell(RANGE)
  {
    hide Spaced;
    SpacingPeers();
    NoSpacesSpaced(INTERFACE);
    NoSpacesSpaced(AUTHORITATIVE);
    NoSpacesSpaced(RANGE);
    SpacedMore(FAILOVER_PEER, "r");
  }

  lemma NoSpacesSpaced(k: string)
    requires ' ' !in k
    ensures Spaced(k, "nr")
  {
  }

  lemma NameLineNoSwitch(name: string)
    requires Clean(name)
    ensures var line := HostFirst(name);
            && !Contains(line, INTERFACE) && !Contains(line, AUTHORITATIVE) && NoPoolKey(line)
  {
    hide Contains, HostFirst, INTERFACE, AUTHORITATIVE, FAILOVER_PEER, RANGE, Spaced;
    SwitchesEndWell();
    LettersOfSwitches();
    LettersOfPools();
    OpeningFree(name, INTERFACE, 'i');
    OpeningFree(name, AUTHORITATIVE, 'i');
    OpeningFree(name, FAILOVER_PEER, 'f');
    OpeningFree(name, RANGE, 'g');
  }

  /** The name line: nothing for the subnet or the pool, and the host keeps one blank too many. */
  lemma NameLine(h: Host, name: string)
    requires Clean(name) && name != ""
    ensures NoSubnetKey(HostFirst(name)) && NoPoolKey(HostFirst(name)) && OneLine(HostFirst(name))
    ensures HostField(h, HostFirst(name)) == Ok(h.(host := Some(name + " ")))
  {
    hide Contains, Clean;
    NameLineNoOption(name);
    NameLineNoSwitch(name);
    NameLineText(name);
    NotSubnetStart("", HostFirst(name));
    assert "" + HostFirst(name) == HostFirst(name);
  }

  lemma NameLineText(name: string)
    requires Clean(name) && name != ""
    ensures OneLine(HostFirst(name)) && HostFirst(name)[|HostFirst(name)| - 1] == '{'
    ensures Contains(HostFirst(name), HOST)
    ensures Split(Strip(HostFirst(name)), HOST) == ["", " " + (name + " {")]
    ensures Split(Strip(" " + (name + " {")), "{")[0] == name + " "
  {
    hide Contains, Clean;
    var line := HostFirst(name);
    HostFirstParts(name);
    ContainsAt(line, "", HOST, " " + (name + " {"));
    StripPad("", line);
    assert "" + line == line;
    AbsentChar(" {", HOST, 'h');
    NameHasNoHost(name);
    KeyCut(HOST, name + " {");
    NameCut(name);
  }

  lemma NameHasNoHost(name: string)
    requires Clean(name)
    ensures !Contains(name + " {", HOST)
  {
    hide Contains;
    AbsentChar(" {", HOST, 'h');
    AbsentRight(name, " {", HOST);
  }

  lemma NameCut(name: string)
    requires name != "" && !IsSpace(name[0]) && '{' !in name
    ensures Split(Strip(" " + (name + " {")), "{")[0] == name + " "
  {
    StripPad(" ", name + " {");
    BraceCut(name + " ");
    assert name + " " + "{" == name + " {";
  }

  lemma HostFirstParts(name: string)
    requires Clean(name) && name != ""
    ensures HostFirst(name) == HOST + (" " + (name + " {")) == "" + HOST + (" " + (name + " {"))
    ensures OneLine(HostFirst(name)) && HostFirst(name)[|HostFirst(name)| - 1] == '{'
    ensures !IsSpace(HostFirst(name)[0])
    ensures '{' !in name && !IsSpace(name[0])
  {
  }

  predicate IsHostIndent(indent: string) {
    indent == "\t" || indent == "    \r\t"
  }

  lemma HardwareLetters()
    ensures 'i' !in HARDWARE && 'f' !in HARDWARE && 'g' !in HARDWARE && 's' !in HARDWARE
    ensures '\n' !in HARDWARE && ';' !in HARDWARE
    ensures 'h' in HARDWARE
  {
  }

  lemma HardwareLine(h: Host, indent: string, v: string)
    requires IsHostIndent(indent) && Clean(v)
    ensures var line := indent + HARDWARE + " " + v + ";";
            && NoSubnetKey(line) && NoPoolKey(line) && OneLine(line)
            && HostField(h, line) == Ok(h.(hwAddr := Some(v)))
  {
    hide Contains, Field, MatchAt, NoSubnetKey, FAILOVER_PEER, RANGE, HOST, Spaced;
    LettersOfPools();
    HardwareLetters();
    SpacingPeers();
    CleanAbsences(v);
    KeyRead(indent, HARDWARE, v);
    KeyLineNoSubnetKey(indent, HARDWARE, v, 'i');
    PhraseFree(indent, HARDWARE, v, FAILOVER_PEER, 'f', "r");
    WordFree(indent, HARDWARE, v, RANGE, 'g');
    WordFree(indent, HARDWARE, v, HOST, 's');
  }

  lemma FixedLetters()
    ensures 't' !in FIXED_ADDRESS && 'o' !in FIXED_ADDRESS && 'n' !in FIXED_ADDRESS && 'h' !in FIXED_ADDRESS
    ensures '\n' !in FIXED_ADDRESS && ';' !in FIXED_ADDRESS
  {
  }

  lemma FixedLine(h: Host, indent: string, v: string)
    requires IsHostIndent(indent) && Clean(v)
    ensures var line := indent + FIXED_ADDRESS + " " + v + ";";
            && NoSubnetKey(line) && NoPoolKey(line) && OneLine(line)
            && HostField(h, line) == Ok(h.(fixedAddr := Some(v)))
  {
    hide Contains, Field, MatchAt, NoSubnetKey, FAILOVER_PEER, RANGE, HOST, HARDWARE, Spaced;
    LettersOfPools();
    FixedLetters();
    HardwareLetters();
    SpacingPeers();
    SpacingOptions();
    CleanLonger(v);
    CleanAbsences(v);
    KeyRead(indent, FIXED_ADDRESS, v);
    KeyLineNoSubnetKey(indent, FIXED_ADDRESS, v, 't');
    PhraseFree(indent, FIXED_ADDRESS, v, FAILOVER_PEER, 'o', "r");
    WordFree(indent, FIXED_ADDRESS, v, RANGE, 'n');
    WordFree(indent, FIXED_ADDRESS, v, HOST, 'h');
    PhraseFree(indent, FIXED_ADDRESS, v, HARDWARE, 'h', "e");
  }

  /** Lines of blanks, perhaps with the closing brace. */
  predicate IsPad(line: string) {
    |line| <= 6 && forall c | c in line :: c == ' ' || c == '\r' || c == '}'
  }

  lemma PadFree(line: string, k: string)
    requires IsPad(line) && k != "" && k[0] != ' ' && k[0] != '\r' && k[0] != '}'
    ensures !Contains(line, k)
  {
    AbsentChar(line, k, k[0]);
  }

  lemma NoSubnetStart(s: string)
    requires 's' !in s
    ensures !StartsWith(s, SUBNET)
  {
    if StartsWith(s, SUBNET) {
      MatchChar(s, SUBNET, 0, 0);
    }
  }

  lemma PadNoSubnetKey(line: string)
    requires IsPad(line)
    ensures NoSubnetKey(line)
  {
    hide Contains, Strip;
    TooShort(line, NTP);
    TooShort(line, SUBNET_MASK);
    TooShort(line, BROADCAST);
    TooShort(line, ROUTERS);
    TooShort(line, DNS);
    TooShort(line, INTERFACE);
    TooShort(line, AUTHORITATIVE);
    StripPart(line);
    NoSubnetStart(Strip(line));
  }

  lemma {:induction false} StripPart(s: string)
    ensures forall c | c in Strip(s) :: c in s
  {
    StripLeftPart(s);
    StripRightPart(StripLeft(s));
  }

  lemma {:induction false} StripLeftPart(s: string)
    ensures forall c | c in StripLeft(s) :: c in s
  {
    if s != "" {
      StripLeftPart(s[1..]);
    }
  }

  lemma {:induction false} StripRightPart(s: string)
    ensures forall c | c in StripRight(s) :: c in s
  {
    if s != "" {
      StripRightPart(s[..|s| - 1]);
    }
  }

  lemma PadLine(h: Host, line: string)
    requires IsPad(line)
    ensures NoSubnetKey(line) && NoPoolKey(line) && HostField(h, line) == Ok(h) && OneLine(line)
  {
    hide Contains, NoSubnetKey;
    PadNoSubnetKey(line);
    PadFree(line, FAILOVER_PEER);
    PadFree(line, RANGE);
    PadFree(line, HOST);
    PadFree(line, HARDWARE);
    PadFree(line, FIXED_ADDRESS);
  }
}
