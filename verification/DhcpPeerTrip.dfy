/** Reading back a printed failover peer block. */
module DhcpPeerTrip {
  import opened Common
  import opened Text
  import opened Lines
  import opened DhcpText
  import opened DhcpKeywords

  /** A line that neither of the searches for later blocks can stop at. */
  ghost predicate Passed(line: string) {
    OneLine(line) && !Contains(line, SUBNET) && !Contains(line, HOST)
  }

  function OptLine(indent: string, key: string, v: Option<string>): seq<string> {
    if v.Some? then [indent + key + " " + v.value + ";"] else []
  }

  /** A line printed after `cr`: one line for "\r", an empty line and then the line for "\n". */
  function CrLine(cr: string, pad: string, line: string): seq<string> {
    if cr == "\r" then [pad + cr + line] else [pad, line]
  }

  ghost predicate IsCr(cr: string) {
    cr == "\r" || cr == "\n"
  }

  lemma BelowOpt(s: string, indent: string, key: string, v: Option<string>, rest: seq<string>)
    ensures Below(s, OptLine(indent, key, v) + rest) == Below(s + KeyLine(indent, key, v), rest)
  {
    BelowAppend(s, OptLine(indent, key, v), rest);
    if v.None? {
      assert s + KeyLine(indent, key, v) == s;
    } else {
      var line := indent + key + " " + v.value + ";";
      assert OptLine(indent, key, v)[1..] == [];
      assert Below(s, OptLine(indent, key, v)) == s + NL + line;
      assert s + (NL + line) == s + NL + line;
    }
  }

  lemma BelowCr(s: string, cr: string, pad: string, line: string, rest: seq<string>)
    requires IsCr(cr)
    ensures Below(s, CrLine(cr, pad, line) + rest) == Below(s + NL + (pad + cr + line), rest)
  {
    BelowAppend(s, CrLine(cr, pad, line), rest);
    if cr == "\n" {
      assert s + NL + pad + NL + line == s + NL + (pad + cr + line);
    }
  }

  /** The lines of a peer block after its first, and the lines that follow the block. */
  function PeerBody(cr: string, p: Peer, rest: seq<string>): seq<string> {
    [if p.primary then "\tprimary;" else "secondary;"] + PeerFields(cr, p, rest)
  }

  function PeerFields(cr: string, p: Peer, rest: seq<string>): seq<string> {
    OptLine("\t", ADDRESS, p.address)
    + (OptLine("\t", PORT, p.port)
    + (OptLine("\t", PEER_ADDRESS, p.peerAddress)
    + (OptLine("\t", PEER_PORT, p.peerPort)
    + (OptLine("\t", MAX_RESPONSE_DELAY, p.maxResponseDelay)
    + (OptLine("\t", MAX_UNACKED_UPDATES, p.maxUnackedUpdates)
    + (OptLine("\t", MCLT, p.mclt)
    + (OptLine("\t", SPLIT, p.split)
    + (OptLine("\t", LOAD_BALANCE, p.loadBalance)
    + (CrLine(cr, "", "}")
    + rest)))))))))
  }

  function PeerFirst(name: string): string {
    "failover peer \"" + name + "\" {"
  }

  lemma PeerTextLines(cr: string, p: Peer, rest: seq<string>)
    requires IsCr(cr) && p.name.Some?
    ensures Below(PeerFirst(p.name.value), PeerBody(cr, p, rest)) == Below(PeerText(cr, p), rest)
  {
    var s0 := PeerFirst(p.name.value);
    var first := if p.primary then "\tprimary;" else "secondary;";
    var s1 := s0 + NL + first;
    var s2 := s1 + KeyLine("\t", ADDRESS, p.address);
    var s3 := s2 + KeyLine("\t", PORT, p.port);
    var s4 := s3 + KeyLine("\t", PEER_ADDRESS, p.peerAddress);
    var s5 := s4 + KeyLine("\t", PEER_PORT, p.peerPort);
    var s6 := s5 + KeyLine("\t", MAX_RESPONSE_DELAY, p.maxResponseDelay);
    var s7 := s6 + KeyLine("\t", MAX_UNACKED_UPDATES, p.maxUnackedUpdates);
    var s8 := s7 + KeyLine("\t", MCLT, p.mclt);
    var s9 := s8 + KeyLine("\t", SPLIT, p.split);
    var s10 := s9 + KeyLine("\t", LOAD_BALANCE, p.loadBalance);
    var l10 := CrLine(cr, "", "}") + rest;
    var l9 := OptLine("\t", LOAD_BALANCE, p.loadBalance) + l10;
    var l8 := OptLine("\t", SPLIT, p.split) + l9;
    var l7 := OptLine("\t", MCLT, p.mclt) + l8;
    var l6 := OptLine("\t", MAX_UNACKED_UPDATES, p.maxUnackedUpdates) + l7;
    var l5 := OptLine("\t", MAX_RESPONSE_DELAY, p.maxResponseDelay) + l6;
    var l4 := OptLine("\t", PEER_PORT, p.peerPort) + l5;
    var l3 := OptLine("\t", PEER_ADDRESS, p.peerAddress) + l4;
    var l2 := OptLine("\t", PORT, p.port) + l3;
    var l1 := OptLine("\t", ADDRESS, p.address) + l2;
    assert ([first] + l1)[1..] == l1;
    BelowOpt(s1, "\t", ADDRESS, p.address, l2);
    BelowOpt(s2, "\t", PORT, p.port, l3);
    BelowOpt(s3, "\t", PEER_ADDRESS, p.peerAddress, l4);
    BelowOpt(s4, "\t", PEER_PORT, p.peerPort, l5);
    BelowOpt(s5, "\t", MAX_RESPONSE_DELAY, p.maxResponseDelay, l6);
    BelowOpt(s6, "\t", MAX_UNACKED_UPDATES, p.maxUnackedUpdates, l7);
    BelowOpt(s7, "\t", MCLT, p.mclt, l8);
    BelowOpt(s8, "\t", SPLIT, p.split, l9);
    BelowOpt(s9, "\t", LOAD_BALANCE, p.loadBalance, l10);
    BelowCr(s10, cr, "", "}", rest);
    assert "" + cr + "}" == cr + "}";
  }

  // ---------------------------------------------------------------------
  // One lemma per line of the block
  // ---------------------------------------------------------------------

  lemma LineOfPeer(key: string, v: string)
    requires '\n' !in key && Clean(v)
    ensures OneLine("\t" + key + " " + v + ";")
  {
  }

  lemma NoPeerPrefix(line: string)
    ensures !Contains(line, ADDRESS) ==> !Contains(line, PEER_ADDRESS)
    ensures !Contains(line, PORT) ==> !Contains(line, PEER_PORT)
  {
    assert "peer " + ADDRESS + "" == PEER_ADDRESS && "peer " + PORT + "" == PEER_PORT;
    if !Contains(line, ADDRESS) {
      AbsentLonger(line, "peer ", ADDRESS, "");
    }
    if !Contains(line, PORT) {
      AbsentLonger(line, "peer ", PORT, "");
    }
  }

  /** The first keyword a peer line is tested for, and the searches it must not stop. */
  lemma PeerKeyFree(key: string, v: string, c: char, d: char)
    requires IsKey(key) && Clean(v)
    requires c in PRIMARY && c !in key && !IsSpace(c)
    requires d in SUBNET && d !in key && !IsSpace(d)
    ensures !Contains("\t" + key + " " + v + ";", PRIMARY)
    ensures Passed("\t" + key + " " + v + ";")
  {
    hide Contains, PRIMARY, SUBNET, HOST;
    LettersOfFirstKeys();
    LettersOfBlocks();
    LineOfPeer(key, v);
    WordFree("\t", key, v, PRIMARY, c);
    WordFree("\t", key, v, SUBNET, d);
    WordFree("\t", key, v, HOST, 'h');
  }

  lemma AddressFree(key: string, v: string, c: char)
    requires IsKey(key) && Clean(v) && c in ADDRESS && c !in key && !IsSpace(c)
    ensures !Contains("\t" + key + " " + v + ";", ADDRESS)
    ensures !Contains("\t" + key + " " + v + ";", PEER_ADDRESS)
  {
    hide Contains, ADDRESS, PEER_ADDRESS;
    LettersOfFirstKeys();
    WordFree("\t", key, v, ADDRESS, c);
    NoPeerPrefix("\t" + key + " " + v + ";");
  }

  lemma PortFree(key: string, v: string, c: char)
    requires IsKey(key) && Clean(v) && c in PORT && c !in key && !IsSpace(c)
    ensures !Contains("\t" + key + " " + v + ";", PORT)
    ensures !Contains("\t" + key + " " + v + ";", PEER_PORT)
  {
    hide Contains, PORT, PEER_PORT;
    LettersOfFirstKeys();
    WordFree("\t", key, v, PORT, c);
    NoPeerPrefix("\t" + key + " " + v + ";");
  }

  lemma MaxKeysFree(key: string, v: string)
    requires IsKey(key) && Clean(v) && 'y' !in key && 'k' !in key
    ensures !Contains("\t" + key + " " + v + ";", MAX_RESPONSE_DELAY)
    ensures !Contains("\t" + key + " " + v + ";", MAX_UNACKED_UPDATES)
  {
    hide Contains, MAX_RESPONSE_DELAY, MAX_UNACKED_UPDATES;
    LettersOfMaxKeys();
    WordFree("\t", key, v, MAX_RESPONSE_DELAY, 'y');
    WordFree("\t", key, v, MAX_UNACKED_UPDATES, 'k');
  }

  lemma AddressLine(p: Peer, v: string)
    requires Clean(v)
    ensures var line := "\t" + ADDRESS + " " + v + ";";
            PeerField(p, line) == Ok(p.(address := Some(v))) && Passed(line)
  {
    hide Contains, Field, MatchAt, Spaced;
    PeerKeyFree(ADDRESS, v, 'y', 'b');
    KeyRead("\t", ADDRESS, v);
    SpacingPeers();
    NoPeerPrefix(v);
    PhraseFree("\t", ADDRESS, v, PEER_ADDRESS, 'p', "r");
  }

  lemma PortLine(p: Peer, v: string)
    requires Clean(v)
    ensures var line := "\t" + PORT + " " + v + ";";
            PeerField(p, line) == Ok(p.(port := Some(v))) && Passed(line)
  {
    hide Contains, Field, MatchAt, Spaced;
    PeerKeyFree(PORT, v, 'y', 'b');
    KeyRead("\t", PORT, v);
    SpacingPeers();
    NoPeerPrefix(v);
    AddressFree(PORT, v, 'a');
    PhraseFree("\t", PORT, v, PEER_PORT, 'e', "r");
  }

  lemma PeerAddressLetters()
    ensures IsKey(PEER_ADDRESS) && 'y' !in PEER_ADDRESS && 'b' !in PEER_ADDRESS && 't' !in PEER_ADDRESS
  {
  }

  lemma PeerAddressLine(p: Peer, v: string)
    requires Clean(v)
    ensures var line := "\t" + PEER_ADDRESS + " " + v + ";";
            PeerField(p, line) == Ok(p.(peerAddress := Some(v))) && Passed(line)
  {
    hide Contains, Field, MatchAt, Spaced, PRIMARY, ADDRESS, PORT, MAX_RESPONSE_DELAY, MAX_UNACKED_UPDATES, MCLT, SPLIT, LOAD_BALANCE, PEER_ADDRESS, PEER_PORT, SUBNET, HOST;
    LettersOfFirstKeys();
    LettersOfMaxKeys();
    LettersOfBlocks();
    PeerAddressLetters();
    PeerKeyFree(PEER_ADDRESS, v, 'y', 'b');
    NoPeerPrefix(v);
    KeyRead("\t", PEER_ADDRESS, v);
    PortFree(PEER_ADDRESS, v, 't');
  }

  lemma PeerPortLetters()
    ensures IsKey(PEER_PORT) && 'y' !in PEER_PORT && 'b' !in PEER_PORT && 'a' !in PEER_PORT
  {
  }

  lemma PeerPortLine(p: Peer, v: string)
    requires Clean(v)
    ensures var line := "\t" + PEER_PORT + " " + v + ";";
            PeerField(p, line) == Ok(p.(peerPort := Some(v))) && Passed(line)
  {
    hide Contains, Field, MatchAt, Spaced, PRIMARY, ADDRESS, PORT, MAX_RESPONSE_DELAY, MAX_UNACKED_UPDATES, MCLT, SPLIT, LOAD_BALANCE, PEER_ADDRESS, PEER_PORT, SUBNET, HOST;
    LettersOfFirstKeys();
    LettersOfMaxKeys();
    LettersOfBlocks();
    PeerPortLetters();
    PeerKeyFree(PEER_PORT, v, 'y', 'b');
    NoPeerPrefix(v);
    KeyRead("\t", PEER_PORT, v);
    AddressFree(PEER_PORT, v, 'a');
  }

  /** `max-response-delay` has every letter of `address`, but not its double d. */
  lemma DelayIsNoAddress(v: string)
    requires Clean(v)
    ensures !Contains("\t" + MAX_RESPONSE_DELAY + " " + v + ";", ADDRESS)
    ensures !Contains("\t" + MAX_RESPONSE_DELAY + " " + v + ";", PEER_ADDRESS)
  {
    hide Contains;
    AbsentPair("\t" + MAX_RESPONSE_DELAY, ADDRESS, 1);
    ValueFree("\t" + MAX_RESPONSE_DELAY, v, ADDRESS, "");
    NoPeerPrefix("\t" + MAX_RESPONSE_DELAY + " " + v + ";");
  }

  lemma MaxResponseDelayIsKey()
    ensures IsKey(MAX_RESPONSE_DELAY)
  {
  }

  lemma MaxResponseDelayLetters()
    ensures 'i' !in MAX_RESPONSE_DELAY && 'b' !in MAX_RESPONSE_DELAY && 't' !in MAX_RESPONSE_DELAY
  {
  }

  lemma MaxResponseDelayLine(p: Peer, v: string)
    requires Clean(v)
    ensures var line := "\t" + MAX_RESPONSE_DELAY + " " + v + ";";
            PeerField(p, line) == Ok(p.(maxResponseDelay := Some(v))) && Passed(line)
  {
    hide Contains, Field, MatchAt, Spaced, PRIMARY, ADDRESS, PORT, MAX_RESPONSE_DELAY, MAX_UNACKED_UPDATES, MCLT, SPLIT, LOAD_BALANCE, PEER_ADDRESS, PEER_PORT, SUBNET, HOST;
    LettersOfFirstKeys();
    LettersOfMaxKeys();
    LettersOfBlocks();
    MaxResponseDelayIsKey();
    MaxResponseDelayLetters();
    PeerKeyFree(MAX_RESPONSE_DELAY, v, 'i', 'b');
    KeyRead("\t", MAX_RESPONSE_DELAY, v);
    DelayIsNoAddress(v);
    PortFree(MAX_RESPONSE_DELAY, v, 't');
  }

  lemma MaxUnackedUpdatesIsKey()
    ensures IsKey(MAX_UNACKED_UPDATES)
  {
  }

  lemma MaxUnackedUpdatesLetters()
    ensures 'y' !in MAX_UNACKED_UPDATES && 'b' !in MAX_UNACKED_UPDATES && 'r' !in MAX_UNACKED_UPDATES && 'o' !in MAX_UNACKED_UPDATES
  {
  }

  lemma MaxUnackedUpdatesLine(p: Peer, v: string)
    requires Clean(v)
    ensures var line := "\t" + MAX_UNACKED_UPDATES + " " + v + ";";
            PeerField(p, line) == Ok(p.(maxUnackedUpdates := Some(v))) && Passed(line)
  {
    hide Contains, Field, MatchAt, Spaced, PRIMARY, ADDRESS, PORT, MAX_RESPONSE_DELAY, MAX_UNACKED_UPDATES, MCLT, SPLIT, LOAD_BALANCE, PEER_ADDRESS, PEER_PORT, SUBNET, HOST;
    LettersOfFirstKeys();
    LettersOfMaxKeys();
    LettersOfBlocks();
    MaxUnackedUpdatesIsKey();
    MaxUnackedUpdatesLetters();
    PeerKeyFree(MAX_UNACKED_UPDATES, v, 'y', 'b');
    KeyRead("\t", MAX_UNACKED_UPDATES, v);
    AddressFree(MAX_UNACKED_UPDATES, v, 'r');
    PortFree(MAX_UNACKED_UPDATES, v, 'o');
    WordFree("\t", MAX_UNACKED_UPDATES, v, MAX_RESPONSE_DELAY, 'y');
  }

  lemma McltLetters()
    ensures IsKey(MCLT) && 'y' !in MCLT && 'b' !in MCLT && 'a' !in MCLT && 'o' !in MCLT && 'k' !in MCLT
  {
  }

  lemma McltLine(p: Peer, v: string)
    requires Clean(v)
    ensures var line := "\t" + MCLT + " " + v + ";";
            PeerField(p, line) == Ok(p.(mclt := Some(v))) && Passed(line)
  {
    hide Contains, Field, MatchAt, Spaced, PRIMARY, ADDRESS, PORT, MAX_RESPONSE_DELAY, MAX_UNACKED_UPDATES, MCLT, SPLIT, LOAD_BALANCE, PEER_ADDRESS, PEER_PORT, SUBNET, HOST;
    LettersOfFirstKeys();
    LettersOfMaxKeys();
    LettersOfBlocks();
    McltLetters();
    PeerKeyFree(MCLT, v, 'y', 'b');
    KeyRead("\t", MCLT, v);
    AddressFree(MCLT, v, 'a');
    PortFree(MCLT, v, 'o');
    MaxKeysFree(MCLT, v);
  }

  lemma SplitLetters()
    ensures IsKey(SPLIT) && 'y' !in SPLIT && 'b' !in SPLIT && 'a' !in SPLIT && 'o' !in SPLIT && 'k' !in SPLIT && 'm' !in SPLIT
  {
  }

  lemma SplitLine(p: Peer, v: string)
    requires Clean(v)
    ensures var line := "\t" + SPLIT + " " + v + ";";
            PeerField(p, line) == Ok(p.(split := Some(v))) && Passed(line)
  {
    hide Contains, Field, MatchAt, Spaced, PRIMARY, ADDRESS, PORT, MAX_RESPONSE_DELAY, MAX_UNACKED_UPDATES, MCLT, SPLIT, LOAD_BALANCE, PEER_ADDRESS, PEER_PORT, SUBNET, HOST;
    LettersOfFirstKeys();
    LettersOfMaxKeys();
    LettersOfBlocks();
    SplitLetters();
    PeerKeyFree(SPLIT, v, 'y', 'b');
    KeyRead("\t", SPLIT, v);
    AddressFree(SPLIT, v, 'a');
    PortFree(SPLIT, v, 'o');
    MaxKeysFree(SPLIT, v);
    WordFree("\t", SPLIT, v, MCLT, 'm');
  }

  lemma LoadBalanceIsNoShortKey(v: string)
    requires Clean(v)
    ensures !Contains("\t" + LOAD_BALANCE + " " + v + ";", MCLT)
    ensures !Contains("\t" + LOAD_BALANCE + " " + v + ";", SPLIT)
  {
    hide Contains;
    WordFree("\t", LOAD_BALANCE, v, MCLT, 't');
    WordFree("\t", LOAD_BALANCE, v, SPLIT, 't');
  }

  lemma LoadBalanceIsKey()
    ensures IsKey(LOAD_BALANCE)
  {
  }

  lemma LoadBalanceLetters()
    ensures 'y' !in LOAD_BALANCE && 't' !in LOAD_BALANCE && 'r' !in LOAD_BALANCE && 'k' !in LOAD_BALANCE
  {
  }

  lemma LoadBalanceLine(p: Peer, v: string)
    requires Clean(v)
    ensures var line := "\t" + LOAD_BALANCE + " " + v + ";";
            PeerField(p, line) == Ok(p.(loadBalance := Some(v))) && Passed(line)
  {
    hide Contains, Field, MatchAt, Spaced, PRIMARY, ADDRESS, PORT, MAX_RESPONSE_DELAY, MAX_UNACKED_UPDATES, MCLT, SPLIT, LOAD_BALANCE, PEER_ADDRESS, PEER_PORT, SUBNET, HOST;
    LettersOfFirstKeys();
    LettersOfMaxKeys();
    LettersOfBlocks();
    LoadBalanceIsKey();
    LoadBalanceLetters();
    PeerKeyFree(LOAD_BALANCE, v, 'y', 't');
    KeyRead("\t", LOAD_BALANCE, v);
    AddressFree(LOAD_BALANCE, v, 'r');
    PortFree(LOAD_BALANCE, v, 't');
    MaxKeysFree(LOAD_BALANCE, v);
    LoadBalanceIsNoShortKey(v);
  }

  // ---------------------------------------------------------------------
  // The first and the last line
  // ---------------------------------------------------------------------

  /** A keyword without quotes that is neither around a quoted value nor in it. */
  lemma QuotedFree(a: string, v: string, b: string, k: string, c: char)
    requires a != "" && a[|a| - 1] == '\"' && b != "" && b[0] == '\"' && '\"' !in k
    requires c in k && c !in a && c !in b && !Contains(v, k)
    ensures !Contains(a + v + b, k)
  {
    AbsentChar(a, k, c);
    AbsentChar(b, k, c);
    AbsentAround(a, v, b, k);
  }

  lemma FirstLineFree(name: string, k: string, c: char)
    requires c in k && c !in "failover peer \"{" && '\"' !in k && !Contains(name, k)
    ensures !Contains(PeerFirst(name), k)
  {
    assert forall d | d in "failover peer \"" || d in "\" {" :: d in "failover peer \"{";
    QuotedFree("failover peer \"", name, "\" {", k, c);
  }

  lemma FirstLineNoAddresses(name: string)
    requires Clean(name)
    ensures !Contains(PeerFirst(name), PRIMARY)
    ensures !Contains(PeerFirst(name), ADDRESS) && !Contains(PeerFirst(name), PEER_ADDRESS)
    ensures !Contains(PeerFirst(name), PORT) && !Contains(PeerFirst(name), PEER_PORT)
  {
    hide Contains, PeerFirst;
    FirstLineFree(name, PRIMARY, 'y');
    FirstLineFree(name, ADDRESS, 'd');
    FirstLineFree(name, PORT, 't');
    NoPeerPrefix(PeerFirst(name));
  }

  lemma FirstLineNoLimits(name: string)
    requires Clean(name)
    ensures !Contains(PeerFirst(name), MAX_RESPONSE_DELAY) && !Contains(PeerFirst(name), MAX_UNACKED_UPDATES)
    ensures !Contains(PeerFirst(name), LOAD_BALANCE)
  {
    hide Contains, PeerFirst, MAX_RESPONSE_DELAY, MAX_UNACKED_UPDATES, LOAD_BALANCE;
    LettersOfQuotedKeys();
    FirstLineFree(name, MAX_RESPONSE_DELAY, 'x');
    FirstLineFree(name, MAX_UNACKED_UPDATES, 'x');
    FirstLineFree(name, LOAD_BALANCE, 'b');
  }

  lemma FirstLineNoBlocks(name: string)
    requires Clean(name)
    ensures !Contains(PeerFirst(name), MCLT) && !Contains(PeerFirst(name), SPLIT)
    ensures !Contains(PeerFirst(name), SUBNET) && !Contains(PeerFirst(name), HOST)
  {
    hide Contains, PeerFirst;
    FirstLineFree(name, MCLT, 'm');
    FirstLineFree(name, SPLIT, 't');
    FirstLineFree(name, SUBNET, 'b');
    FirstLineFree(name, HOST, 'h');
  }

  lemma FirstLineHasNoKey(p: Peer, name: string)
    requires Clean(name)
    ensures PeerField(p, PeerFirst(name)) == Ok(p)
    ensures Passed(PeerFirst(name))
  {
    hide Contains, Field;
    FirstLineNoAddresses(name);
    FirstLineNoLimits(name);
    FirstLineNoBlocks(name);
    FirstLineIsLine(name);
  }

  lemma FirstLineIsLine(name: string)
    requires Clean(name)
    ensures OneLine(PeerFirst(name)) && !EndsWith(PeerFirst(name), "}")
    ensures StartsWith(PeerFirst(name), FAILOVER_PEER)
  {
    assert PeerFirst(name) == FAILOVER_PEER + (" \"" + name + "\" {");
    assert PeerFirst(name)[|PeerFirst(name)| - 1] == '{';
  }

  lemma BraceCut(x: string)
    requires '{' !in x
    ensures Split(x + "{", "{")[0] == x
  {
    SplitAtChar(x, '{', "");
    assert x + ['{'] + "" == x + "{";
  }

  lemma QuoteCut(name: string)
    requires '\"' !in name
    ensures Split("\"" + (name + ("\"" + " ")), "\"") == ["", name, " "]
  {
    SplitAtChar("", '\"', name + ("\"" + " "));
    assert "" + ['\"'] + (name + ("\"" + " ")) == "\"" + (name + ("\"" + " "));
    SplitAtChar(name, '\"', " ");
    assert name + ['\"'] + " " == name + ("\"" + " ");
    SplitNoChar(" ", '\"');
  }

  lemma NameRead(name: string)
    requires Clean(name)
    ensures PeerName(PeerFirst(name)) == Ok(name)
  {
    var quoted := "\"" + (name + ("\"" + " "));
    NameShape(name, quoted);
    assert '\"' !in name && '{' !in quoted;
    BraceCut(quoted);
    QuoteCut(name);
    hide Contains, Split, Strip, Clean, PeerFirst, FAILOVER_PEER;
    PeerNameOf(quoted + "{");
  }

  lemma NameShape(name: string, quoted: string)
    requires Clean(name) && quoted == "\"" + (name + ("\"" + " "))
    ensures PeerFirst(name) == FAILOVER_PEER + (" " + (quoted + "{"))
    ensures !Contains(quoted + "{", FAILOVER_PEER)
  {
    hide Contains;
    assert quoted + "{" == "\"" + name + "\" {";
    QuotedFree("\"", name, "\" {", FAILOVER_PEER, 'f');
  }

  lemma PeerNameOf(rest: string)
    requires |rest| > 1 && rest[0] == '\"' && rest[|rest| - 1] == '{' && !Contains(rest, FAILOVER_PEER)
    ensures Split(Strip(FAILOVER_PEER + (" " + rest)), FAILOVER_PEER) == ["", " " + rest]
    ensures Strip(" " + rest) == rest
  {
    var line := FAILOVER_PEER + (" " + rest);
    StripPad("", line);
    assert "" + line == line;
    KeyCut(FAILOVER_PEER, rest);
    StripPad(" ", rest);
  }

  lemma TooShort(line: string, k: string)
    requires |line| < |k|
    ensures !Contains(line, k)
  {
  }

  /** Lines shorter than every keyword leave the peer as it is. */
  lemma ShortLine(p: Peer, line: string)
    requires |line| < 4 && OneLine(line)
    ensures PeerField(p, line) == Ok(p) && Passed(line)
  {
  }

  lemma SecondaryIsShortOf(line: string)
    requires line == "secondary;"
    ensures !Contains(line, MAX_RESPONSE_DELAY) && !Contains(line, MAX_UNACKED_UPDATES)
    ensures !Contains(line, LOAD_BALANCE) && !Contains(line, SUBNET) && !Contains(line, HOST)
  {
    hide Contains;
    TooShort(line, MAX_RESPONSE_DELAY);
    TooShort(line, MAX_UNACKED_UPDATES);
    TooShort(line, LOAD_BALANCE);
    AbsentChar(line, SUBNET, 'u');
    AbsentChar(line, HOST, 'h');
  }

  lemma SecondaryLine(p: Peer)
    ensures PeerField(p, "secondary;") == Ok(p) && Passed("secondary;")
  {
    hide Contains, Field;
    var line := "secondary;";
    AbsentChar(line, PRIMARY, 'p');
    AbsentPair(line, ADDRESS, 1);
    AbsentChar(line, PORT, 'p');
    NoPeerPrefix(line);
    AbsentChar(line, MCLT, 'm');
    AbsentChar(line, SPLIT, 'p');
    SecondaryIsShortOf(line);
  }

  lemma PrimaryLine(p: Peer)
    ensures PeerField(p, "\tprimary;") == Ok(p.(primary := true)) && Passed("\tprimary;")
  {
    ContainsAt("\tprimary;", "\t", PRIMARY, ";");
    AbsentChar("\tprimary;", SUBNET, 'u');
    AbsentChar("\tprimary;", HOST, 'h');
  }

  // ---------------------------------------------------------------------
  // The whole block
  // ---------------------------------------------------------------------

  ghost predicate CleanPeer(p: Peer) {
    && p.name.Some? && Clean(p.name.value)
    && CleanOpt(p.address) && CleanOpt(p.port) && CleanOpt(p.peerAddress) && CleanOpt(p.peerPort)
    && CleanOpt(p.maxResponseDelay) && CleanOpt(p.maxUnackedUpdates) && CleanOpt(p.mclt)
    && CleanOpt(p.split) && CleanOpt(p.loadBalance)
  }

  lemma PeerStep(line: string, rest: seq<string>, p: Peer, q: Peer)
    requires PeerField(p, line) == Ok(q) && !EndsWith(line, "}")
    ensures PeerLines([line] + rest, p, true) == PeerLines(rest, q, true)
  {
    assert ([line] + rest)[1..] == rest;
  }

  /** An optional line sets its field, and its absence leaves the field alone. */
  lemma PeerOptStep(key: string, v: Option<string>, rest: seq<string>, p: Peer, q: Peer)
    requires v.None? ==> q == p
    requires v.Some? ==> PeerField(p, "\t" + key + " " + v.value + ";") == Ok(q)
    ensures PeerLines(OptLine("\t", key, v) + rest, p, true) == PeerLines(rest, q, true)
  {
    if v.None? {
      assert OptLine("\t", key, v) + rest == rest;
    } else {
      var line := "\t" + key + " " + v.value + ";";
      assert line[|line| - 1] == ';';
      PeerStep(line, rest, p, q);
    }
  }

  lemma PeerClose(cr: string, rest: seq<string>, p: Peer)
    requires IsCr(cr)
    ensures PeerLines(CrLine(cr, "", "}") + rest, p, true) == Ok(p)
  {
    if cr == "\r" {
      ShortLine(p, "\r}");
      assert (CrLine(cr, "", "}") + rest)[0] == "\r}";
    } else {
      ShortLine(p, "");
      ShortLine(p, "}");
      assert CrLine(cr, "", "}") + rest == [""] + (["}"] + rest);
      PeerStep("", ["}"] + rest, p, p);
    }
  }

  /** The optional fields of a peer. */
  datatype PeerKey = AtAddress | AtPort | AtPeerAddress | AtPeerPort
    | AtMaxResponseDelay | AtMaxUnackedUpdates | AtMclt | AtSplit | AtLoadBalance

  function KeyText(k: PeerKey): string {
    match k
    case AtAddress => ADDRESS
    case AtPort => PORT
    case AtPeerAddress => PEER_ADDRESS
    case AtPeerPort => PEER_PORT
    case AtMaxResponseDelay => MAX_RESPONSE_DELAY
    case AtMaxUnackedUpdates => MAX_UNACKED_UPDATES
    case AtMclt => MCLT
    case AtSplit => SPLIT
    case AtLoadBalance => LOAD_BALANCE
  }

  function WithField(p: Peer, k: PeerKey, v: Option<string>): Peer {
    match k
    case AtAddress => p.(address := v)
    case AtPort => p.(port := v)
    case AtPeerAddress => p.(peerAddress := v)
    case AtPeerPort => p.(peerPort := v)
    case AtMaxResponseDelay => p.(maxResponseDelay := v)
    case AtMaxUnackedUpdates => p.(maxUnackedUpdates := v)
    case AtMclt => p.(mclt := v)
    case AtSplit => p.(split := v)
    case AtLoadBalance => p.(loadBalance := v)
  }

  lemma PeerKeyLine(p: Peer, k: PeerKey, v: string)
    requires Clean(v)
    ensures var line := "\t" + KeyText(k) + " " + v + ";";
            PeerField(p, line) == Ok(WithField(p, k, Some(v))) && Passed(line)
  {
    hide Clean, PeerField, Passed, ADDRESS, PORT, PEER_ADDRESS, PEER_PORT, MAX_RESPONSE_DELAY, MAX_UNACKED_UPDATES, MCLT, SPLIT, LOAD_BALANCE;
    match k
    case AtAddress => AddressLine(p, v);
    case AtPort => PortLine(p, v);
    case AtPeerAddress => PeerAddressLine(p, v);
    case AtPeerPort => PeerPortLine(p, v);
    case AtMaxResponseDelay => MaxResponseDelayLine(p, v);
    case AtMaxUnackedUpdates => MaxUnackedUpdatesLine(p, v);
    case AtMclt => McltLine(p, v);
    case AtSplit => SplitLine(p, v);
    case AtLoadBalance => LoadBalanceLine(p, v);
  }

  /** The line of an optional field, or its absence, read: a field that had no value gets its value. */
  lemma PeerKeyStep(k: PeerKey, v: Option<string>, rest: seq<string>, p: Peer)
    requires CleanOpt(v) && WithField(p, k, None) == p
    ensures PeerLines(OptLine("\t", KeyText(k), v) + rest, p, true) == PeerLines(rest, WithField(p, k, v), true)
    ensures forall l | l in OptLine("\t", KeyText(k), v) :: Passed(l)
  {
    hide Contains, Clean, PeerField, EndsWith, KeyText, WithField;
    if v.Some? {
      PeerKeyLine(p, k, v.value);
    }
    PeerOptStep(KeyText(k), v, rest, p, WithField(p, k, v));
  }

  /** The fields of a printed block, read line by line, are the fields that were printed. */
  lemma PeerFieldsTrip(cr: string, p: Peer, rest: seq<string>, q: Peer)
    requires IsCr(cr) && CleanPeer(p)
    requires q == NEW_PEER.(name := p.name, primary := p.primary)
    ensures PeerLines(PeerFields(cr, p, rest), q, true) == Ok(p.(enabled := true))
  {
    hide Clean, PeerLines, OptLine, CrLine;
    var l10 := CrLine(cr, "", "}") + rest;
    var l9 := OptLine("\t", LOAD_BALANCE, p.loadBalance) + l10;
    var l8 := OptLine("\t", SPLIT, p.split) + l9;
    var l7 := OptLine("\t", MCLT, p.mclt) + l8;
    var l6 := OptLine("\t", MAX_UNACKED_UPDATES, p.maxUnackedUpdates) + l7;
    var l5 := OptLine("\t", MAX_RESPONSE_DELAY, p.maxResponseDelay) + l6;
    var l4 := OptLine("\t", PEER_PORT, p.peerPort) + l5;
    var l3 := OptLine("\t", PEER_ADDRESS, p.peerAddress) + l4;
    var l2 := OptLine("\t", PORT, p.port) + l3;
    PeerKeyStep(AtAddress, p.address, l2, q);
    var p1 := q.(address := p.address);
    PeerKeyStep(AtPort, p.port, l3, p1);
    var p2 := p1.(port := p.port);
    PeerKeyStep(AtPeerAddress, p.peerAddress, l4, p2);
    var p3 := p2.(peerAddress := p.peerAddress);
    PeerKeyStep(AtPeerPort, p.peerPort, l5, p3);
    var p4 := p3.(peerPort := p.peerPort);
    PeerKeyStep(AtMaxResponseDelay, p.maxResponseDelay, l6, p4);
    var p5 := p4.(maxResponseDelay := p.maxResponseDelay);
    PeerKeyStep(AtMaxUnackedUpdates, p.maxUnackedUpdates, l7, p5);
    var p6 := p5.(maxUnackedUpdates := p.maxUnackedUpdates);
    PeerKeyStep(AtMclt, p.mclt, l8, p6);
    var p7 := p6.(mclt := p.mclt);
    PeerKeyStep(AtSplit, p.split, l9, p7);
    var p8 := p7.(split := p.split);
    PeerKeyStep(AtLoadBalance, p.loadBalance, l10, p8);
    var p9 := p8.(loadBalance := p.loadBalance);
    PeerClose(cr, rest, p9);
  }

  /** Reading from the opening line of a printed block gives the peer that was printed. */
  lemma PeerTrip(cr: string, p: Peer, rest: seq<string>)
    requires IsCr(cr) && CleanPeer(p)
    ensures PeerLines([PeerFirst(p.name.value)] + PeerBody(cr, p, rest), NEW_PEER, false) == Ok(p.(enabled := true))
  {
    hide Clean, PeerFirst, PeerFields, Contains, PeerField, PeerName;
    var name := p.name.value;
    var p0 := NEW_PEER.(name := p.name);
    FirstLineIsLine(name);
    NameRead(name);
    FirstLineHasNoKey(p0, name);
    var fields := PeerFields(cr, p, rest);
    var body := PeerBody(cr, p, rest);
    assert ([PeerFirst(name)] + body)[1..] == body;
    PrimaryLine(p0);
    SecondaryLine(p0);
    PeerStep(body[0], fields, p0, p0.(primary := p.primary));
    PeerFieldsTrip(cr, p, rest, p0.(primary := p.primary));
  }

  /** No line of a printed block stops the searches for `subnet` and `host`. */
  lemma PeerLinesPassed(cr: string, p: Peer)
    requires IsCr(cr) && CleanPeer(p)
    ensures Passed(PeerFirst(p.name.value))
    ensures forall l | l in PeerBody(cr, p, []) :: Passed(l)
  {
    hide Clean, Passed, PeerLines, OptLine, PeerFirst;
    FirstLineHasNoKey(NEW_PEER, p.name.value);
    PrimaryLine(NEW_PEER);
    SecondaryLine(NEW_PEER);
    ShortLine(NEW_PEER, "");
    ShortLine(NEW_PEER, "}");
    ShortLine(NEW_PEER, "\r}");
    PeerKeyStep(AtAddress, p.address, [], NEW_PEER);
    PeerKeyStep(AtPort, p.port, [], NEW_PEER);
    PeerKeyStep(AtPeerAddress, p.peerAddress, [], NEW_PEER);
    PeerKeyStep(AtPeerPort, p.peerPort, [], NEW_PEER);
    PeerKeyStep(AtMaxResponseDelay, p.maxResponseDelay, [], NEW_PEER);
    PeerKeyStep(AtMaxUnackedUpdates, p.maxUnackedUpdates, [], NEW_PEER);
    PeerKeyStep(AtMclt, p.mclt, [], NEW_PEER);
    PeerKeyStep(AtSplit, p.split, [], NEW_PEER);
    PeerKeyStep(AtLoadBalance, p.loadBalance, [], NEW_PEER);
    assert cr == "\r" ==> "" + cr + "}" == "\r}";
  }
}
