/** The printed reserved hosts as lines, and the scan that finds them again. */
module DhcpHostScan {
  import opened Common
  import opened Text
  import opened Lines
  import opened DhcpText
  import opened DhcpKeywords
  import opened DhcpPeerTrip
  import opened DhcpBlocksTrip
  import opened DhcpHostsTrip

  // ---------------------------------------------------------------------
  // Hosts
  // ---------------------------------------------------------------------

  ghost predicate CleanHost(h: Host) {
    && h.host.Some? && Clean(h.host.value) && h.host.value != ""
    && h.hwAddr.Some? && Clean(h.hwAddr.value)
    && h.fixedAddr.Some? && Clean(h.fixedAddr.value)
  }

  ghost predicate CleanHosts(hs: seq<Host>) {
    forall h | h in hs :: CleanHost(h)
  }

  /** The host as it is read back: its name has gained one trailing blank. */
  function Gained(h: Host): Host {
    if h.host.Some? then h.(host := Some(h.host.value + " ")) else h
  }

  function AllGained(hs: seq<Host>): seq<Host> {
    if hs == [] then [] else [Gained(hs[0])] + AllGained(hs[1..])
  }

  function HardwareText(h: Host): string {
    "\thardware ethernet " + Show(h.hwAddr) + ";"
  }

  function FixedText(h: Host): string {
    "\tfixed-address " + Show(h.fixedAddr) + ";"
  }

  /** The lines of a host after its first. */
  function HostBody(cr: string, h: Host): seq<string> {
    CrLine(cr, "    ", HardwareText(h)) + (CrLine(cr, "    ", FixedText(h)) + CrLine(cr, "    ", "}"))
  }

  function HostsLines(cr: string, hs: seq<Host>): seq<string> {
    if hs == [] then []
    else [HostFirst(Show(hs[0].host))] + HostBody(cr, hs[0]) + HostsLines(cr, hs[1..])
  }

  /** A line that is nothing to the subnet and nothing to the pool. */
  ghost predicate Foreign(line: string) {
    NoSubnetKey(line) && NoPoolKey(line) && OneLine(line)
  }

  lemma CrHardware(cr: string, h: Host, g: Host, rest: seq<string>)
    requires IsCr(cr) && CleanHost(h)
    ensures forall l | l in CrLine(cr, "    ", HardwareText(h)) :: Foreign(l)
    ensures HostLines(CrLine(cr, "    ", HardwareText(h)) + rest, g) == HostLines(rest, g.(hwAddr := h.hwAddr))
  {
    hide Clean, NoSubnetKey, NoPoolKey, HostField, OneLine;
    var v := h.hwAddr.value;
    PadLine(g, "    ");
    if cr == "\r" {
      var line := "    \r\t" + HARDWARE + " " + v + ";";
      HardwareLine(g, "    \r\t", v);
      assert "    " + cr + HardwareText(h) == line;
      assert CrLine(cr, "    ", HardwareText(h)) == [line];
      assert ([line] + rest)[1..] == rest;
    } else {
      var line := "\t" + HARDWARE + " " + v + ";";
      HardwareLine(g, "\t", v);
      assert HardwareText(h) == line;
      assert CrLine(cr, "    ", HardwareText(h)) + rest == ["    "] + ([line] + rest);
      assert (["    "] + ([line] + rest))[1..] == [line] + rest;
      assert ([line] + rest)[1..] == rest;
    }
  }

  lemma CrFixed(cr: string, h: Host, g: Host, rest: seq<string>)
    requires IsCr(cr) && CleanHost(h)
    ensures forall l | l in CrLine(cr, "    ", FixedText(h)) :: Foreign(l)
    ensures HostLines(CrLine(cr, "    ", FixedText(h)) + rest, g) == HostLines(rest, g.(fixedAddr := h.fixedAddr))
  {
    hide Clean, NoSubnetKey, NoPoolKey, HostField, OneLine;
    var v := h.fixedAddr.value;
    PadLine(g, "    ");
    if cr == "\r" {
      var line := "    \r\t" + FIXED_ADDRESS + " " + v + ";";
      FixedLine(g, "    \r\t", v);
      assert "    " + cr + FixedText(h) == line;
      assert CrLine(cr, "    ", FixedText(h)) == [line];
      assert ([line] + rest)[1..] == rest;
    } else {
      var line := "\t" + FIXED_ADDRESS + " " + v + ";";
      FixedLine(g, "\t", v);
      assert FixedText(h) == line;
      assert CrLine(cr, "    ", FixedText(h)) + rest == ["    "] + ([line] + rest);
      assert (["    "] + ([line] + rest))[1..] == [line] + rest;
      assert ([line] + rest)[1..] == rest;
    }
  }

  lemma CrClose(cr: string, g: Host)
    requires IsCr(cr)
    ensures forall l | l in CrLine(cr, "    ", "}") :: Foreign(l)
    ensures HostLines(CrLine(cr, "    ", "}"), g) == Ok(g)
  {
    hide NoSubnetKey, NoPoolKey, HostField;
    PadLine(g, "    ");
    PadLine(g, "}");
    PadLine(g, "    \r}");
    if cr == "\r" {
      assert "    " + cr + "}" == "    \r}";
      assert CrLine(cr, "    ", "}") == ["    \r}"];
    } else {
      assert CrLine(cr, "    ", "}")[1..] == ["}"];
      assert ["}"][1..] == [];
      assert HostLines(["}"], g) == Ok(g);
    }
  }

  lemma HostBodyForeign(cr: string, h: Host)
    requires IsCr(cr) && CleanHost(h)
    ensures forall l | l in HostBody(cr, h) :: Foreign(l)
    ensures Foreign(HostFirst(Show(h.host)))
  {
    hide Foreign, CleanHost, CrLine, HardwareText, FixedText, HostFirst;
    CrHardware(cr, h, NEW_HOST, []);
    CrFixed(cr, h, NEW_HOST, []);
    CrClose(cr, NEW_HOST);
    NameForeign(h);
  }

  lemma {:induction false} HostsForeign(cr: string, hs: seq<Host>)
    requires IsCr(cr) && CleanHosts(hs)
    ensures forall l | l in HostsLines(cr, hs) :: Foreign(l)
    decreases |hs|
  {
    hide Foreign, CleanHost, HostFirst, HostBody;
    if hs != [] {
      assert CleanHost(hs[0]);
      HostBodyForeign(cr, hs[0]);
      HostsForeign(cr, hs[1..]);
    }
  }

  lemma NameForeign(h: Host)
    requires CleanHost(h)
    ensures Foreign(HostFirst(Show(h.host)))
  {
    hide NoSubnetKey, NoPoolKey, Clean, HostFirst;
    NameLine(NEW_HOST, h.host.value);
  }

  /** One host, read from the text printed for it. */
  lemma HostTrip(cr: string, h: Host)
    requires IsCr(cr) && CleanHost(h)
    ensures ParseHost(PrintHost(cr, h)) == Ok(Gained(h))
  {
    hide Clean, HostField, CrLine, Foreign, HostFirst, NoSubnetKey, NoPoolKey, Contains;
    var name := h.host.value;
    var body := HostBody(cr, h);
    PrintHostLines(cr, h);
    HostBodyForeign(cr, h);
    OneLines(body);
    SplitBelow(HostFirst(name), body);
    NameLine(NEW_HOST, name);
    SplitNoChar(HostFirst(name), '\n');
    assert ([HostFirst(name)] + body)[1..] == body;
    var g0 := NEW_HOST.(host := Some(name + " "));
    CrHardware(cr, h, g0, CrLine(cr, "    ", FixedText(h)) + CrLine(cr, "    ", "}"));
    var g1 := g0.(hwAddr := h.hwAddr);
    CrFixed(cr, h, g1, CrLine(cr, "    ", "}"));
    CrClose(cr, g1.(fixedAddr := h.fixedAddr));
  }

  lemma OneLines(ls: seq<string>)
    requires forall l | l in ls :: Foreign(l)
    ensures AllOneLine(ls)
  {
  }

  lemma PrintHostLines(cr: string, h: Host)
    requires IsCr(cr)
    ensures PrintHost(cr, h) == Below(HostFirst(Show(h.host)), HostBody(cr, h))
  {
    hide CrLine;
    var s := HostFirst(Show(h.host));
    var l3 := CrLine(cr, "    ", "}");
    var l2 := CrLine(cr, "    ", FixedText(h)) + l3;
    BelowCr(s, cr, "    ", HardwareText(h), l2);
    var s1 := s + NL + ("    " + cr + HardwareText(h));
    BelowCr(s1, cr, "    ", FixedText(h), l3);
    BelowCr(s1 + NL + ("    " + cr + FixedText(h)), cr, "    ", "}", []);
    assert l3 + [] == l3;
  }

  /** The printed hosts are their lines, below whatever was printed before. */
  lemma {:induction false} PrintHostsLines(s: string, cr: string, hs: seq<Host>)
    requires IsCr(cr)
    ensures Below(s, HostsLines(cr, hs)) == s + PrintHosts(cr, hs)
    decreases |hs|
  {
    if hs == [] {
      assert s + "" == s;
    } else {
      hide HostBody, HostFirst, PrintHost;
      var h, rest := hs[0], HostsLines(cr, hs[1..]);
      var first, body := HostFirst(Show(h.host)), HostBody(cr, h);
      BelowAppend(s, [first] + body, rest);
      BelowAppend(s, [first], body);
      assert Below(s, [first]) == s + NL + first;
      BelowPrefix(s + NL, first, body);
      PrintHostLines(cr, h);
      PrintHostsLines(s + NL + PrintHost(cr, h), cr, hs[1..]);
      AssocHost(s, PrintHost(cr, h), PrintHosts(cr, hs[1..]));
    }
  }

  lemma AssocHost(s: string, x: string, y: string)
    ensures s + NL + x + y == s + (NL + x + y)
  {
  }

  // ---------------------------------------------------------------------
  // The scan for hosts
  // ---------------------------------------------------------------------

  /** A printed host opens with the keyword, and its only closing brace is its last character. */
  lemma HostShape(cr: string, h: Host)
    requires IsCr(cr) && CleanHost(h)
    ensures |PrintHost(cr, h)| > 4 && MatchAt(PrintHost(cr, h), HOST, 0)
    ensures forall i | 0 <= i < |PrintHost(cr, h)| :: PrintHost(cr, h)[i] == '}' <==> i == |PrintHost(cr, h)| - 1
  {
    hide Contains;
    var open := PrintHost(cr, h)[..|PrintHost(cr, h)| - 1];
    var text := ("host " + Show(h.host) + " {") + NL + ("    " + cr + HardwareText(h))
                + NL + ("    " + cr + FixedText(h)) + NL + ("    " + cr);
    assert PrintHost(cr, h) == text + "}";
    NoBrace(Show(h.host), Show(h.hwAddr), Show(h.fixedAddr), cr);
    assert text[..4] == HOST;
    assert PrintHost(cr, h)[0..0 + 4] == text[..4];
  }

  lemma NoBrace(name: string, hw: string, fixed: string, cr: string)
    requires '}' !in name && '}' !in hw && '}' !in fixed && '}' !in cr
    ensures '}' !in ("host " + name + " {") + NL + ("    " + cr + ("\thardware ethernet " + hw + ";"))
                    + NL + ("    " + cr + ("\tfixed-address " + fixed + ";")) + NL + ("    " + cr)
  {
  }

  /** One turn of the scan, standing just before a printed host. */
  lemma ScanOneHost(conf: string, before: string, cr: string, h: Host, after: string, acc: seq<Host>)
    requires IsCr(cr) && CleanHost(h)
    requires conf == before + NL + PrintHost(cr, h) + after
    ensures ScanTurn(conf, acc, |before|) == Running(acc + [Gained(h)], |before| + 1 + |PrintHost(cr, h)|)
  {
    hide PrintHost, ParseHost, CleanHost, Contains;
    var text := PrintHost(cr, h);
    HostShape(cr, h);
    HostTrip(cr, h);
    var at := |before| + 1;
    assert conf[at..at + |text|] == text;
    assert conf[at..at + 4] == text[0..4];
    assert forall i | at <= i < at + |text| :: conf[i] == text[i - at];
    assert !MatchAt(conf, HOST, |before|) by {
      if MatchAt(conf, HOST, |before|) {
        MatchChar(conf, HOST, |before|, 0);
      }
    }
    FindIs(conf, HOST, |before|, at);
    var end := at + |text| - 1;
    forall i | at <= i < end
      ensures !MatchAt(conf, "}", i)
    {
      MatchOfChar(conf, '}', i);
    }
    MatchOfChar(conf, '}', end);
    FindIs(conf, "}", at, end);
    assert conf[at..end + 1] == text;
  }

  lemma ScanAtEnd(conf: string, acc: seq<Host>, turns: nat)
    requires turns > 0
    ensures Scan(conf, acc, |conf|, turns) == Finished(acc)
  {
    FindNone(conf, HOST, |conf|);
  }

  lemma ScanStep(conf: string, acc: seq<Host>, start: nat, turns: nat)
    requires turns > 0 && ScanTurn(conf, acc, start).Running?
    ensures var r := ScanTurn(conf, acc, start); Scan(conf, acc, start, turns) == Scan(conf, r.hosts, r.start, turns - 1)
  {
  }

  lemma {:induction false} ScanHosts(conf: string, before: string, cr: string, hs: seq<Host>, acc: seq<Host>, turns: nat)
    requires IsCr(cr) && CleanHosts(hs) && turns > |hs|
    requires conf == before + PrintHosts(cr, hs)
    ensures Scan(conf, acc, |before|, turns) == Finished(acc + AllGained(hs))
    decreases |hs|
  {
    hide CleanHost, PrintHost, ScanTurn, Gained, Find, MatchAt, Scan;
    if hs == [] {
      assert before + "" == before;
      ScanAtEnd(conf, acc, turns);
      assert acc + AllGained(hs) == acc;
    } else {
      var h, after := hs[0], PrintHosts(cr, hs[1..]);
      assert CleanHost(h);
      var next := before + NL + PrintHost(cr, h);
      AssocHost(before, PrintHost(cr, h), after);
      ScanOneHost(conf, before, cr, h, after, acc);
      ScanStep(conf, acc, |before|, turns);
      AssocGained(acc, Gained(h), AllGained(hs[1..]));
      ScanHosts(conf, next, cr, hs[1..], acc + [Gained(h)], turns - 1);
    }
  }

  lemma AssocGained(acc: seq<Host>, g: Host, gs: seq<Host>)
    ensures acc + [g] + gs == acc + ([g] + gs)
  {
  }

  /** The scan of a whole text whose part before the hosts does not mention `host`. */
  lemma ScanFromStart(conf: string, before: string, cr: string, hs: seq<Host>, turns: nat)
    requires IsCr(cr) && CleanHosts(hs) && turns > |hs| && !Contains(before, HOST)
    requires conf == before + PrintHosts(cr, hs)
    ensures Scan(conf, [], 0, turns) == Finished(AllGained(hs))
  {
    hide Contains, CleanHosts, PrintHost, Scan, Find, MatchAt, HOST;
    ScanHosts(conf, before, cr, hs, [], turns);
    assert [] + AllGained(hs) == AllGained(hs);
    if hs == [] {
      assert before + "" == before;
      HostNowhere(conf, |before|);
    } else {
      SameFirstHost(conf, before, cr, hs);
    }
    SameScan(conf, |before|, turns);
  }

  lemma HostNowhere(conf: string, at: nat)
    requires !Contains(conf, HOST)
    ensures Find(conf, HOST, 0) == Find(conf, HOST, at) == -1
  {
    hide Contains;
    forall i: nat
      ensures !MatchAt(conf, HOST, i)
    {
      NotContainsMatch(conf, HOST, i);
    }
    FindNone(conf, HOST, 0);
    FindNone(conf, HOST, at);
  }

  /** A scan depends on where it starts only by what it finds first. */
  lemma SameScan(conf: string, at: nat, turns: nat)
    requires turns > 0 && Find(conf, HOST, 0) == Find(conf, HOST, at)
    ensures Scan(conf, [], 0, turns) == Scan(conf, [], at, turns)
  {
    hide Find, ParseHost, MatchAt, HOST;
    assert ScanTurn(conf, [], 0) == ScanTurn(conf, [], at);
  }

  lemma SameFirstHost(conf: string, before: string, cr: string, hs: seq<Host>)
    requires IsCr(cr) && CleanHosts(hs) && hs != [] && !Contains(before, HOST)
    requires conf == before + PrintHosts(cr, hs)
    ensures Find(conf, HOST, 0) == Find(conf, HOST, |before|) >= 0
  {
    hide Contains;
    var h := hs[0];
    assert CleanHost(h);
    HostShape(cr, h);
    FirstHost(conf, before, PrintHost(cr, h), PrintHosts(cr, hs[1..]));
  }

  lemma FirstHost(conf: string, before: string, text: string, after: string)
    requires conf == before + (NL + text + after) && MatchAt(text, HOST, 0) && !Contains(before, HOST)
    ensures Find(conf, HOST, 0) == Find(conf, HOST, |before|) == |before| + 1
  {
    hide Contains, HOST;
    assert HOST != "" && '\n' !in HOST by {
      HostHasNoBreak();
    }
    var at, n := |before| + 1, |HOST|;
    assert conf[at..at + n] == text[0..n];
    forall i: nat | i < at
      ensures !MatchAt(conf, HOST, i)
    {
      NoMatchUpToBreak(before, text + after, HOST, i);
      assert NL + text + after == NL + (text + after);
    }
    FindIs(conf, HOST, 0, at);
    FindIs(conf, HOST, |before|, at);
  }

  lemma HostHasNoBreak()
    ensures HOST != "" && '\n' !in HOST
  {
  }

  lemma MatchCovers(s: string, k: string, i: nat, at: nat)
    requires MatchAt(s, k, i)
    ensures i <= at < i + |k| ==> s[at] in k
  {
    if i <= at < i + |k| {
      MatchChar(s, k, i, at - i);
    }
  }

  lemma NoMatchUpToBreak(a: string, b: string, k: string, i: nat)
    requires i <= |a| && !Contains(a, k) && k != "" && '\n' !in k
    ensures !MatchAt(a + (NL + b), k, i)
  {
    if MatchAt(a + (NL + b), k, i) {
      MatchCovers(a + (NL + b), k, i, |a|);
      MatchInConcat(a, NL + b, k, i);
      NotContainsMatch(a, k, i);
    }
  }
}
