/** When the scan for reserved hosts comes to an end. */
module DhcpScanEnds {
  import opened Common
  import opened Text
  import opened Lines
  import opened DhcpText

  // ---------------------------------------------------------------------
  // Reading a host never fails
  // ---------------------------------------------------------------------

  lemma {:induction false} StripLeftKeeps(s: string, k: string)
    requires k != "" && !IsSpace(k[0]) && Contains(s, k)
    ensures Contains(StripLeft(s), k)
  {
    if s != "" && IsSpace(s[0]) {
      var i :| 0 <= i <= |s| && MatchAt(s, k, i);
      MatchChar(s, k, i, 0);
      assert s[1..][i - 1..i - 1 + |k|] == s[i..i + |k|];
      assert MatchAt(s[1..], k, i - 1);
      StripLeftKeeps(s[1..], k);
    }
  }

  lemma {:induction false} StripRightKeeps(s: string, k: string)
    requires k != "" && !IsSpace(k[|k| - 1]) && Contains(s, k)
    ensures Contains(StripRight(s), k)
  {
    if s != "" && IsSpace(s[|s| - 1]) {
      var i :| 0 <= i <= |s| && MatchAt(s, k, i);
      MatchChar(s, k, i, |k| - 1);
      assert s[..|s| - 1][i..i + |k|] == s[i..i + |k|];
      assert MatchAt(s[..|s| - 1], k, i);
      StripRightKeeps(s[..|s| - 1], k);
    }
  }

  /** A line that contains a key is cut by it into at least two pieces. */
  lemma KeyCuts(line: string, k: string)
    requires k != "" && !IsSpace(k[0]) && !IsSpace(k[|k| - 1]) && Contains(line, k)
    ensures |Split(Strip(line), k)| >= 2
  {
    StripLeftKeeps(line, k);
    StripRightKeeps(StripLeft(line), k);
    var i :| 0 <= i <= |Strip(line)| && MatchAt(Strip(line), k, i);
  }

  lemma HostFieldOk(h: Host, line: string)
    ensures HostField(h, line).Ok?
  {
    if Contains(line, HOST) {
      KeyCuts(line, HOST);
    } else if Contains(line, HARDWARE) {
      KeyCuts(line, HARDWARE);
    } else if Contains(line, FIXED_ADDRESS) {
      KeyCuts(line, FIXED_ADDRESS);
    }
  }

  lemma {:induction false} HostLinesOk(lines: seq<string>, h: Host)
    ensures HostLines(lines, h).Ok?
    decreases |lines|
  {
    hide HostField;
    if lines != [] {
      HostFieldOk(h, lines[0]);
      HostLinesOk(lines[1..], HostField(h, lines[0]).value);
    }
  }

  // ---------------------------------------------------------------------
  // The end of the scan
  // ---------------------------------------------------------------------

  /** Just behind the last closing brace. */
  function AfterLastBrace(conf: string): (n: nat)
    ensures n <= |conf|
  {
    FindLast(conf, "}", |conf|) + 1
  }

  /** One turn, by what it finds. */
  lemma TurnCases(conf: string, hosts: seq<Host>, start: nat)
    requires start <= AfterLastBrace(conf)
    ensures var at := Find(conf, HOST, start);
            var r := ScanTurn(conf, hosts, start);
            && (at < 0 <==> r.Finished?)
            && (at >= 0 <==> r.Running?)
            && (at >= AfterLastBrace(conf) ==> r.start == 0)
            && (0 <= at < AfterLastBrace(conf) ==> at < r.start <= AfterLastBrace(conf))
  {
    hide ParseHost;
    var at := Find(conf, HOST, start);
    if at >= 0 {
      var end := Find(conf, "}", at);
      HostOk(if end < 0 then "" else conf[at..end + 1]);
      var last := FindLast(conf, "}", |conf|);
      if at < AfterLastBrace(conf) {
        HostIsNoBrace(conf, at, last);
      }
    }
  }

  lemma HostOk(text: string)
    ensures ParseHost(text).Ok?
  {
    hide HostLines;
    HostLinesOk(Split(text, NL), NEW_HOST);
  }

  lemma HostIsNoBrace(conf: string, at: nat, last: nat)
    requires MatchAt(conf, HOST, at) && MatchAt(conf, "}", last)
    ensures at != last
  {
    MatchChar(conf, HOST, at, 0);
    MatchChar(conf, "}", last, 0);
  }

  /** With no host behind the last brace, every turn moves the start forward. */
  lemma {:induction false} ScanFinishes(conf: string, hosts: seq<Host>, start: nat, turns: nat)
    requires Find(conf, HOST, AfterLastBrace(conf)) < 0
    requires start <= AfterLastBrace(conf) && turns > AfterLastBrace(conf) - start
    ensures Scan(conf, hosts, start, turns).Finished?
    decreases turns
  {
    hide ScanTurn;
    TurnCases(conf, hosts, start);
    var r := ScanTurn(conf, hosts, start);
    if r.Running? {
      ScanFinishes(conf, r.hosts, r.start, turns - 1);
    }
  }

  /** With a host behind the last brace, no turn is the last. */
  lemma {:induction false} ScanRunsOn(conf: string, hosts: seq<Host>, start: nat, turns: nat)
    requires Find(conf, HOST, AfterLastBrace(conf)) >= 0
    requires start <= AfterLastBrace(conf)
    ensures Scan(conf, hosts, start, turns).Running?
    decreases turns
  {
    hide ScanTurn;
    if turns > 0 {
      TurnCases(conf, hosts, start);
      var r := ScanTurn(conf, hosts, start);
      ScanRunsOn(conf, r.hosts, r.start, turns - 1);
    }
  }

  /** The scan of any text ends if and only if no `host` stands behind the last closing brace;
      otherwise it goes on for ever. */
  lemma ScanEndsIff(conf: string)
    ensures (exists turns :: Scan(conf, [], 0, turns).Finished?) <==> Find(conf, HOST, AfterLastBrace(conf)) < 0
    ensures (forall turns :: Scan(conf, [], 0, turns).Running?) <==> Find(conf, HOST, AfterLastBrace(conf)) >= 0
  {
    if Find(conf, HOST, AfterLastBrace(conf)) < 0 {
      ScanFinishes(conf, [], 0, |conf| + 1);
    } else {
      forall turns: nat
        ensures Scan(conf, [], 0, turns).Running?
      {
        ScanRunsOn(conf, [], 0, turns);
      }
    }
  }
}
