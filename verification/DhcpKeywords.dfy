/** Which keywords a printed line contains: the facts that let the reader find every field. */
module DhcpKeywords {
  import opened Common
  import opened Text
  import opened Lines
  import opened DhcpText

  /** A value free of keywords and delimiters, with no leading blank (the reader strips one). */
  ghost predicate Clean(v: string) {
    && (forall c | c in v :: c !in "\n\r;{}\"")
    && (v != "" ==> !IsSpace(v[0]))
    && !Contains(v, PRIMARY) && !Contains(v, ADDRESS) && !Contains(v, PORT)
    && !Contains(v, MAX_RESPONSE_DELAY) && !Contains(v, MAX_UNACKED_UPDATES)
    && !Contains(v, MCLT) && !Contains(v, SPLIT) && !Contains(v, LOAD_BALANCE)
    && !Contains(v, FAILOVER_PEER) && !Contains(v, SUBNET) && !Contains(v, NTP)
    && !Contains(v, ROUTERS) && !Contains(v, DNS) && !Contains(v, INTERFACE)
    && !Contains(v, AUTHORITATIVE) && !Contains(v, POOL) && !Contains(v, RANGE)
    && !Contains(v, HOST) && !Contains(v, HARDWARE)
  }

  /** The longer keywords are absent from a clean value as well. */
  lemma CleanLonger(v: string)
    requires Clean(v)
    ensures !Contains(v, PEER_ADDRESS) && !Contains(v, PEER_PORT)
    ensures !Contains(v, SUBNET_MASK) && !Contains(v, BROADCAST) && !Contains(v, FIXED_ADDRESS)
  {
    AbsentLonger(v, "peer ", ADDRESS, "");
    AbsentLonger(v, "peer ", PORT, "");
    AbsentLonger(v, "option ", SUBNET, "-mask");
    AbsentLonger(v, "option broadcast-", ADDRESS, "");
    AbsentLonger(v, "fixed-", ADDRESS, "");
    assert "peer " + ADDRESS + "" == PEER_ADDRESS && "peer " + PORT + "" == PEER_PORT;
    assert "option " + SUBNET + "-mask" == SUBNET_MASK;
    assert "option broadcast-" + ADDRESS + "" == BROADCAST;
    assert "fixed-" + ADDRESS + "" == FIXED_ADDRESS;
  }

  ghost predicate CleanOpt(v: Option<string>) {
    v.Some? ==> Clean(v.value)
  }

  ghost predicate Blank(s: string) {
    forall c | c in s :: IsSpace(c)
  }

  /** Every space in `k` comes after one of the characters of `x`. */
  predicate Spaced(k: string, x: string) {
    forall j | 0 <= j < |k| && k[j] == ' ' :: j > 0 && k[j - 1] in x
  }

  /** A character of `k` that does not occur in `s` keeps `k` out of `s`. */
  lemma AbsentChar(s: string, k: string, c: char)
    requires c in k && c !in s
    ensures !Contains(s, k)
  {
    var j :| 0 <= j < |k| && k[j] == c;
    forall i: nat | MatchAt(s, k, i)
      ensures false
    {
      MatchChar(s, k, i, j);
    }
  }

  /** A longer keyword is absent where a part of it is. */
  lemma AbsentLonger(s: string, a: string, k: string, b: string)
    requires !Contains(s, k)
    ensures !Contains(s, a + k + b)
  {
    forall i: nat | MatchAt(s, a + k + b, i)
      ensures false
    {
      var whole := a + k + b;
      assert s[i..i + |whole|] == whole;
      assert whole[|a|..|a| + |k|] == k;
      assert s[i..i + |whole|][|a|..|a| + |k|] == s[i + |a|..i + |a| + |k|];
      assert MatchAt(s, k, i + |a|);
    }
  }

  lemma ValueFree(a: string, v: string, k: string, x: string)
    requires a != "" && a[|a| - 1] !in x && Spaced(k, x) && k != "" && ';' !in k
    requires !Contains(a, k) && !Contains(v, k)
    requires k != " "
    ensures !Contains(a + " " + v + ";", k)
  {
    hide Contains;
    var b := a + " ";
    KeyFree(a, k, x);
    assert EndsApart(b, k);
    AbsentLeft(b, v, k);
    AbsentChar(";", k, k[0]);
    AbsentRight(b + v, ";", k);
  }

  lemma KeyFree(a: string, k: string, x: string)
    requires a != "" && a[|a| - 1] !in x && Spaced(k, x) && k != "" && !Contains(a, k)
    ensures !Contains(a + " ", k)
  {
    assert forall j | 0 <= j < |k| && k[j] == ' ' :: j > 0 && k[j - 1] != a[|a| - 1];
    forall i: nat | MatchAt(a + " ", k, i)
      ensures false
    {
      MatchInConcat(a, " ", k, i);
      if i >= |a| {
        MatchChar(a + " ", k, i, 0);
      }
    }
  }

  /** A one-word keyword that is neither in the key of a line nor in its value is not in the line. */
  lemma WordFree(indent: string, key: string, v: string, k: string, c: char)
    requires Blank(indent) && key != ""
    requires c in k && c !in key && !IsSpace(c) && ';' !in k && ' ' !in k
    requires !Contains(v, k)
    ensures !Contains(indent + key + " " + v + ";", k)
  {
    AbsentChar(indent + key, k, c);
    ValueFree(indent + key, v, k, "");
  }

  /** The same for a keyword of several words: the key must not end like one of them. */
  lemma PhraseFree(indent: string, key: string, v: string, k: string, c: char, x: string)
    requires Blank(indent) && key != "" && key[|key| - 1] !in x
    requires c in k && c !in key && !IsSpace(c) && ';' !in k && Spaced(k, x)
    requires !Contains(v, k)
    ensures !Contains(indent + key + " " + v + ";", k)
  {
    AbsentChar(indent + key, k, c);
    ValueFree(indent + key, v, k, x);
  }

  lemma AbsentAfterSpace(w: string, k: string)
    requires k != "" && k[0] != ' ' && !Contains(w, k)
    ensures !Contains(" " + w, k)
  {
    forall i: nat | MatchAt(" " + w, k, i)
      ensures false
    {
      if i == 0 {
        MatchChar(" " + w, k, i, i);
      } else {
        MatchInConcat(" ", w, k, i);
      }
    }
  }

  /** All the reader asks of a value by itself. */
  predicate Plain(v: string) {
    ';' !in v && (v != "" ==> !IsSpace(v[0]))
  }

  /** What is left after the key: the value, up to its semicolon. */
  lemma ValueRead(v: string)
    requires Plain(v)
    ensures Split(Strip(" " + (v + ";")), ";")[0] == v
  {
    StripPad(" ", v + ";");
    SplitAtChar(v, ';', "");
    assert v + ";" == v + [';'] + "";
  }

  /** Cutting a text that begins with the key. */
  lemma KeyCut(key: string, rest: string)
    requires key != "" && key[0] != ' ' && !Contains(rest, key)
    ensures Split(key + (" " + rest), key) == ["", " " + rest]
  {
    AbsentAfterSpace(rest, key);
    SplitWhole(" " + rest, key);
    SplitAtFirst("", key, " " + rest);
    assert "" + key + (" " + rest) == key + (" " + rest);
  }

  /** Reading a `key value;` line back gives the value. */
  lemma KeyRead(indent: string, key: string, v: string)
    requires Blank(indent) && key != "" && !IsSpace(key[0]) && ';' !in key
    requires Plain(v) && !Contains(v, key)
    ensures Contains(indent + key + " " + v + ";", key)
    ensures Field(indent + key + " " + v + ";", key) == Ok(v)
    ensures Strip(indent + key + " " + v + ";") == key + (" " + (v + ";"))
  {
    var line := indent + key + " " + v + ";";
    var text := key + (" " + (v + ";"));
    assert line == indent + key + (" " + (v + ";")) == indent + text;
    ContainsAt(line, indent, key, " " + (v + ";"));
    StripPad(indent, text);
    AbsentChar(";", key, key[0]);
    AbsentRight(v, ";", key);
    KeyCut(key, v + ";");
    ValueRead(v);
  }

  lemma SpacingPeers()
    ensures Spaced(PEER_ADDRESS, "r") && Spaced(PEER_PORT, "r") && Spaced(FAILOVER_PEER, "r")
  {
  }

  lemma SpacingOptions()
    ensures Spaced(NTP, "n") && Spaced(SUBNET_MASK, "n") && Spaced(BROADCAST, "n")
    ensures Spaced(ROUTERS, "n") && Spaced(DNS, "n") && Spaced(HARDWARE, "e")
  {
  }

  // The letters of the keywords, stated once so that the proofs about lines need not spell them.

  lemma LettersOfFirstKeys()
    ensures 'y' in PRIMARY && 'i' in PRIMARY && ' ' !in PRIMARY && ';' !in PRIMARY
    ensures 'a' in ADDRESS && 'r' in ADDRESS && ' ' !in ADDRESS && ';' !in ADDRESS
    ensures 't' in PORT && 'o' in PORT && ' ' !in PORT && ';' !in PORT
    ensures 'm' in MCLT && 't' in MCLT && ' ' !in MCLT && ';' !in MCLT
    ensures 't' in SPLIT && ' ' !in SPLIT && ';' !in SPLIT
  {
  }

  lemma LettersOfMaxKeys()
    ensures 'y' in MAX_RESPONSE_DELAY && ' ' !in MAX_RESPONSE_DELAY && ';' !in MAX_RESPONSE_DELAY
    ensures 'k' in MAX_UNACKED_UPDATES && ' ' !in MAX_UNACKED_UPDATES && ';' !in MAX_UNACKED_UPDATES
  {
  }

  lemma LettersOfQuotedKeys()
    ensures 'x' in MAX_RESPONSE_DELAY && '\"' !in MAX_RESPONSE_DELAY
    ensures 'x' in MAX_UNACKED_UPDATES && '\"' !in MAX_UNACKED_UPDATES
    ensures 'b' in LOAD_BALANCE && '\"' !in LOAD_BALANCE
  {
    hide MAX_RESPONSE_DELAY, MAX_UNACKED_UPDATES, LOAD_BALANCE;
    LettersOfMaxResponseDelay();
    LettersOfMaxUnackedUpdates();
    LettersOfLoadBalance();
  }

  lemma LettersOfMaxResponseDelay()
    ensures 'x' in MAX_RESPONSE_DELAY && '\"' !in MAX_RESPONSE_DELAY
  {
  }

  lemma LettersOfMaxUnackedUpdates()
    ensures 'x' in MAX_UNACKED_UPDATES && '\"' !in MAX_UNACKED_UPDATES
  {
  }

  lemma LettersOfLoadBalance()
    ensures 'b' in LOAD_BALANCE && '\"' !in LOAD_BALANCE
  {
  }

  lemma LettersOfBlocks()
    ensures 'b' in SUBNET && 't' in SUBNET && ' ' !in SUBNET && ';' !in SUBNET
    ensures 'h' in HOST && ' ' !in HOST && ';' !in HOST
    ensures 'l' in POOL && ' ' !in POOL && ';' !in POOL
  {
  }

  /** The blanks and delimiters are not in any key. */
  predicate IsKey(key: string) {
    key != "" && !IsSpace(key[0]) && ';' !in key && '\n' !in key && '\r' !in key && 'h' !in key
  }
}
