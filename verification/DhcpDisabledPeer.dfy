/** A disabled peer in print: every line of its block is commented out. */
module DhcpDisabledPeer {
  import opened Common
  import opened Text
  import opened Lines
  import opened DhcpText
  import opened DhcpKeywords
  import opened DhcpPeerTrip

  predicate IsComment(line: string) {
    line != "" && line[0] == '#'
  }

  /** A text that no search of the reader stops at: not the one for the peer, the subnet or the hosts. */
  ghost predicate Silent(text: string) {
    && (forall l | l in Split(text, NL) :: IsComment(l))
    && !Contains(text, SUBNET) && !Contains(text, HOST)
  }

  // ---------------------------------------------------------------------
  // Parts of a text
  // ---------------------------------------------------------------------

  lemma AbsentPrefix(a: string, b: string, k: string)
    requires !Contains(a + b, k)
    ensures !Contains(a, k)
  {
    forall i: nat | MatchAt(a, k, i)
      ensures false
    {
      assert (a + b)[i..i + |k|] == a[i..i + |k|];
      assert MatchAt(a + b, k, i);
    }
  }

  lemma AbsentSuffix(a: string, b: string, k: string)
    requires !Contains(a + b, k)
    ensures !Contains(b, k)
  {
    forall i: nat | MatchAt(b, k, i)
      ensures false
    {
      assert (a + b)[|a| + i..|a| + i + |k|] == b[i..i + |k|];
      assert MatchAt(a + b, k, |a| + i);
    }
  }

  lemma {:induction false} StripLeftFree(s: string, k: string)
    requires !Contains(s, k)
    ensures !Contains(StripLeft(s), k)
  {
    hide Contains;
    if s != "" && IsSpace(s[0]) {
      assert s == s[..1] + s[1..];
      AbsentSuffix(s[..1], s[1..], k);
      StripLeftFree(s[1..], k);
    }
  }

  lemma {:induction false} StripRightFree(s: string, k: string)
    requires !Contains(s, k)
    ensures !Contains(StripRight(s), k)
  {
    hide Contains;
    if s != "" && IsSpace(s[|s| - 1]) {
      var t := s[..|s| - 1];
      assert s == t + s[|s| - 1..];
      AbsentPrefix(t, s[|s| - 1..], k);
      StripRightFree(t, k);
    }
  }

  lemma StripFree(s: string, k: string)
    requires !Contains(s, k)
    ensures !Contains(Strip(s), k)
  {
    hide Contains;
    StripLeftFree(s, k);
    StripRightFree(StripLeft(s), k);
  }

  /** The lines of a text are lines, and free of what the text is free of. */
  lemma {:induction false} SplitLines(s: string, k: string)
    requires !Contains(s, k)
    ensures AllOneLine(Split(s, NL))
    ensures forall l | l in Split(s, NL) :: !Contains(l, k)
    decreases |s|
  {
    hide Contains;
    if OneLine(s) {
      SplitNoChar(s, '\n');
    } else {
      var i := FirstIndex(s, '\n');
      var x, y := s[..i], s[i + 1..];
      assert s == x + (NL + y) == x + NL + y;
      AbsentPrefix(x, NL + y, k);
      AbsentSuffix(x + NL, y, k);
      SplitFirstLine(x, y);
      SplitLines(y, k);
    }
  }

  lemma {:induction false} JoinIsBelow(ls: seq<string>)
    requires ls != []
    ensures Join(ls, NL) == Below(ls[0], ls[1..])
    decreases |ls|
  {
    if |ls| > 1 {
      var rest := ls[1..];
      JoinIsBelow(rest);
      BelowPrefix(ls[0] + NL, rest[0], rest[1..]);
    }
  }

  lemma JoinedLines(ls: seq<string>)
    requires ls != [] && AllOneLine(ls)
    ensures Split(Join(ls, NL), NL) == ls
  {
    JoinIsBelow(ls);
    assert OneLine(ls[0]);
    SplitNoChar(ls[0], '\n');
    SplitBelow(ls[0], ls[1..]);
  }

  lemma JoinedFree(ls: seq<string>, k: string)
    requires ls != [] && k != "" && '\n' !in k && forall l | l in ls :: !Contains(l, k)
    ensures !Contains(Join(ls, NL), k)
  {
    JoinIsBelow(ls);
    AbsentBelow(ls[0], ls[1..], k);
  }

  // ---------------------------------------------------------------------
  // Comments
  // ---------------------------------------------------------------------

  lemma CommentFree(l: string, k: string)
    requires k != "" && '#' !in k && !Contains(l, k)
    ensures !Contains("#" + l, k)
  {
    hide Contains;
    AbsentChar("#", k, k[0]);
    AbsentLeft("#", l, k);
  }

  lemma StripOneLine(l: string)
    requires OneLine(l)
    ensures OneLine(Strip(l))
  {
    hide Strip;
    ContainsChar(l, '\n');
    StripFree(l, NL);
    ContainsChar(Strip(l), '\n');
  }

  lemma {:induction false} CommentLinesAre(ls: seq<string>, k: string)
    requires k != "" && '#' !in k && AllOneLine(ls) && forall l | l in ls :: !Contains(l, k)
    ensures |CommentLines(ls)| == |ls| && AllOneLine(CommentLines(ls))
    ensures forall l | l in CommentLines(ls) :: IsComment(l) && !Contains(l, k)
    decreases |ls|
  {
    hide Contains, Strip;
    if ls != [] {
      assert OneLine(ls[0]);
      StripOneLine(ls[0]);
      StripFree(ls[0], k);
      CommentFree(Strip(ls[0]), k);
      CommentFree(ls[0], k);
      CommentLinesAre(ls[1..], k);
    }
  }

  lemma BlockWords()
    ensures SUBNET != "" && '\n' !in SUBNET && '#' !in SUBNET
    ensures HOST != "" && '\n' !in HOST && '#' !in HOST
  {
  }

  lemma CommentsSilent(text: string, k: string)
    requires k != "" && '\n' !in k && '#' !in k && !Contains(text, k)
    ensures var t := Join(CommentLines(Split(Strip(text), NL)), NL);
            !Contains(t, k) && forall l | l in Split(t, NL) :: IsComment(l)
  {
    hide Contains, Strip, IsComment;
    StripFree(text, k);
    var ls := Split(Strip(text), NL);
    SplitLines(Strip(text), k);
    CommentLinesAre(ls, k);
    JoinedLines(CommentLines(ls));
    JoinedFree(CommentLines(ls), k);
  }

  /** What is printed of a disabled peer stops none of the searches. */
  lemma DisabledSilent(cr: string, p: Peer)
    requires IsCr(cr) && CleanPeer(p) && !p.enabled
    ensures Silent(PrintPeer(cr, p))
  {
    hide Contains, Strip, CleanPeer, PeerText;
    BlockWords();
    PeerTextFree(cr, p);
    CommentsSilent(PeerText(cr, p), SUBNET);
    CommentsSilent(PeerText(cr, p), HOST);
  }

  lemma PeerTextFree(cr: string, p: Peer)
    requires IsCr(cr) && CleanPeer(p)
    ensures !Contains(PeerText(cr, p), SUBNET) && !Contains(PeerText(cr, p), HOST)
  {
    hide Clean, Contains, PeerFirst, PeerBody, PeerText, SUBNET, HOST;
    PeerLinesPassed(cr, p);
    PeerTextLines(cr, p, []);
    BlockWords();
    AbsentBelow(PeerFirst(p.name.value), PeerBody(cr, p, []), SUBNET);
    AbsentBelow(PeerFirst(p.name.value), PeerBody(cr, p, []), HOST);
  }
}
