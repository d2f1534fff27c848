/** Cutting leases out of the text of a lease file. */
module Leases {
  import opened Common
  import opened Text
  import opened Lines

  const LEASE := "lease"

  /** One turn of `while ip_addr in contents`. `rindex` raises ValueError when no `lease` stands
      before the address; when no `}` follows, `find` gives -1 and the text is cut at 0. */
  function Cut(contents: string, ip: string): (r: Result<string>)
    requires Contains(contents, ip)
  {
    var at := Find(contents, ip, 0);
    assert at >= 0;
    var first := LastLease(contents, at);
    if first < 0 then Err(ValueError)
    else
      var last := Find(contents, "}", first);
      Ok(contents[..first] + contents[last + 1..])
  }

  /** `contents.rindex('lease', 0, at)`: the last `lease` that ends at or before `at`. */
  function LastLease(contents: string, at: nat): (r: int)
    ensures r < |contents|
  {
    if at < |LEASE| then -1 else FindLast(contents, LEASE, at - |LEASE| + 1)
  }

  /** The loop: finished with a text, still running, or ended by an exception. */
  datatype Run = Done(contents: string) | Running(contents: string) | Failed(error: Error)

  function Loop(contents: string, ip: string, turns: nat): Run
    decreases turns
  {
    if !Contains(contents, ip) then Done(contents)
    else if turns == 0 then Running(contents)
    else
      var next := Cut(contents, ip);
      if next.Err? then Failed(next.error) else Loop(next.value, ip, turns - 1)
  }

  /** The loop of `delete_lease`, for at most `turns` turns. */
  method DeleteLease(text: string, ip: string, turns: nat) returns (r: Run)
    ensures r == Loop(text, ip, turns)
  {
    hide Contains, Cut;
    var contents, left := text, turns;
    while Contains(contents, ip) && left > 0
      invariant Loop(contents, ip, left) == Loop(text, ip, turns)
      decreases left
    {
      var next := Cut(contents, ip);
      if next.Err? {
        return Failed(next.error);
      }
      contents, left := next.value, left - 1;
    }
    r := if Contains(contents, ip) then Running(contents) else Done(contents);
  }

  // ---------------------------------------------------------------------
  // Well-formed files
  // ---------------------------------------------------------------------

  /** A lease block with the white space in front of it. */
  datatype Block = Block(gap: string, body: string)

  /** The text begins with `lease` and a white space, and says `lease` only once. */
  ghost predicate OpensLease(body: string) {
    && |body| > |LEASE| && MatchAt(body, LEASE, 0) && IsSpace(body[|LEASE|])
    && forall i: nat | i > 0 :: !MatchAt(body, LEASE, i)
  }

  /** A block opens a lease and has one brace that closes it at its end. */
  ghost predicate IsBlock(b: Block) {
    && (forall c | c in b.gap :: IsSpace(c))
    && OpensLease(b.body)
    && b.body[|b.body| - 1] == '}' && '}' !in b.body[..|b.body| - 1]
  }

  /** An address that can only stand inside a block: no white space, no brace, no part of `lease`. */
  ghost predicate IsAddress(ip: string) {
    && ip != "" && '}' !in ip && (forall c | c in ip :: !IsSpace(c))
    && !Contains(LEASE, ip)
  }

  function FileText(bs: seq<Block>, tail: string): string {
    if bs == [] then tail else bs[0].gap + bs[0].body + FileText(bs[1..], tail)
  }

  ghost predicate WellFormed(bs: seq<Block>, tail: string) {
    && (forall b | b in bs :: IsBlock(b))
    && forall c | c in tail :: IsSpace(c)
  }

  /** The first block from `k` on that mentions the address. */
  function FirstHit(bs: seq<Block>, ip: string, k: nat): (r: nat)
    requires k <= |bs|
    ensures k <= r <= |bs|
    ensures forall i | k <= i < r :: !Contains(bs[i].body, ip)
    ensures r < |bs| ==> Contains(bs[r].body, ip)
    decreases |bs| - k
  {
    if k < |bs| && !Contains(bs[k].body, ip) then FirstHit(bs, ip, k + 1) else k
  }

  /** Without its body, a block leaves its white space to what follows it. */
  function RemoveAt(bs: seq<Block>, tail: string, k: nat): (seq<Block>, string)
    requires k < |bs|
  {
    if k == |bs| - 1 then (bs[..k], bs[k].gap + tail)
    else (bs[..k] + [Block(bs[k].gap + bs[k + 1].gap, bs[k + 1].body)] + bs[k + 2..], tail)
  }

  /** The blocks without those that mention the address. */
  function Purge(bs: seq<Block>, tail: string, ip: string): (r: (seq<Block>, string))
    decreases |bs|
  {
    var k := FirstHit(bs, ip, 0);
    if k == |bs| then (bs, tail)
    else
      var next := RemoveAt(bs, tail, k);
      Purge(next.0, next.1, ip)
  }

  function Bodies(bs: seq<Block>): seq<string> {
    if bs == [] then [] else [bs[0].body] + Bodies(bs[1..])
  }

  /** The bodies that do not mention the address, in order. */
  function Untouched(bodies: seq<string>, ip: string): seq<string> {
    if bodies == [] then []
    else (if Contains(bodies[0], ip) then [] else [bodies[0]]) + Untouched(bodies[1..], ip)
  }

  // ---------------------------------------------------------------------
  // One cut
  // ---------------------------------------------------------------------

  lemma {:induction false} FileTextAt(bs: seq<Block>, tail: string, k: nat)
    requires k < |bs|
    ensures FileText(bs, tail) == FileText(bs[..k], bs[k].gap) + bs[k].body + FileText(bs[k + 1..], tail)
    decreases k
  {
    if k == 0 {
      assert bs[..0] == [];
    } else {
      assert bs[1..][..k - 1] == bs[..k][1..] && bs[1..][k..] == bs[k + 1..];
      FileTextAt(bs[1..], tail, k - 1);
      AssocFile(bs[0].gap, bs[0].body, FileText(bs[1..][..k - 1], bs[k].gap), bs[k].body, FileText(bs[k + 1..], tail));
    }
  }

  lemma AssocFile(a: string, b: string, c: string, d: string, e: string)
    ensures a + b + (c + d + e) == (a + b + c) + d + e
  {
  }

  /** A text whose last character cannot be in the address keeps an occurrence from running over its end. */
  predicate SealedFor(s: string, ip: string) {
    s != "" ==> s[|s| - 1] !in ip
  }

  /** Where no block mentions the address, the text does not; nor can it run over the end. */
  lemma {:induction false} NoHit(bs: seq<Block>, tail: string, ip: string)
    requires WellFormed(bs, tail) && IsAddress(ip)
    requires forall b | b in bs :: !Contains(b.body, ip)
    ensures !Contains(FileText(bs, tail), ip) && SealedFor(FileText(bs, tail), ip)
    decreases |bs|
  {
    hide Contains, IsBlock;
    if bs == [] {
      SpaceFree(tail, ip);
    } else {
      var b, rest := bs[0], FileText(bs[1..], tail);
      assert IsBlock(b);
      BlockEnds(b, ip);
      NoHit(bs[1..], tail, ip);
      SpaceFree(b.gap, ip);
      AbsentLeft(b.gap, b.body, ip);
      AbsentLeft(b.gap + b.body, rest, ip);
    }
  }

  lemma BlockEnds(b: Block, ip: string)
    requires IsBlock(b) && IsAddress(ip)
    ensures b.body != "" && b.body[|b.body| - 1] !in ip
    ensures forall c | c in b.gap :: IsSpace(c)
  {
  }

  lemma MatchHead(s: string, k: string, i: nat)
    requires MatchAt(s, k, i) && k != ""
    ensures k[0] in s && k[0] in k
  {
    MatchChar(s, k, i, 0);
    assert s[i] in s;
  }

  lemma SpaceFree(s: string, ip: string)
    requires (forall c | c in s :: IsSpace(c)) && IsAddress(ip)
    ensures !Contains(s, ip) && SealedFor(s, ip)
  {
    forall i: nat | MatchAt(s, ip, i)
      ensures false
    {
      MatchHead(s, ip, i);
    }
    if s != "" {
      assert s[|s| - 1] in s;
    }
  }

  lemma MatchPrefix(s: string, k: string, p: string, o: nat)
    requires MatchAt(s, p, 0) && MatchAt(s, k, o) && o + |k| <= |p|
    ensures MatchAt(p, k, o)
  {
    assert p[o..o + |k|] == s[0..|p|][o..o + |k|] == s[o..o + |k|];
  }

  /** In a block, the address stands behind the word `lease`. */
  lemma HitInside(body: string, ip: string, o: nat)
    requires OpensLease(body) && IsAddress(ip) && MatchAt(body, ip, o)
    ensures o > |LEASE|
  {
    if o <= |LEASE| {
      if o + |ip| <= |LEASE| {
        MatchPrefix(body, ip, LEASE, o);
        NotContainsMatch(LEASE, ip, o);
      } else {
        MatchChar(body, ip, o, |LEASE| - o);
      }
    }
  }

  /** The first occurrence in the text is the first occurrence in the first block that has one. */
  lemma FirstOccurrence(pre: string, body: string, post: string, ip: string)
    requires !Contains(pre, ip) && SealedFor(pre, ip) && Contains(body, ip) && ip != ""
    ensures Find(body, ip, 0) >= 0
    ensures Find(pre + body + post, ip, 0) == |pre| + Find(body, ip, 0)
  {
    var o := Find(body, ip, 0);
    var text := pre + body + post;
    assert text == pre + (body + post);
    assert text[|pre| + o..|pre| + o + |ip|] == body[o..o + |ip|];
    assert MatchAt(body, ip, o);
    hide MatchAt, Contains, SealedFor;
    forall i: nat | i < |pre| + o
      ensures !MatchAt(text, ip, i)
    {
      NoneBefore(pre, body, post, ip, o, i);
    }
    FindIs(text, ip, 0, |pre| + o);
  }

  lemma NoneBefore(pre: string, body: string, post: string, ip: string, o: nat, i: nat)
    requires !Contains(pre, ip) && SealedFor(pre, ip) && ip != ""
    requires MatchAt(body, ip, o) && (forall j: nat | j < o :: !MatchAt(body, ip, j)) && i < |pre| + o
    ensures !MatchAt(pre + body + post, ip, i)
  {
    assert pre + body + post == pre + (body + post);
    if MatchAt(pre + (body + post), ip, i) {
      MatchInConcat(pre, body + post, ip, i);
      NotContainsMatch(pre, ip, i);
      if i >= |pre| {
        EarlierMatch(body, post, ip, i - |pre|, o);
      }
    }
  }

  lemma EarlierMatch(body: string, post: string, ip: string, i: nat, o: nat)
    requires i < o && MatchAt(body, ip, o) && MatchAt(body + post, ip, i)
    ensures MatchAt(body, ip, i)
  {
    assert (body + post)[i..i + |ip|] == body[i..i + |ip|];
  }

  lemma LastLeaseIs(pre: string, body: string, post: string, o: nat)
    requires OpensLease(body) && |LEASE| < o <= |body|
    ensures LastLease(pre + body + post, |pre| + o) == |pre|
  {
    var text := pre + body + post;
    assert text[|pre|..|pre| + |LEASE|] == body[0..0 + |LEASE|];
    assert MatchAt(text, LEASE, |pre|);
    forall i | |pre| < i < |pre| + o - |LEASE| + 1
      ensures !MatchAt(text, LEASE, i)
    {
      assert text[i..i + |LEASE|] == body[i - |pre|..i - |pre| + |LEASE|];
      assert !MatchAt(body, LEASE, i - |pre|);
    }
  }

  lemma BraceIs(pre: string, b: Block, post: string)
    requires IsBlock(b)
    ensures Find(pre + b.body + post, "}", |pre|) == |pre| + |b.body| - 1
  {
    var text, end := pre + b.body + post, |pre| + |b.body| - 1;
    forall i | |pre| <= i < end
      ensures !MatchAt(text, "}", i)
    {
      MatchOfChar(text, '}', i);
      var init := b.body[..|b.body| - 1];
      assert text[i] == init[i - |pre|] && init[i - |pre|] in init;
    }
    MatchOfChar(text, '}', end);
    FindIs(text, "}", |pre|, end);
  }

  /** A cut takes out exactly the body of the first block that mentions the address. */
  lemma CutRemoves(pre: string, b: Block, post: string, ip: string)
    requires IsBlock(b) && IsAddress(ip) && Contains(b.body, ip)
    requires !Contains(pre, ip) && SealedFor(pre, ip)
    ensures Contains(pre + b.body + post, ip)
    ensures Cut(pre + b.body + post, ip) == Ok(pre + post)
  {
    assert OpensLease(b.body) && ip != "";
    hide Cut, LastLease, IsBlock, OpensLease, MatchAt, SealedFor, IsAddress, Contains;
    var text := pre + b.body + post;
    FirstOccurrence(pre, b.body, post, ip);
    var o := Find(b.body, ip, 0);
    HitInside(b.body, ip, o);
    LastLeaseIs(pre, b.body, post, o);
    BraceIs(pre, b, post);
    CutIs(text, ip, |pre| + o, |pre|, |pre| + |b.body| - 1);
    assert text[..|pre|] == pre && text[|pre| + |b.body|..] == post;
  }

  /** A cut, by the three positions that it finds. */
  lemma CutIs(text: string, ip: string, at: nat, first: nat, last: int)
    requires Find(text, ip, 0) == at && LastLease(text, at) == first && Find(text, "}", first) == last
    ensures Contains(text, ip) && first <= |text| && -1 <= last < |text|
    ensures Cut(text, ip) == Ok(text[..first] + text[last + 1..])
  {
    assert MatchAt(text, ip, at);
  }

  lemma {:induction false} FileTextTail(bs: seq<Block>, gap: string, tail: string)
    ensures FileText(bs, gap + tail) == FileText(bs, gap) + tail
    decreases |bs|
  {
    if bs != [] {
      FileTextTail(bs[1..], gap, tail);
      assert bs[0].gap + bs[0].body + (FileText(bs[1..], gap) + tail) == bs[0].gap + bs[0].body + FileText(bs[1..], gap) + tail;
    }
  }

  lemma {:induction false} FileTextConcat(a: seq<Block>, b: seq<Block>, tail: string)
    ensures FileText(a + b, tail) == FileText(a, FileText(b, tail))
    decreases |a|
  {
    if a == [] {
      assert a + b == b;
    } else {
      assert (a + b)[1..] == a[1..] + b;
      FileTextConcat(a[1..], b, tail);
    }
  }

  /** Removing a block from the list is removing its body from the text. */
  lemma RemoveAtText(bs: seq<Block>, tail: string, k: nat)
    requires k < |bs|
    ensures var r := RemoveAt(bs, tail, k);
            FileText(r.0, r.1) == FileText(bs[..k], bs[k].gap) + FileText(bs[k + 1..], tail)
  {
    var gap := bs[k].gap;
    if k == |bs| - 1 {
      assert bs[k + 1..] == [];
      FileTextTail(bs[..k], gap, tail);
    } else {
      var next, rest := bs[k + 1], bs[k + 2..];
      var merged := Block(gap + next.gap, next.body);
      assert bs[k + 1..] == [next] + rest && ([next] + rest)[1..] == rest && ([merged] + rest)[1..] == rest;
      FileTextConcat(bs[..k], [merged] + rest, tail);
      assert bs[..k] + [merged] + rest == bs[..k] + ([merged] + rest);
      var after := FileText(rest, tail);
      assert gap + next.gap + next.body + after == gap + (next.gap + next.body + after);
      FileTextTail(bs[..k], gap, next.gap + next.body + after);
    }
  }

  lemma RemoveAtWellFormed(bs: seq<Block>, tail: string, k: nat)
    requires WellFormed(bs, tail) && k < |bs|
    ensures var r := RemoveAt(bs, tail, k); WellFormed(r.0, r.1) && |r.0| == |bs| - 1
  {
    assert IsBlock(bs[k]);
    if k < |bs| - 1 {
      assert IsBlock(bs[k + 1]);
      var merged := Block(bs[k].gap + bs[k + 1].gap, bs[k + 1].body);
      assert IsBlock(merged);
    }
  }

  // ---------------------------------------------------------------------
  // The whole loop
  // ---------------------------------------------------------------------

  /** The loop on a well-formed file: it ends after at most one turn a block, and what it leaves
      is the purged file. Every turn shortens the text. */
  lemma {:induction false} LoopPurges(bs: seq<Block>, tail: string, ip: string, turns: nat)
    requires WellFormed(bs, tail) && IsAddress(ip) && turns >= |bs|
    ensures var r := Purge(bs, tail, ip);
            && Loop(FileText(bs, tail), ip, turns) == Done(FileText(r.0, r.1))
            && WellFormed(r.0, r.1)
            && !Contains(FileText(r.0, r.1), ip)
            && |FileText(r.0, r.1)| <= |FileText(bs, tail)|
    decreases |bs|
  {
    hide Contains, IsBlock, Cut, RemoveAt, FileText;
    var k := FirstHit(bs, ip, 0);
    if k == |bs| {
      NoHit(bs, tail, ip);
    } else {
      var pre, post := FileText(bs[..k], bs[k].gap), FileText(bs[k + 1..], tail);
      var next := RemoveAt(bs, tail, k);
      assert IsBlock(bs[k]);
      BlockEnds(bs[k], ip);
      NoHit(bs[..k], bs[k].gap, ip);
      FileTextAt(bs, tail, k);
      CutRemoves(pre, bs[k], post, ip);
      RemoveAtText(bs, tail, k);
      RemoveAtWellFormed(bs, tail, k);
      LoopPurges(next.0, next.1, ip, turns - 1);
    }
  }

  lemma {:induction false} BodiesConcat(a: seq<Block>, b: seq<Block>)
    ensures Bodies(a + b) == Bodies(a) + Bodies(b)
    decreases |a|
  {
    if a == [] {
      assert a + b == b;
    } else {
      assert (a + b)[1..] == a[1..] + b;
      BodiesConcat(a[1..], b);
    }
  }

  lemma {:induction false} UntouchedConcat(a: seq<string>, b: seq<string>, ip: string)
    ensures Untouched(a + b, ip) == Untouched(a, ip) + Untouched(b, ip)
    decreases |a|
  {
    hide Contains;
    if a == [] {
      assert a + b == b;
    } else {
      assert (a + b)[1..] == a[1..] + b;
      UntouchedConcat(a[1..], b, ip);
    }
  }

  lemma BodiesOne(b: Block, rest: seq<Block>)
    ensures Bodies([b] + rest) == [b.body] + Bodies(rest)
  {
    assert ([b] + rest)[1..] == rest;
  }

  lemma RemoveAtBodies(bs: seq<Block>, tail: string, k: nat)
    requires k < |bs|
    ensures Bodies(RemoveAt(bs, tail, k).0) == Bodies(bs[..k]) + Bodies(bs[k + 1..])
    ensures Bodies(bs) == Bodies(bs[..k]) + ([bs[k].body] + Bodies(bs[k + 1..]))
  {
    hide Bodies;
    var pre, rest := bs[..k], bs[k + 1..];
    assert bs == pre + ([bs[k]] + rest);
    BodiesConcat(pre, [bs[k]] + rest);
    BodiesOne(bs[k], rest);
    MergedBodies(bs, tail, k);
  }

  lemma MergedBodies(bs: seq<Block>, tail: string, k: nat)
    requires k < |bs|
    ensures Bodies(RemoveAt(bs, tail, k).0) == Bodies(bs[..k]) + Bodies(bs[k + 1..])
  {
    hide Bodies;
    var pre, rest := bs[..k], bs[k + 1..];
    if k == |bs| - 1 {
      assert rest == [] && pre + rest == pre;
      BodiesConcat(pre, rest);
    } else {
      var merged, last := Block(bs[k].gap + rest[0].gap, rest[0].body), bs[k + 2..];
      assert rest == [rest[0]] + last;
      assert RemoveAt(bs, tail, k).0 == pre + ([merged] + last);
      BodiesConcat(pre, [merged] + last);
      BodiesOne(merged, last);
      BodiesOne(rest[0], last);
    }
  }

  lemma {:induction false} AllUntouched(bs: seq<Block>, ip: string)
    requires forall b | b in bs :: !Contains(b.body, ip)
    ensures Untouched(Bodies(bs), ip) == Bodies(bs)
    decreases |bs|
  {
    hide Contains;
    if bs != [] {
      AllUntouched(bs[1..], ip);
      assert Bodies(bs)[1..] == Bodies(bs[1..]);
    }
  }

  /** What is left are the blocks that do not mention the address, unchanged and in order. */
  lemma {:induction false} PurgeKeeps(bs: seq<Block>, tail: string, ip: string)
    ensures Bodies(Purge(bs, tail, ip).0) == Untouched(Bodies(bs), ip)
    decreases |bs|
  {
    hide Contains, RemoveAt;
    var k := FirstHit(bs, ip, 0);
    if k == |bs| {
      AllUntouched(bs, ip);
    } else {
      var next := RemoveAt(bs, tail, k);
      RemoveAtBodies(bs, tail, k);
      RemoveAtShorter(bs, tail, k);
      PurgeKeeps(next.0, next.1, ip);
      var a, c := Bodies(bs[..k]), Bodies(bs[k + 1..]);
      UntouchedConcat(a, [bs[k].body] + c, ip);
      UntouchedConcat(a, c, ip);
      assert ([bs[k].body] + c)[1..] == c;
    }
  }

  lemma RemoveAtShorter(bs: seq<Block>, tail: string, k: nat)
    requires k < |bs|
    ensures |RemoveAt(bs, tail, k).0| == |bs| - 1
  {
  }

  /** Deleting a lease from a well-formed file: the loop terminates, the address is gone, and
      exactly the blocks without it remain, unchanged and in order. */
  lemma DeleteLeaseCorrect(bs: seq<Block>, tail: string, ip: string, turns: nat)
    requires WellFormed(bs, tail) && IsAddress(ip) && turns >= |bs|
    ensures var r := Purge(bs, tail, ip);
            && Loop(FileText(bs, tail), ip, turns) == Done(FileText(r.0, r.1))
            && !Contains(FileText(r.0, r.1), ip)
            && Bodies(r.0) == Untouched(Bodies(bs), ip)
  {
    LoopPurges(bs, tail, ip, turns);
    PurgeKeeps(bs, tail, ip);
  }

  // ---------------------------------------------------------------------
  // Which leases go
  // ---------------------------------------------------------------------

  /** The address that a lease block is for: its second word. */
  function AddressOf(body: string): Option<string> {
    if |Words(body)| > 1 then Some(Words(body)[1]) else None
  }

  /** The leases of other addresses, in order. */
  function Others(bodies: seq<string>, ip: string): seq<string> {
    if bodies == [] then []
    else (if AddressOf(bodies[0]) == Some(ip) then [] else [bodies[0]]) + Others(bodies[1..], ip)
  }

  lemma ContainsTail(s: string, n: nat, k: string)
    requires n <= |s| && Contains(s[n..], k)
    ensures Contains(s, k)
  {
    var i :| 0 <= i <= |s[n..]| && MatchAt(s[n..], k, i);
    assert s[n..][i..i + |k|] == s[n + i..n + i + |k|];
    assert MatchAt(s, k, n + i);
  }

  lemma {:induction false} FirstWordStarts(s: string)
    ensures MatchAt(s, FirstWord(s), 0)
    decreases |s|
  {
    if s != "" && !IsSpace(s[0]) {
      FirstWordStarts(s[1..]);
      var w := FirstWord(s[1..]);
      assert s[0..|w| + 1] == [s[0]] + s[1..][0..|w|];
    }
  }

  /** A word of a text is contained in it. */
  lemma {:induction false} WordContained(s: string, w: string)
    requires w in Words(s)
    ensures Contains(s, w)
    decreases |s|
  {
    hide Contains;
    if IsSpace(s[0]) {
      WordContained(s[1..], w);
      ContainsTail(s, 1, w);
    } else if w == FirstWord(s) {
      FirstWordStarts(s);
      MatchContains(s, w, 0);
    } else {
      WordContained(s[|FirstWord(s)|..], w);
      ContainsTail(s, |FirstWord(s)|, w);
    }
  }

  lemma MatchContains(s: string, k: string, i: nat)
    requires MatchAt(s, k, i)
    ensures Contains(s, k)
  {
  }

  lemma OwnIsContained(body: string, ip: string)
    requires AddressOf(body) == Some(ip)
    ensures Contains(body, ip)
  {
    hide Contains, Words;
    WordContained(body, ip);
  }

  /** Whether the block is for the address, if it mentions it. */
  predicate Own(body: string, ip: string) {
    Contains(body, ip) ==> AddressOf(body) == Some(ip)
  }

  lemma {:induction false} UntouchedOthersIff(bodies: seq<string>, ip: string)
    ensures |Untouched(bodies, ip)| <= |Others(bodies, ip)|
    ensures Untouched(bodies, ip) == Others(bodies, ip) <==> forall b | b in bodies :: Own(b, ip)
    decreases |bodies|
  {
    hide Contains, AddressOf;
    if bodies != [] {
      var b, rest := bodies[0], bodies[1..];
      UntouchedOthersIff(rest, ip);
      assert forall x :: x in bodies <==> x == b || x in rest;
      var us, os := Untouched(rest, ip), Others(rest, ip);
      assert [] + us == us && [] + os == os;
      if AddressOf(b) == Some(ip) {
        OwnIsContained(b, ip);
      } else if Contains(b, ip) {
        assert !Own(b, ip);
        assert |Others(bodies, ip)| == |os| + 1;
      } else {
        assert ([b] + us)[1..] == us && ([b] + os)[1..] == os;
      }
    }
  }

  /** On well-formed files, exactly the leases of other addresses remain if and only if every block that
      contains the address is the lease of that address. */
  lemma AddressesKeptIff(bs: seq<Block>, tail: string, ip: string)
    requires WellFormed(bs, tail) && IsAddress(ip)
    ensures Bodies(Purge(bs, tail, ip).0) == Others(Bodies(bs), ip)
      <==> forall b | b in Bodies(bs) :: Contains(b, ip) ==> AddressOf(b) == Some(ip)
  {
    hide Contains, Words, Purge, WellFormed, IsAddress;
    PurgeKeeps(bs, tail, ip);
    UntouchedOthersIff(Bodies(bs), ip);
    assert forall b | b in Bodies(bs) :: Own(b, ip) <==> (Contains(b, ip) ==> AddressOf(b) == Some(ip));
  }

  const OTHER_LEASE := "lease 10.0.0.12 {\n}"

  /** Deleting the lease of 10.0.0.1 takes that of 10.0.0.12. */
  lemma OtherLeaseGoes()
    ensures WellFormed([Block("", OTHER_LEASE)], "") && IsAddress("10.0.0.1")
    ensures AddressOf(OTHER_LEASE) == Some("10.0.0.12")
    ensures Loop(FileText([Block("", OTHER_LEASE)], ""), "10.0.0.1", 1) == Done("")
  {
    var b := Block("", OTHER_LEASE);
    OtherLeaseIsBlock();
    OtherAddress();
    hide OTHER_LEASE, Contains, IsBlock, AddressOf;
    assert WellFormed([b], "");
    LoopPurges([b], "", "10.0.0.1", 1);
    assert FirstHit([b], "10.0.0.1", 0) == 0;
    assert [b][..0] == [] && RemoveAt([b], "", 0) == ([], "");
  }

  lemma OtherLeaseIsBlock()
    ensures IsBlock(Block("", OTHER_LEASE)) && Contains(OTHER_LEASE, "10.0.0.1") && IsAddress("10.0.0.1")
  {
    OtherOpens();
    OtherCloses();
    OtherMentions();
    ShortAddress();
    hide OTHER_LEASE, OpensLease, Contains, IsAddress;
  }

  lemma OtherOpens()
    ensures OpensLease(OTHER_LEASE)
  {
    assert OTHER_LEASE[0..5] == LEASE;
    OneLetterL();
    forall i: nat | i > 0 ensures !MatchAt(OTHER_LEASE, LEASE, i) {
      if MatchAt(OTHER_LEASE, LEASE, i) {
        MatchChar(OTHER_LEASE, LEASE, i, 0);
      }
    }
  }

  lemma OneLetterL()
    ensures forall i | 0 < i < |OTHER_LEASE| :: OTHER_LEASE[i] != 'l'
  {
  }

  lemma OtherCloses()
    ensures OTHER_LEASE[|OTHER_LEASE| - 1] == '}' && '}' !in OTHER_LEASE[..|OTHER_LEASE| - 1]
  {
  }

  lemma OtherMentions()
    ensures Contains(OTHER_LEASE, "10.0.0.1")
  {
    assert OTHER_LEASE[6..14] == "10.0.0.1";
    MatchContains(OTHER_LEASE, "10.0.0.1", 6);
  }

  lemma ShortAddress()
    ensures IsAddress("10.0.0.1")
  {
    forall i: nat | MatchAt(LEASE, "10.0.0.1", i) ensures false {
    }
  }

  lemma OtherAddress()
    ensures AddressOf(OTHER_LEASE) == Some("10.0.0.12")
  {
    var rest := " {\n}";
    assert OTHER_LEASE == "lease" + (" " + ("10.0.0.12" + rest));
    SecondWord("lease", "10.0.0.12", rest);
  }

  /** A turn raises exactly if no `lease` stands, whole, before the first mention of the address. */
  lemma TurnRaisesIff(contents: string, ip: string, k: nat)
    requires MatchAt(contents, ip, k) && k <= |contents| && forall i | 0 <= i < k :: !MatchAt(contents, ip, i)
    ensures Contains(contents, ip)
    ensures Cut(contents, ip).Err? <==> !Contains(contents[..k], "lease")
    ensures Cut(contents, ip).Err? ==> forall turns: nat | turns > 0 :: Loop(contents, ip, turns) == Failed(ValueError)
  {
    assert Contains(contents, ip);
    FindIs(contents, ip, 0, k);
    forall i: nat
      ensures MatchAt(contents[..k], LEASE, i) <==> i + |LEASE| <= k && MatchAt(contents, LEASE, i)
    {
      if i + |LEASE| <= k {
        assert contents[..k][i..i + |LEASE|] == contents[i..i + |LEASE|];
      }
    }
    if k >= |LEASE| {
      LastLeaseInFront(contents, k);
    }
  }

  lemma LastLeaseInFront(contents: string, k: nat)
    requires |LEASE| <= k <= |contents|
    requires forall i: nat :: MatchAt(contents[..k], LEASE, i) <==> i + |LEASE| <= k && MatchAt(contents, LEASE, i)
    ensures LastLease(contents, k) < 0 <==> !Contains(contents[..k], LEASE)
  {
    var first := LastLease(contents, k);
    if first >= 0 {
      assert MatchAt(contents[..k], LEASE, first);
    }
  }

  // ---------------------------------------------------------------------
  // A last block that is not closed
  // ---------------------------------------------------------------------

  /** A block that was opened and breaks off before its brace. */
  ghost predicate BreaksOff(u: string) {
    OpensLease(u) && '}' !in u
  }

  /** A cut in such a block takes nothing out: it puts everything before the block in once more. */
  lemma CutDoubles(pre: string, u: string, ip: string)
    requires BreaksOff(u) && IsAddress(ip) && Contains(u, ip)
    requires !Contains(pre, ip) && SealedFor(pre, ip)
    ensures Contains(pre + u, ip) && Cut(pre + u, ip) == Ok(pre + pre + u)
  {
    assert ip != "" && pre + u + "" == pre + u;
    NoBraceAfter(pre, u);
    hide Cut, LastLease, OpensLease, MatchAt, SealedFor, IsAddress, Contains;
    FirstOccurrence(pre, u, "", ip);
    var o := Find(u, ip, 0);
    HitInside(u, ip, o);
    LastLeaseIs(pre, u, "", o);
    CutIs(pre + u, ip, |pre| + o, |pre|, -1);
    assert (pre + u)[..|pre|] == pre && (pre + u)[0..] == pre + u;
    assert pre + (pre + u) == pre + pre + u;
  }

  lemma NoBraceAfter(pre: string, u: string)
    requires '}' !in u
    ensures Find(pre + u, "}", |pre|) == -1
  {
    forall i: nat | i >= |pre|
      ensures !MatchAt(pre + u, "}", i)
    {
      if i < |pre + u| {
        MatchOfChar(pre + u, '}', i);
        assert (pre + u)[i] == u[i - |pre|];
      }
    }
    FindNone(pre + u, "}", |pre|);
  }

  lemma SealedConcat(a: string, b: string, ip: string)
    requires !Contains(a, ip) && SealedFor(a, ip) && !Contains(b, ip) && ip != ""
    ensures !Contains(a + b, ip) && (SealedFor(b, ip) ==> SealedFor(a + b, ip))
  {
    hide Contains;
    AbsentLeft(a, b, ip);
    if b == "" {
      assert a + b == a;
    }
  }

  lemma LoopTurn(text: string, next: string, ip: string, turns: nat)
    requires Contains(text, ip) && Cut(text, ip) == Ok(next)
    ensures Loop(text, ip, turns) == if turns == 0 then Running(text) else Loop(next, ip, turns - 1)
  {
    hide Cut, Contains;
  }

  /** So the loop never comes to an end. */
  lemma {:induction false} LoopRunsOn(pre: string, u: string, ip: string, turns: nat)
    requires BreaksOff(u) && IsAddress(ip) && Contains(u, ip)
    requires !Contains(pre, ip) && SealedFor(pre, ip)
    ensures Loop(pre + u, ip, turns).Running?
    decreases turns
  {
    hide Cut, Contains, BreaksOff, IsAddress, SealedFor, Loop;
    CutDoubles(pre, u, ip);
    var twice := pre + pre;
    TwiceClean(pre, twice, ip);
    LoopTurn(pre + u, twice + u, ip, turns);
    if turns > 0 {
      LoopRunsOn(twice, u, ip, turns - 1);
    }
  }

  lemma TwiceClean(pre: string, twice: string, ip: string)
    requires IsAddress(ip) && !Contains(pre, ip) && SealedFor(pre, ip) && twice == pre + pre
    ensures !Contains(twice, ip) && SealedFor(twice, ip)
  {
    assert ip != "";
    SealedConcat(pre, pre, ip);
  }

  /** The first cut in a file with such a last block, while a closed block mentions the address. */
  lemma CutBefore(bs: seq<Block>, gap: string, u: string, ip: string, k: nat)
    requires WellFormed(bs, gap) && IsAddress(ip)
    requires k == FirstHit(bs, ip, 0) && k < |bs|
    ensures var text := FileText(bs, gap) + u;
            var next := RemoveAt(bs, gap, k);
            && Contains(text, ip)
            && Cut(text, ip) == Ok(FileText(next.0, next.1) + u)
            && WellFormed(next.0, next.1) && |next.0| == |bs| - 1
  {
    hide Contains, IsBlock, Cut, FileText;
    assert IsBlock(bs[k]);
    BlockEnds(bs[k], ip);
    NoHit(bs[..k], bs[k].gap, ip);
    FileTextTail(bs, gap, u);
    FileTextAt(bs, gap + u, k);
    CutRemoves(FileText(bs[..k], bs[k].gap), bs[k], FileText(bs[k + 1..], gap + u), ip);
    RemoveAtText(bs, gap + u, k);
    RemoveAtWellFormed(bs, gap, k);
    var next := RemoveAt(bs, gap, k);
    assert bs[k].gap + (gap + u) == bs[k].gap + gap + u;
    FileTextTail(next.0, next.1, u);
  }

  /** When the last block does not mention the address the loop ends as before, and leaves that block. */
  lemma {:induction false} LoopPassesBrokenOff(bs: seq<Block>, gap: string, u: string, ip: string, turns: nat)
    requires WellFormed(bs, gap) && IsAddress(ip) && !Contains(u, ip) && turns >= |bs|
    ensures var r := Purge(bs, gap, ip);
            Loop(FileText(bs, gap) + u, ip, turns) == Done(FileText(r.0, r.1) + u)
    decreases |bs|
  {
    hide Contains, IsBlock, Cut, RemoveAt, FileText;
    var k := FirstHit(bs, ip, 0);
    if k == |bs| {
      NoHit(bs, gap, ip);
      SealedConcat(FileText(bs, gap), u, ip);
    } else {
      CutBefore(bs, gap, u, ip, k);
      var next := RemoveAt(bs, gap, k);
      LoopPassesBrokenOff(next.0, next.1, u, ip, turns - 1);
    }
  }

  lemma {:induction false} LoopStallsInBrokenOff(bs: seq<Block>, gap: string, u: string, ip: string, turns: nat)
    requires WellFormed(bs, gap) && IsAddress(ip) && BreaksOff(u) && Contains(u, ip)
    ensures Loop(FileText(bs, gap) + u, ip, turns).Running?
    decreases |bs|
  {
    hide Contains, IsBlock, Cut, RemoveAt, FileText, BreaksOff;
    var k := FirstHit(bs, ip, 0);
    if k == |bs| {
      NoHit(bs, gap, ip);
      LoopRunsOn(FileText(bs, gap), u, ip, turns);
    } else {
      CutBefore(bs, gap, u, ip, k);
      if turns > 0 {
        var next := RemoveAt(bs, gap, k);
        LoopStallsInBrokenOff(next.0, next.1, u, ip, turns - 1);
      }
    }
  }

  /** On closed blocks followed by one that breaks off, the loop ends exactly if that last block does not
      mention the address; then the closed blocks are purged as ever. Otherwise it runs for ever. */
  lemma BrokenOffEndsIff(bs: seq<Block>, gap: string, u: string, ip: string)
    requires WellFormed(bs, gap) && IsAddress(ip) && BreaksOff(u)
    ensures (exists turns :: Loop(FileText(bs, gap) + u, ip, turns).Done?) <==> !Contains(u, ip)
    ensures (forall turns :: Loop(FileText(bs, gap) + u, ip, turns).Running?) <==> Contains(u, ip)
    ensures !Contains(u, ip) ==>
              var r := Purge(bs, gap, ip);
              Loop(FileText(bs, gap) + u, ip, |bs|) == Done(FileText(r.0, r.1) + u)
  {
    hide Contains, Loop, FileText, Purge, WellFormed, IsAddress, BreaksOff;
    if Contains(u, ip) {
      forall turns: nat
        ensures Loop(FileText(bs, gap) + u, ip, turns).Running?
      {
        LoopStallsInBrokenOff(bs, gap, u, ip, turns);
      }
    } else {
      LoopPassesBrokenOff(bs, gap, u, ip, |bs|);
    }
  }
}
