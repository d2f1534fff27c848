/** Texts as lines: splitting a text that was printed line by line gives the lines back. */
module Lines {
  import opened Text

  const NL := "\n"

  predicate OneLine(s: string) {
    '\n' !in s
  }

  ghost predicate AllOneLine(ls: seq<string>) {
    forall l | l in ls :: OneLine(l)
  }

  /** `s` with further lines below it. */
  function Below(s: string, ls: seq<string>): string
    decreases |ls|
  {
    if ls == [] then s else Below(s + NL + ls[0], ls[1..])
  }

  lemma {:induction false} BelowAppend(s: string, a: seq<string>, b: seq<string>)
    ensures Below(s, a + b) == Below(Below(s, a), b)
    decreases |a|
  {
    if a == [] {
      assert a + b == b;
    } else {
      assert (a + b)[1..] == a[1..] + b;
      BelowAppend(s + NL + a[0], a[1..], b);
    }
  }

  lemma {:induction false} BelowPrefix(p: string, s: string, ls: seq<string>)
    ensures Below(p + s, ls) == p + Below(s, ls)
    decreases |ls|
  {
    if ls != [] {
      assert p + s + NL + ls[0] == p + (s + NL + ls[0]);
      BelowPrefix(p, s + NL + ls[0], ls[1..]);
    }
  }

  lemma MatchOfChar(s: string, c: char, i: nat)
    ensures MatchAt(s, [c], i) <==> i < |s| && s[i] == c
  {
    if i < |s| {
      assert s[i..i + 1] == [s[i]];
    }
  }

  /** A text without the separator is one piece. */
  lemma SplitWhole(s: string, sep: string)
    requires sep != "" && !Contains(s, sep)
    ensures Split(s, sep) == [s]
  {
    forall i: nat
      ensures !MatchAt(s, sep, i)
    {
      NotContainsMatch(s, sep, i);
    }
    FindNone(s, sep, 0);
  }

  lemma ContainsChar(s: string, c: char)
    ensures Contains(s, [c]) <==> c in s
  {
    if c in s {
      var i :| 0 <= i < |s| && s[i] == c;
      MatchOfChar(s, c, i);
    }
    if Contains(s, [c]) {
      var i :| 0 <= i <= |s| && MatchAt(s, [c], i);
      MatchOfChar(s, c, i);
    }
  }

  lemma SplitAtFirst(a: string, sep: string, b: string)
    requires sep != ""
    requires forall i | 0 <= i < |a| :: !MatchAt(a + sep + b, sep, i)
    ensures Split(a + sep + b, sep) == [a] + Split(b, sep)
  {
    var s := a + sep + b;
    ContainsAt(s, a, sep, b);
    FindIs(s, sep, 0, |a|);
    assert s[..|a|] == a && s[|a| + |sep|..] == b;
  }

  /** The first match of a key whose first letter does not occur before it. */
  lemma SplitAtLetter(a: string, key: string, b: string)
    requires key != "" && key[0] !in a
    ensures Split(a + key + b, key) == [a] + Split(b, key)
  {
    forall i | 0 <= i < |a|
      ensures !MatchAt(a + key + b, key, i)
    {
      if MatchAt(a + key + b, key, i) {
        MatchChar(a + key + b, key, i, 0);
      }
    }
    SplitAtFirst(a, key, b);
  }

  lemma SplitAtChar(a: string, c: char, b: string)
    requires c !in a
    ensures Split(a + [c] + b, [c]) == [a] + Split(b, [c])
  {
    forall i | 0 <= i < |a|
      ensures !MatchAt(a + [c] + b, [c], i)
    {
      MatchOfChar(a + [c] + b, c, i);
    }
    SplitAtFirst(a, [c], b);
  }

  lemma SplitNoChar(a: string, c: char)
    requires c !in a
    ensures Split(a, [c]) == [a]
  {
    ContainsChar(a, c);
    SplitWhole(a, [c]);
  }

  lemma SplitFirstLine(a: string, b: string)
    requires OneLine(a)
    ensures Split(a + NL + b, NL) == [a] + Split(b, NL)
  {
    SplitAtChar(a, '\n', b);
  }

  /** Splitting distributes over a newline between two texts. */
  lemma {:induction false} SplitTwoTexts(a: string, b: string)
    ensures Split(a + NL + b, NL) == Split(a, NL) + Split(b, NL)
    decreases |a|
  {
    if OneLine(a) {
      SplitNoChar(a, '\n');
      SplitFirstLine(a, b);
    } else {
      var i := FirstIndex(a, '\n');
      var x, y := a[..i], a[i + 1..];
      assert a == x + NL + y;
      SplitFirstLine(x, y);
      SplitTwoTexts(y, b);
      SplitFirstLine(x, y + NL + b);
      AssocBreak(x, y, b);
      AssocPieces([x], Split(y, NL), Split(b, NL));
    }
  }

  lemma AssocBreak(x: string, y: string, b: string)
    ensures x + NL + y + NL + b == x + NL + (y + NL + b)
  {
  }

  lemma AssocPieces(x: seq<string>, y: seq<string>, z: seq<string>)
    ensures x + y + z == x + (y + z)
  {
  }

  lemma FirstIndex(a: string, c: char) returns (i: nat)
    requires c in a
    ensures i < |a| && a[i] == c && c !in a[..i]
  {
    i := 0;
    while a[i] != c
      invariant i < |a| && c !in a[..i] && c in a[i..]
      decreases |a| - i
    {
      i := i + 1;
    }
  }

  /** The lines of a printed text. */
  lemma {:induction false} SplitBelow(s: string, ls: seq<string>)
    requires AllOneLine(ls)
    ensures Split(Below(s, ls), NL) == Split(s, NL) + ls
    decreases |ls|
  {
    if ls != [] {
      SplitTwoTexts(s, ls[0]);
      assert OneLine(ls[0]);
      SplitNoChar(ls[0], '\n');
      SplitBelow(s + NL + ls[0], ls[1..]);
      assert Split(s, NL) + ls == Split(s, NL) + [ls[0]] + ls[1..];
    }
  }

  /** A keyword absent from every line is absent from the text. */
  lemma {:induction false} AbsentBelow(s: string, ls: seq<string>, k: string)
    requires k != "" && '\n' !in k && !Contains(s, k)
    requires forall l | l in ls :: !Contains(l, k)
    ensures !Contains(Below(s, ls), k)
    decreases |ls|
  {
    if ls != [] {
      AbsentInBreak(s, ls[0], k);
      AbsentBelow(s + NL + ls[0], ls[1..], k);
    }
  }

  lemma AbsentInBreak(a: string, b: string, k: string)
    requires k != "" && '\n' !in k && !Contains(a, k) && !Contains(b, k)
    ensures !Contains(a + NL + b, k)
  {
    assert !Contains(NL, k) by {
      forall i: nat | MatchAt(NL, k, i)
        ensures false
      {
        MatchChar(NL, k, i, 0);
      }
    }
    AbsentRight(a, NL, k);
    AbsentLeft(a + NL, b, k);
  }

  /** The first match of a keyword that begins a line: the text above does not contain it. */
  lemma FindBelow(a: string, gap: string, k: string, rest: string)
    requires k != "" && '\n' !in k && !Contains(a, k)
    requires forall c | c in gap :: c !in k
    requires gap != "" && gap[0] == '\n'
    ensures Find(a + gap + k + rest, k, 0) == |a| + |gap|
  {
    var s := a + gap + k + rest;
    assert s == (a + gap) + k + rest;
    ContainsAt(s, a + gap, k, rest);
    forall i | 0 <= i < |a| + |gap|
      ensures !MatchAt(s, k, i)
    {
      if MatchAt(s, k, i) {
        if i + |k| <= |a| {
          assert s == a + (gap + k + rest);
          MatchInConcat(a, gap + k + rest, k, i);
          NotContainsMatch(a, k, i);
        } else {
          var at := if i < |a| then |a| else i;
          assert s[at] == gap[at - |a|];
          assert gap[at - |a|] in gap;
          MatchChar(s, k, i, at - i);
        }
      }
    }
    FindIs(s, k, 0, |a| + |gap|);
  }

  // ---------------------------------------------------------------------
  // Stripping
  // ---------------------------------------------------------------------

  lemma {:induction false} StripLeftPad(pad: string, m: string)
    requires forall c | c in pad :: IsSpace(c)
    requires m != "" ==> !IsSpace(m[0])
    ensures StripLeft(pad + m) == m
    decreases |pad|
  {
    if pad == "" {
      assert pad + m == m;
    } else {
      assert (pad + m)[1..] == pad[1..] + m;
      StripLeftPad(pad[1..], m);
    }
  }

  lemma StripPad(pad: string, m: string)
    requires forall c | c in pad :: IsSpace(c)
    requires m != "" && !IsSpace(m[0]) && !IsSpace(m[|m| - 1])
    ensures Strip(pad + m) == m
  {
    StripLeftPad(pad, m);
  }

  lemma {:induction false} FirstWordIs(w: string, rest: string)
    requires forall c | c in w :: !IsSpace(c)
    requires rest != "" ==> IsSpace(rest[0])
    ensures FirstWord(w + rest) == w
    decreases |w|
  {
    if w == "" {
      assert w + rest == rest;
    } else {
      assert (w + rest)[1..] == w[1..] + rest;
      FirstWordIs(w[1..], rest);
    }
  }

  lemma WordsStep(w: string, rest: string)
    requires w != "" && forall c | c in w :: !IsSpace(c)
    requires rest != "" ==> IsSpace(rest[0])
    ensures Words(w + rest) == [w] + Words(rest)
  {
    FirstWordIs(w, rest);
    assert (w + rest)[|w|..] == rest;
    assert !IsSpace((w + rest)[0]);
  }

  lemma WordsSpace(s: string)
    ensures Words(" " + s) == Words(s)
  {
    assert (" " + s)[1..] == s;
  }

  /** `"w1 w2 rest".split()[1]` */
  lemma SecondWord(w1: string, w2: string, rest: string)
    requires w1 != "" && forall c | c in w1 :: !IsSpace(c)
    requires w2 != "" && forall c | c in w2 :: !IsSpace(c)
    requires rest != "" ==> IsSpace(rest[0])
    ensures |Words(w1 + (" " + (w2 + rest)))| > 1
    ensures Words(w1 + (" " + (w2 + rest)))[1] == w2
  {
    WordsStep(w1, " " + (w2 + rest));
    WordsSpace(w2 + rest);
    WordsStep(w2, rest);
  }

  lemma {:induction false} WithoutNone(s: string, c: char)
    requires c !in s
    ensures Without(s, c) == s
  {
    if s != "" {
      WithoutNone(s[1..], c);
    }
  }

  lemma {:induction false} WithoutConcat(a: string, b: string, c: char)
    ensures Without(a + b, c) == Without(a, c) + Without(b, c)
    decreases |a|
  {
    if a == "" {
      assert a + b == b;
    } else {
      assert (a + b)[1..] == a[1..] + b;
      WithoutConcat(a[1..], b, c);
    }
  }
}
