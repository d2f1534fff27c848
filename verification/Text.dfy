/** The Python string operations the repository's parsers are written with. */
module Text {

  predicate MatchAt(s: string, k: string, i: nat) {
    i + |k| <= |s| && s[i..i + |k|] == k
  }

  /** `k in s` */
  predicate Contains(s: string, k: string) {
    exists i | 0 <= i <= |s| :: MatchAt(s, k, i)
  }

  /** `s.find(k, from)`: the first match at or after `from`, or -1. */
  function Find(s: string, k: string, from: nat): (r: int)
    ensures r < 0 ==> r == -1 && forall i | from <= i :: !MatchAt(s, k, i)
    ensures r >= 0 ==> from <= r && MatchAt(s, k, r) && forall i | from <= i < r :: !MatchAt(s, k, i)
    decreases |s| - from
  {
    if from > |s| then -1
    else if MatchAt(s, k, from) then from
    else Find(s, k, from + 1)
  }

  /** The last match of `k` that starts before `end`, or -1. */
  function FindLast(s: string, k: string, end: nat): (r: int)
    ensures r < 0 ==> r == -1 && forall i | 0 <= i < end :: !MatchAt(s, k, i)
    ensures r >= 0 ==> r < end && MatchAt(s, k, r) && forall i | r < i < end :: !MatchAt(s, k, i)
  {
    if end == 0 then -1
    else if MatchAt(s, k, end - 1) then end - 1
    else FindLast(s, k, end - 1)
  }

  /** `s.split(sep)` for a non-empty separator. */
  function Split(s: string, sep: string): (r: seq<string>)
    requires sep != ""
    ensures r != []
    decreases |s|
  {
    var i := Find(s, sep, 0);
    if i < 0 then [s] else [s[..i]] + Split(s[i + |sep|..], sep)
  }

  /** `c.isspace()` */
  predicate IsSpace(c: char) {
    || '\t' <= c <= '\r'
    || '\U{1C}' <= c <= ' '
    || c == '\U{85}' || c == '\U{A0}' || c == '\U{1680}'
    || '\U{2000}' <= c <= '\U{200A}'
    || c == '\U{2028}' || c == '\U{2029}' || c == '\U{202F}' || c == '\U{205F}' || c == '\U{3000}'
  }

  function StripLeft(s: string): string {
    if s != "" && IsSpace(s[0]) then StripLeft(s[1..]) else s
  }

  function StripRight(s: string): string {
    if s != "" && IsSpace(s[|s| - 1]) then StripRight(s[..|s| - 1]) else s
  }

  /** `s.strip()` */
  function Strip(s: string): string {
    StripRight(StripLeft(s))
  }

  /** The part of `s` before its first whitespace character. */
  function FirstWord(s: string): (r: string)
    ensures |r| <= |s|
  {
    if s == "" || IsSpace(s[0]) then "" else [s[0]] + FirstWord(s[1..])
  }

  /** `s.split()`: the maximal runs of non-whitespace characters. */
  function Words(s: string): seq<string>
    decreases |s|
  {
    if s == "" then []
    else if IsSpace(s[0]) then Words(s[1..])
    else [FirstWord(s)] + Words(s[|FirstWord(s)|..])
  }

  predicate StartsWith(s: string, k: string) {
    MatchAt(s, k, 0)
  }

  predicate EndsWith(s: string, k: string) {
    |k| <= |s| && s[|s| - |k|..] == k
  }

  /** `s.replace(c, '')` for a one-character string. */
  function Without(s: string, c: char): string {
    if s == "" then ""
    else if s[0] == c then Without(s[1..], c)
    else [s[0]] + Without(s[1..], c)
  }

  /** `sep.join(parts)` */
  function Join(parts: seq<string>, sep: string): string {
    if |parts| == 0 then ""
    else if |parts| == 1 then parts[0]
    else parts[0] + sep + Join(parts[1..], sep)
  }

  /** `str(n)` for a number that is not negative. */
  function Dec(n: nat): string {
    (if n < 10 then "" else Dec(n / 10)) + ["0123456789"[n % 10]]
  }

  // ---------------------------------------------------------------------
  // Searching
  // ---------------------------------------------------------------------

  lemma FindIs(s: string, k: string, from: nat, at: nat)
    requires from <= at && MatchAt(s, k, at)
    requires forall i | from <= i < at :: !MatchAt(s, k, i)
    ensures Find(s, k, from) == at
  {
  }

  lemma FindNone(s: string, k: string, from: nat)
    requires forall i | from <= i :: !MatchAt(s, k, i)
    ensures Find(s, k, from) == -1
  {
  }

  lemma NotContainsMatch(s: string, k: string, i: nat)
    requires !Contains(s, k)
    ensures !MatchAt(s, k, i)
  {
  }

  /** A match inside a concatenation lies in the left part, in the right part, or covers the seam. */
  lemma MatchInConcat(a: string, b: string, k: string, i: nat)
    requires MatchAt(a + b, k, i)
    ensures i + |k| <= |a| ==> MatchAt(a, k, i)
    ensures |a| <= i ==> MatchAt(b, k, i - |a|)
    ensures i < |a| < i + |k| ==> k[|a| - 1 - i] == a[|a| - 1] && k[|a| - i] == b[0]
    ensures i < |a| < i + |k| && i + 1 < |a| ==> k[|a| - 2 - i] == a[|a| - 2]
  {
    var s := a + b;
    if i + |k| <= |a| {
      assert a[i..i + |k|] == s[i..i + |k|];
    }
    if |a| <= i {
      assert b[i - |a|..i - |a| + |k|] == s[i..i + |k|];
    }
    if i < |a| < i + |k| {
      assert s[i..i + |k|][|a| - 1 - i] == s[|a| - 1];
      assert s[i..i + |k|][|a| - i] == s[|a|];
      if i + 1 < |a| {
        assert s[i..i + |k|][|a| - 2 - i] == s[|a| - 2];
      }
    }
  }

  /** `k` cannot run over the end of `a` into what follows: wherever the last
      character of `a` occurs in `k`, the character before it differs too. */
  predicate EndsApart(a: string, k: string) {
    a != "" ==>
      forall j | 0 <= j < |k| && k[j] == a[|a| - 1] ::
        j == |k| - 1 || (j > 0 && |a| > 1 && k[j - 1] != a[|a| - 2])
  }

  /** The first character of `b` does not occur in `k` after its first position. */
  predicate StartsApart(b: string, k: string) {
    b != "" ==> b[0] !in k
  }

  lemma AbsentLeft(a: string, b: string, k: string)
    requires k != "" && !Contains(a, k) && !Contains(b, k) && EndsApart(a, k)
    ensures !Contains(a + b, k)
  {
    forall i: nat | MatchAt(a + b, k, i)
      ensures false
    {
      MatchInConcat(a, b, k, i);
    }
  }

  lemma AbsentRight(a: string, b: string, k: string)
    requires k != "" && !Contains(a, k) && !Contains(b, k) && StartsApart(b, k)
    ensures !Contains(a + b, k)
  {
    forall i: nat | MatchAt(a + b, k, i)
      ensures false
    {
      MatchInConcat(a, b, k, i);
    }
  }

  /** A printed field: text, a value, and closing text. */
  lemma AbsentAround(a: string, v: string, b: string, k: string)
    requires k != "" && !Contains(a, k) && !Contains(v, k) && !Contains(b, k)
    requires EndsApart(a, k) && StartsApart(b, k)
    ensures !Contains(a + v + b, k)
  {
    AbsentLeft(a, v, k);
    AbsentRight(a + v, b, k);
  }

  lemma MatchChar(s: string, k: string, i: nat, j: nat)
    requires MatchAt(s, k, i) && j < |k|
    ensures s[i + j] == k[j]
  {
    assert s[i..i + |k|][j] == s[i + j];
  }

  /** Two neighbouring characters of `k` that never meet in `s`. */
  lemma AbsentPair(s: string, k: string, j: nat)
    requires j + 1 < |k|
    requires forall i | 0 <= i < |s| - 1 :: !(s[i] == k[j] && s[i + 1] == k[j + 1])
    ensures !Contains(s, k)
  {
    forall i: nat | MatchAt(s, k, i)
      ensures false
    {
      MatchChar(s, k, i, j);
      MatchChar(s, k, i, j + 1);
    }
  }

  lemma ContainsAt(s: string, a: string, k: string, b: string)
    requires s == a + k + b
    ensures MatchAt(s, k, |a|) && Contains(s, k)
  {
    assert s[|a|..|a| + |k|] == k;
    assert MatchAt(s, k, |a|);
  }
}
