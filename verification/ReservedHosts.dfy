/** Removing list elements while a `for` loop runs over the same list. */
module ReservedHosts {

  /** What the loop leaves: a removed element lets its successor slip past the loop untested. */
  function Sweep<T>(hs: seq<T>, flags: seq<bool>): seq<T>
    requires |hs| == |flags|
  {
    if hs == [] then []
    else if !flags[0] then [hs[0]] + Sweep(hs[1..], flags[1..])
    else if |hs| == 1 then []
    else [hs[1]] + Sweep(hs[2..], flags[2..])
  }

  /** How many matches stand directly before position `i`. */
  function RunBefore(flags: seq<bool>, i: nat): nat
    requires i <= |flags|
  {
    if i > 0 && flags[i - 1] then RunBefore(flags, i - 1) + 1 else 0
  }

  /** An element stays if it does not match, or is preceded by an odd number of adjacent matches. */
  predicate Stays(flags: seq<bool>, i: nat)
    requires i < |flags|
  {
    !flags[i] || RunBefore(flags, i) % 2 == 1
  }

  /** The elements from `i` on that stay, in order. */
  function Staying<T>(hs: seq<T>, flags: seq<bool>, i: nat): seq<T>
    requires |hs| == |flags| && i <= |hs|
    decreases |hs| - i
  {
    if i == |hs| then []
    else (if Stays(flags, i) then [hs[i]] else []) + Staying(hs, flags, i + 1)
  }

  /** From any position that the loop tests, the loop leaves exactly the elements that stay. */
  lemma {:induction false} SweepFrom<T>(hs: seq<T>, flags: seq<bool>, i: nat)
    requires |hs| == |flags| && i <= |hs|
    requires RunBefore(flags, i) % 2 == 0
    ensures Sweep(hs[i..], flags[i..]) == Staying(hs, flags, i)
    decreases |hs| - i
  {
    if i < |hs| {
      if !flags[i] {
        assert hs[i..][1..] == hs[i + 1..] && flags[i..][1..] == flags[i + 1..];
        SweepFrom(hs, flags, i + 1);
      } else if i + 1 < |hs| {
        assert hs[i..][2..] == hs[i + 2..] && flags[i..][2..] == flags[i + 2..];
        assert RunBefore(flags, i + 1) == RunBefore(flags, i) + 1;
        SweepFrom(hs, flags, i + 2);
        assert Staying(hs, flags, i) == Staying(hs, flags, i + 1);
      }
    }
  }

  /** The loop never drops an element that does not match, keeps the order, and of adjacent
      matches keeps every second one. */
  lemma SweepStays<T>(hs: seq<T>, flags: seq<bool>)
    requires |hs| == |flags|
    ensures Sweep(hs, flags) == Staying(hs, flags, 0)
  {
    SweepFrom(hs, flags, 0);
    assert hs[0..] == hs && flags[0..] == flags;
  }

  /** How many elements of the positions `[a, b)` stay. */
  function StayCount(flags: seq<bool>, a: nat, b: nat): nat
    requires a <= b <= |flags|
  {
    if a == b then 0 else StayCount(flags, a, b - 1) + (if Stays(flags, b - 1) then 1 else 0)
  }

  ghost predicate MaximalRun(flags: seq<bool>, a: nat, b: nat) {
    && a < b <= |flags|
    && (forall i | a <= i < b :: flags[i])
    && (a == 0 || !flags[a - 1])
    && (b == |flags| || !flags[b])
  }

  lemma {:induction false} RunOffset(flags: seq<bool>, a: nat, i: nat)
    requires a <= i <= |flags| && (a == 0 || !flags[a - 1])
    requires forall j | a <= j < i :: flags[j]
    ensures RunBefore(flags, i) == i - a
  {
    if a < i {
      RunOffset(flags, a, i - 1);
    }
  }

  lemma {:induction false} RunCount(flags: seq<bool>, a: nat, b: nat)
    requires a <= b <= |flags| && (a == 0 || !flags[a - 1])
    requires forall i | a <= i < b :: flags[i]
    ensures StayCount(flags, a, b) == (b - a) / 2
  {
    if a < b {
      RunCount(flags, a, b - 1);
      RunOffset(flags, a, b - 1);
    }
  }

  /** Of a maximal run of k adjacent matches, exactly k / 2 stay. */
  lemma HalfOfEveryRunStays(flags: seq<bool>, a: nat, b: nat)
    requires MaximalRun(flags, a, b)
    ensures StayCount(flags, a, b) == (b - a) / 2
  {
    RunCount(flags, a, b);
  }

  /** Every match is removed if and only if no two matches are neighbours. */
  lemma AllRemovedIff(flags: seq<bool>)
    ensures (forall i | 0 <= i < |flags| && flags[i] :: !Stays(flags, i))
        <==> (forall i | 0 < i < |flags| :: !(flags[i - 1] && flags[i]))
  {
    if exists i | 0 < i < |flags| :: flags[i - 1] && flags[i] {
      var i := FirstPair(flags);
      assert RunBefore(flags, i) == 1;
      assert Stays(flags, i);
    } else {
      forall i | 0 <= i < |flags| && flags[i]
        ensures !Stays(flags, i)
      {
        if i > 0 {
          assert !flags[i - 1];
        }
      }
    }
  }

  lemma FirstPair(flags: seq<bool>) returns (i: nat)
    requires exists i | 0 < i < |flags| :: flags[i - 1] && flags[i]
    ensures 0 < i < |flags| && flags[i - 1] && flags[i] && (i == 1 || !flags[i - 2])
  {
    i :| 0 < i < |flags| && flags[i - 1] && flags[i];
    while i > 1 && flags[i - 2]
      invariant 0 < i < |flags| && flags[i - 1] && flags[i]
    {
      i := i - 1;
    }
  }
}
