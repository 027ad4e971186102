/** Copying histories name by name, one entry at a time: what is left, and what is there after so many
entries. */
module Histories {
  import opened Types

  /** One version as its owner sees it: its name, what it holds, or that it was deleted, and when it was
  written. */
  datatype Entry = Entry(name: Option<string>, value: Option<Bytes>, writtenAt: int)

  type History = seq<Entry>

  /** Of each name a beginning of its history is there. */
  ghost predicate Prefixes(copied: seq<History>, goal: seq<History>) {
    |copied| == |goal| && forall k :: 0 <= k < |goal| ==> copied[k] <= goal[k]
  }

  /** The first name with something still to copy, or past the end. */
  function NextName(copied: seq<History>, goal: seq<History>, k: nat): (r: nat)
    requires k <= |copied| == |goal|
    ensures k <= r <= |goal|
    ensures r < |goal| ==> |copied[r]| < |goal[r]|
    ensures forall j :: k <= j < r ==> |copied[j]| >= |goal[j]|
    decreases |goal| - k
  {
    if k == |goal| || |copied[k]| < |goal[k]| then k else NextName(copied, goal, k + 1)
  }

  /** One entry more: the next of the first unfinished name. */
  function OneMore(copied: seq<History>, goal: seq<History>): (r: seq<History>)
    requires |copied| == |goal|
    ensures |r| == |goal|
  {
    var k := NextName(copied, goal, 0);
    if k == |goal| then copied else copied[k := copied[k] + [goal[k][|copied[k]|]]]
  }

  /** `n` entries more. */
  function More(copied: seq<History>, goal: seq<History>, n: nat): (r: seq<History>)
    requires |copied| == |goal|
    ensures |r| == |goal|
    decreases n
  {
    if n == 0 then copied else More(OneMore(copied, goal), goal, n - 1)
  }

  /** Entries still to copy, from name `k` on. */
  function Missing(copied: seq<History>, goal: seq<History>, k: nat): nat
    requires k <= |copied| == |goal|
    decreases |goal| - k
  {
    if k == |goal| then 0
    else (if |copied[k]| < |goal[k]| then |goal[k]| - |copied[k]| else 0) + Missing(copied, goal, k + 1)
  }

  function AllMissing(copied: seq<History>, goal: seq<History>): nat
    requires |copied| == |goal|
  {
    Missing(copied, goal, 0)
  }

  lemma {:induction false} MissingLess(copied: seq<History>, goal: seq<History>, k: nat, at: nat, h: History)
    requires k <= |copied| == |goal| && at < |goal| && |copied[at]| <= |h| <= |goal[at]|
    ensures Missing(copied[at := h], goal, k) == Missing(copied, goal, k) - (if k <= at then |h| - |copied[at]| else 0)
    decreases |goal| - k
  {
    if k < |goal| {
      MissingLess(copied, goal, k + 1, at, h);
    }
  }

  lemma {:induction false} NoneMissingFrom(copied: seq<History>, goal: seq<History>, k: nat)
    requires k <= |copied| == |goal|
    ensures Missing(copied, goal, k) == 0 <==> NextName(copied, goal, k) == |goal|
    decreases |goal| - k
  {
    if k < |goal| {
      NoneMissingFrom(copied, goal, k + 1);
    }
  }

  /** Nothing is missing exactly when everything is there. */
  lemma NoneMissing(copied: seq<History>, goal: seq<History>)
    requires Prefixes(copied, goal)
    ensures AllMissing(copied, goal) == 0 <==> copied == goal
    ensures NextName(copied, goal, 0) == |goal| <==> copied == goal
  {
    hide Missing, NextName;
    NoneMissingFrom(copied, goal, 0);
    if NextName(copied, goal, 0) == |goal| {
      assert forall k :: 0 <= k < |goal| ==> copied[k] == goal[k];
    }
  }

  lemma OneMoreKeeps(copied: seq<History>, goal: seq<History>)
    requires Prefixes(copied, goal)
    ensures Prefixes(OneMore(copied, goal), goal)
    ensures copied != goal ==> AllMissing(OneMore(copied, goal), goal) + 1 == AllMissing(copied, goal)
    ensures copied == goal ==> OneMore(copied, goal) == goal
  {
    hide Missing, NextName;
    NoneMissing(copied, goal);
    var k := NextName(copied, goal, 0);
    if k < |goal| {
      MissingLess(copied, goal, 0, k, copied[k] + [goal[k][|copied[k]|]]);
    }
  }

  lemma {:induction false} MoreKeeps(copied: seq<History>, goal: seq<History>, n: nat)
    requires Prefixes(copied, goal)
    ensures Prefixes(More(copied, goal, n), goal)
    ensures n <= AllMissing(copied, goal) ==> AllMissing(More(copied, goal, n), goal) + n == AllMissing(copied, goal)
    ensures n >= AllMissing(copied, goal) ==> More(copied, goal, n) == goal
    decreases n
  {
    hide OneMore, Missing;
    NoneMissing(copied, goal);
    if n > 0 {
      OneMoreKeeps(copied, goal);
      MoreKeeps(OneMore(copied, goal), goal, n - 1);
    }
  }

  lemma {:induction false} MoreJoin(copied: seq<History>, goal: seq<History>, a: nat, b: nat)
    requires |copied| == |goal|
    ensures More(copied, goal, a + b) == More(More(copied, goal, a), goal, b)
    decreases a
  {
    hide OneMore;
    if a > 0 {
      MoreJoin(OneMore(copied, goal), goal, a - 1, b);
    }
  }

  /** Going on with name `k`, when all before it are finished, goes on with that name only. */
  lemma {:induction false} MoreOfOne(copied: seq<History>, goal: seq<History>, k: nat, n: nat)
    requires Prefixes(copied, goal) && k < |goal| && |copied[k]| + n <= |goal[k]|
    requires forall j :: 0 <= j < k ==> copied[j] == goal[j]
    ensures More(copied, goal, n) == copied[k := goal[k][..|copied[k]| + n]]
    decreases n
  {
    hide NextName;
    assert copied[k] == goal[k][..|copied[k]|];
    if n == 0 {
      assert copied[k := copied[k]] == copied;
    } else {
      OneMoreOf(copied, goal, k);
      var next := OneMore(copied, goal);
      MoreOfOne(next, goal, k, n - 1);
    }
  }

  lemma OneMoreOf(copied: seq<History>, goal: seq<History>, k: nat)
    requires Prefixes(copied, goal) && k < |goal| && |copied[k]| < |goal[k]|
    requires forall j :: 0 <= j < k ==> copied[j] == goal[j]
    ensures OneMore(copied, goal) == copied[k := goal[k][..|copied[k]| + 1]]
    ensures Prefixes(OneMore(copied, goal), goal)
  {
    hide NextName;
    assert NextName(copied, goal, 0) == k;
    assert copied[k] + [goal[k][|copied[k]|]] == goal[k][..|copied[k]| + 1];
  }

  // ------------------------------------------------------------ what the rest weighs

  /** What a history's entries from number `n` on weigh together. */
  function Weight(h: History, n: nat, weigh: Entry -> nat): nat
    decreases |h| - n
  {
    if n >= |h| then 0 else weigh(h[n]) + Weight(h, n + 1, weigh)
  }

  /** What is still to copy weighs, from name `k` on. */
  function Owed(copied: seq<History>, goal: seq<History>, weigh: Entry -> nat, k: nat): nat
    requires k <= |copied| == |goal|
    decreases |goal| - k
  {
    if k == |goal| then 0 else Weight(goal[k], |copied[k]|, weigh) + Owed(copied, goal, weigh, k + 1)
  }

  lemma {:induction false} OwedLess(copied: seq<History>, goal: seq<History>, weigh: Entry -> nat, k: nat, at: nat,
                        h: History)
    requires k <= |copied| == |goal| && at < |goal|
    ensures Owed(copied[at := h], goal, weigh, k) + (if k <= at then Weight(goal[at], |copied[at]|, weigh) else 0)
            == Owed(copied, goal, weigh, k) + (if k <= at then Weight(goal[at], |h|, weigh) else 0)
    decreases |goal| - k
  {
    hide Weight;
    if k < |goal| {
      OwedLess(copied, goal, weigh, k + 1, at, h);
    }
  }

  lemma {:induction false} OwedAtLeast(copied: seq<History>, goal: seq<History>, weigh: Entry -> nat, k: nat, at: nat)
    requires k <= at < |copied| == |goal|
    ensures Weight(goal[at], |copied[at]|, weigh) <= Owed(copied, goal, weigh, k)
    decreases at - k
  {
    hide Weight;
    if k < at {
      OwedAtLeast(copied, goal, weigh, k + 1, at);
    }
  }
}
