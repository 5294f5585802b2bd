/**
 Reversal chains. reference_id links every reversal to the statement it undoes;
 the unique index on it makes these links disjoint chains, and a balance is what
 the statements add up to that have been reversed an even number of times.
 */
module Reversals {
  import opened Wrappers
  import opened Ledger
  import opened Accounting
  import opened Consistency

  ghost predicate Linked(log: seq<Statement>) {
    Distinct(log) && ReversalsSound(log)
  }

  /** The row that row i reverses. */
  ghost function Origin(log: seq<Statement>, i: nat): (o: nat)
    requires Linked(log) && i < |log| && log[i].reference.Some?
    ensures o < i && Reverses(log[i], log[o])
  {
    assert HasOrigin(log, i);
    var o :| 0 <= o < i && Reverses(log[i], log[o]);
    o
  }

  /** The statement at the start of row i's chain. */
  ghost function Root(log: seq<Statement>, i: nat): (r: nat)
    requires Linked(log) && i < |log|
    ensures r <= i && log[r].reference.None?
    ensures log[r].account == log[i].account && log[r].amount == log[i].amount
    ensures log[i].reference.None? ==> r == i
    decreases i
  {
    if log[i].reference.None? then i else Root(log, Origin(log, i))
  }

  /** How many reversals lie between the root and row i, row i included. */
  ghost function Depth(log: seq<Statement>, i: nat): nat
    requires Linked(log) && i < |log|
    decreases i
  {
    if log[i].reference.None? then 0 else Depth(log, Origin(log, i)) + 1
  }

  /** How many of the first n rows belong to the chain of root r. */
  ghost function Members(log: seq<Statement>, r: nat, n: nat): nat
    requires Linked(log) && n <= |log|
    decreases n
  {
    if n == 0 then 0 else Members(log, r, n - 1) + (if Root(log, n - 1) == r then 1 else 0)
  }

  /** The signed sum of those rows. */
  ghost function ChainSum(log: seq<Statement>, r: nat, n: nat): int
    requires Linked(log) && n <= |log|
    decreases n
  {
    if n == 0 then 0 else ChainSum(log, r, n - 1) + (if Root(log, n - 1) == r then log[n - 1].Signed() else 0)
  }

  /** How often the statement at root r has been reversed, re-instated, reversed again, ... */
  ghost function ReversalCount(log: seq<Statement>, r: nat): int
    requires Linked(log) && r < |log|
  {
    Members(log, r, |log|) - 1
  }

  /** The sum over root statements of the account with an even number of reversals. */
  ghost function StandingSum(log: seq<Statement>, account: Id, k: nat): int
    requires Linked(log) && k <= |log|
    decreases k
  {
    if k == 0 then 0
    else
      StandingSum(log, account, k - 1)
      + (if log[k - 1].reference.None? && log[k - 1].account == account && ReversalCount(log, k - 1) % 2 == 0
         then log[k - 1].Signed() else 0)
  }

  /* ---------- The shape of a chain ---------- */

  /** Types alternate along a chain. */
  lemma {:induction false} SignAlternates(log: seq<Statement>, i: nat)
    requires Linked(log) && i < |log|
    ensures log[i].Signed() == if Depth(log, i) % 2 == 0 then log[Root(log, i)].Signed() else -log[Root(log, i)].Signed()
    decreases i
  {
    if log[i].reference.Some? { SignAlternates(log, Origin(log, i)); }
  }

  lemma OriginUnique(log: seq<Statement>, a: nat, b: nat)
    requires Linked(log) && a < |log| && b < |log|
    requires log[a].reference.Some? && log[b].reference.Some? && Origin(log, a) == Origin(log, b)
    ensures a == b
  {
    if a < b { assert Clash(log[a], log[b]); }
    if b < a { assert Clash(log[b], log[a]); }
  }

  /** Nothing of the chain lies between a reversal and the statement it reverses. */
  lemma {:induction false} OriginIsPrevious(log: seq<Statement>, i: nat, m: nat)
    requires Linked(log) && i < |log| && log[i].reference.Some?
    requires m < i && Root(log, m) == Root(log, i)
    ensures m <= Origin(log, i)
    decreases i, m
  {
    var o := Origin(log, i);
    if o < m {
      var s := SuccessorOf(log, o, m);
      OriginUnique(log, s, i);
    }
  }

  /** Between two rows of a chain there is a row that reverses the first. */
  lemma {:induction false} SuccessorOf(log: seq<Statement>, o: nat, m: nat) returns (s: nat)
    requires Linked(log) && o < m < |log| && Root(log, o) == Root(log, m)
    ensures o < s <= m && log[s].reference.Some? && Origin(log, s) == o
    decreases m
  {
    assert log[m].reference.Some?;
    var p := Origin(log, m);
    OriginIsPrevious(log, m, o);
    if p == o { s := m; } else { s := SuccessorOf(log, o, p); }
  }

  lemma {:induction false} NoMemberBetween(log: seq<Statement>, i: nat, n: nat)
    requires Linked(log) && i < |log| && log[i].reference.Some?
    requires Origin(log, i) < n <= i
    ensures Members(log, Root(log, i), n) == Members(log, Root(log, i), Origin(log, i)) + 1
    decreases n
  {
    hide Linked, Reverses;
    if n - 1 > Origin(log, i) {
      NoMemberBetween(log, i, n - 1);
      if Root(log, n - 1) == Root(log, i) { OriginIsPrevious(log, i, n - 1); }
    }
  }

  lemma {:induction false} NoMemberBeforeRoot(log: seq<Statement>, r: nat, n: nat)
    requires Linked(log) && n <= r <= |log|
    ensures Members(log, r, n) == 0
    decreases n
  {
    if n > 0 { NoMemberBeforeRoot(log, r, n - 1); }
  }

  /** A chain is one line: row i is preceded by exactly as many of its rows as its depth says. */
  lemma {:induction false} DepthCounts(log: seq<Statement>, i: nat)
    requires Linked(log) && i < |log|
    ensures Members(log, Root(log, i), i) == Depth(log, i)
    decreases i
  {
    if log[i].reference.None? {
      NoMemberBeforeRoot(log, i, i);
    } else {
      DepthCounts(log, Origin(log, i));
      NoMemberBetween(log, i, i);
    }
  }

  /* ---------- Sums ---------- */

  /** What the first n rows leave of the chain of root r. */
  ghost function Standing(log: seq<Statement>, r: nat, n: nat): int
    requires Linked(log) && r < |log| && n <= |log|
  {
    if Members(log, r, n) % 2 == 1 then log[r].Signed() else 0
  }

  lemma RowMovesItsChain(log: seq<Statement>, r: nat, n: nat)
    requires Linked(log) && r < |log| && n < |log|
    ensures Standing(log, r, n + 1) == Standing(log, r, n) + (if Root(log, n) == r then log[n].Signed() else 0)
  {
    if Root(log, n) == r {
      DepthCounts(log, n);
      SignAlternates(log, n);
    }
  }

  lemma {:induction false} ChainSumStands(log: seq<Statement>, r: nat, n: nat)
    requires Linked(log) && r < |log| && n <= |log|
    ensures ChainSum(log, r, n) == Standing(log, r, n)
    decreases n
  {
    if n > 0 {
      ChainSumStands(log, r, n - 1);
      RowMovesItsChain(log, r, n - 1);
    }
  }

  /** A chain sums to its root's signed amount after an even number of reversals and to 0 after an odd one. */
  lemma ChainSumIsRootOrZero(log: seq<Statement>, r: nat)
    requires Linked(log) && r < |log|
    ensures ChainSum(log, r, |log|) == if ReversalCount(log, r) % 2 == 0 then log[r].Signed() else 0
  {
    ChainSumStands(log, r, |log|);
  }

  /** The standing amounts of the roots among the first k rows, seen from the first n rows. */
  ghost function StandingUpTo(log: seq<Statement>, account: Id, n: nat, k: nat): int
    requires Linked(log) && n <= |log| && k <= |log|
    decreases k
  {
    if k == 0 then 0
    else
      StandingUpTo(log, account, n, k - 1)
      + (if log[k - 1].reference.None? && log[k - 1].account == account then Standing(log, k - 1, n) else 0)
  }

  lemma {:induction false} RowMovesOneChain(log: seq<Statement>, account: Id, n: nat, k: nat)
    requires Linked(log) && n < |log| && k <= |log|
    ensures StandingUpTo(log, account, n + 1, k)
            == StandingUpTo(log, account, n, k)
               + (if Root(log, n) < k && log[n].account == account then log[n].Signed() else 0)
    decreases k
  {
    if k > 0 {
      RowMovesOneChain(log, account, n, k - 1);
      RowMovesItsChain(log, k - 1, n);
    }
  }

  lemma {:induction false} NothingStandsAtFirst(log: seq<Statement>, account: Id, k: nat)
    requires Linked(log) && k <= |log|
    ensures StandingUpTo(log, account, 0, k) == 0
    decreases k
  {
    if k > 0 { NothingStandsAtFirst(log, account, k - 1); }
  }

  lemma {:induction false} TotalIsStanding(log: seq<Statement>, account: Id, n: nat)
    requires Linked(log) && n <= |log|
    ensures Total(log[..n], account) == StandingUpTo(log, account, n, |log|)
    decreases n
  {
    if n == 0 {
      NothingStandsAtFirst(log, account, |log|);
    } else {
      TotalIsStanding(log, account, n - 1);
      RowMovesOneChain(log, account, n - 1, |log|);
      assert log[..n][..n - 1] == log[..n - 1];
    }
  }

  lemma {:induction false} StandingSumAgrees(log: seq<Statement>, account: Id, k: nat)
    requires Linked(log) && k <= |log|
    ensures StandingUpTo(log, account, |log|, k) == StandingSum(log, account, k)
    decreases k
  {
    if k > 0 { StandingSumAgrees(log, account, k - 1); }
  }

  /** The sum of all statements of an account is the sum of those reversed an even number of times. */
  lemma TotalIsStandingSum(log: seq<Statement>, account: Id)
    requires Linked(log)
    ensures Total(log, account) == StandingSum(log, account, |log|)
  {
    TotalIsStanding(log, account, |log|);
    assert log[..|log|] == log;
    StandingSumAgrees(log, account, |log|);
  }
}
