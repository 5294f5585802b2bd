/**
 Conservation: the balance column, the balance_after chain and the mathematical
 sum of the posted statements agree after every committed operation.
 */
module Accounting {
  import opened Int64
  import opened Wrappers
  import opened Ledger

  /** The mathematical signed sum of an account's statements. */
  function Total(log: seq<Statement>, account: Id): int {
    if log == [] then 0
    else
      var last := log[|log| - 1];
      Total(log[..|log| - 1], account) + (if last.account == account then last.Signed() else 0)
  }

  /** balance_after of the account's newest statement, 0 before the first. */
  function Last(log: seq<Statement>, account: Id): int {
    if log == [] then 0
    else if log[|log| - 1].account == account then log[|log| - 1].balanceAfter
    else Last(log[..|log| - 1], account)
  }

  /** Every balance_after is the account's previous one plus the statement's signed amount. */
  ghost predicate Chained(log: seq<Statement>) {
    forall i :: 0 <= i < |log| ==> Link(log, i)
  }

  ghost predicate Link(log: seq<Statement>, i: nat)
    requires i < |log|
  {
    log[i].balanceAfter == Wrap(Last(log[..i], log[i].account) + log[i].Signed())
  }

  /** The books of a database: chained statements, and each balance is the end of its chain. */
  ghost predicate BooksHold(db: Db) {
    && Chained(db.log)
    && (forall i :: 0 <= i < |db.log| ==> db.log[i].account in db.accounts)
    && (forall a :: a in db.accounts ==> db.accounts[a].balance == Last(db.log, a))
  }

  lemma {:induction false} LastIsWrappedTotal(log: seq<Statement>, account: Id)
    requires Chained(log)
    ensures Last(log, account) == Wrap(Total(log, account))
  {
    hide Wrap;
    if log != [] {
      var n := |log| - 1;
      var front := log[..n];
      assert forall i :: 0 <= i < n ==> log[..i] == front[..i];
      assert forall i :: 0 <= i < n ==> Link(log, i) ==> Link(front, i);
      LastIsWrappedTotal(front, account);
      if log[n].account == account {
        assert Link(log, n);
        WrapAbsorbs(Total(front, account), log[n].Signed());
      }
    }
  }

  /** A balance is the exact sum of the account's statements if and only if that sum fits int64. */
  lemma BalanceIsTotal(db: Db, account: Id)
    requires BooksHold(db) && account in db.accounts
    ensures db.accounts[account].balance == Wrap(Total(db.log, account))
    ensures db.accounts[account].balance == Total(db.log, account) <==> InRange(Total(db.log, account))
  {
    LastIsWrappedTotal(db.log, account);
  }

  lemma SnocChain(log: seq<Statement>, row: Statement)
    requires Chained(log)
    requires row.balanceAfter == Wrap(Last(log, row.account) + row.Signed())
    ensures Chained(log + [row])
  {
    hide Wrap;
    var all := log + [row];
    forall i | 0 <= i < |all| ensures Link(all, i) {
      assert all[..i] == log[..i];
      if i < |log| {
        assert Link(log, i);
      } else {
        assert log[..i] == log;
      }
    }
  }

  lemma {:induction false} PostingChains(log: seq<Statement>, account: Id, batch: seq<Statement>)
    requires Chained(log)
    requires forall d :: d in batch ==> d.account == account
    ensures Chained(log + Rows(Last(log, account), batch))
    ensures Last(log + Rows(Last(log, account), batch), account) == Final(Last(log, account), batch)
    ensures forall b :: b != account ==> Last(log + Rows(Last(log, account), batch), b) == Last(log, b)
  {
    hide Wrap;
    var b := Last(log, account);
    if batch == [] {
      assert log + Rows(b, batch) == log;
    } else {
      var front, last := batch[..|batch| - 1], batch[|batch| - 1];
      PostingChains(log, account, front);
      var rows := Rows(b, batch);
      var row := rows[|rows| - 1];
      assert log + rows == (log + Rows(b, front)) + [row];
      SnocChain(log + Rows(b, front), row);
      assert (log + rows)[..|log + rows| - 1] == log + Rows(b, front);
    }
  }

  lemma {:induction false} SameBooksSameSums(log: seq<Statement>, other: seq<Statement>, account: Id)
    requires SameBooks(log, other)
    ensures Last(log, account) == Last(other, account)
    ensures Total(log, account) == Total(other, account)
  {
    if log != [] {
      var n := |log| - 1;
      assert SameAccounting(log[n], other[n]);
      SameBooksSameSums(log[..n], other[..n], account);
    }
  }

  lemma SameBooksSameChain(log: seq<Statement>, other: seq<Statement>)
    requires SameBooks(log, other) && Chained(log)
    ensures Chained(other)
  {
    forall i | 0 <= i < |other| ensures Link(other, i) {
      assert Link(log, i) && SameAccounting(log[i], other[i]);
      SameBooksSameSums(log[..i], other[..i], log[i].account);
    }
  }

  lemma {:induction false} StrangerHasNoTotal(log: seq<Statement>, account: Id)
    requires forall i :: 0 <= i < |log| ==> log[i].account != account
    ensures Last(log, account) == 0 && Total(log, account) == 0
  {
    if log != [] { StrangerHasNoTotal(log[..|log| - 1], account); }
  }

  lemma MetadataKeepsBalances(db: Db, op: Op)
    requires BooksHold(db) && !op.PostStatements?
    requires Apply(db, op).Ok?
    ensures BooksHold(Apply(db, op).value)
  {
    var next := Apply(db, op).value;
    MetadataKeepsBooks(db, op);
    ApplyExtends(db, op);
    SameBooksSameChain(db.log, next.log);
    assert forall i :: 0 <= i < |next.log| ==> SameAccounting(db.log[i], next.log[i]);
    forall a | a in next.accounts ensures next.accounts[a].balance == Last(next.log, a) {
      hide BooksHold;
      SameBooksSameSums(db.log, next.log, a);
      if a !in db.accounts { NewAccountIsEmpty(db, op, a); }
    }
  }

  lemma NewAccountIsEmpty(db: Db, op: Op, a: Id)
    requires BooksHold(db) && !op.PostStatements? && Apply(db, op).Ok?
    requires a !in db.accounts && a in Apply(db, op).value.accounts
    ensures Last(db.log, a) == 0 == Apply(db, op).value.accounts[a].balance
  {
    StrangerHasNoTotal(db.log, a);
  }

  /** Every committed operation keeps the books. */
  lemma ApplyKeepsBooks(db: Db, op: Op)
    requires BooksHold(db)
    requires op.PostStatements? ==> forall d :: d in op.batch ==> d.account == op.account
    requires Apply(db, op).Ok?
    ensures BooksHold(Apply(db, op).value)
  {
    hide BooksHold;
    if !op.PostStatements? {
      MetadataKeepsBalances(db, op);
    } else if op.batch != [] {
      PostingKeepsBooks(db, op.account, op.batch);
    }
  }

  lemma PostingKeepsBooks(db: Db, account: Id, batch: seq<Statement>)
    requires BooksHold(db) && batch != []
    requires forall d :: d in batch ==> d.account == account
    requires Post(db, account, batch).Ok?
    ensures BooksHold(Post(db, account, batch).value)
  {
    var b := db.accounts[account].balance;
    var rows := Rows(b, batch);
    PostingChains(db.log, account, batch);
    forall i | 0 <= i < |db.log + rows| ensures (db.log + rows)[i].account in db.accounts {
      if i >= |db.log| { assert batch[i - |db.log|] in batch; }
    }
  }

  /* ---------- CreateBatch against Create ---------- */

  /** Create called once per statement, stopping at the first error. */
  function CreateEach(db: Db, account: Id, batch: seq<Statement>): Result<Db> {
    if batch == [] then Ok(db)
    else
      var before := CreateEach(db, account, batch[..|batch| - 1]);
      if before.Err? then before else Post(before.value, account, [batch[|batch| - 1]])
  }

  lemma SplitRows(b: int, batch: seq<Statement>)
    requires batch != []
    ensures var n := |batch| - 1;
            Rows(b, batch)[..n] == Rows(b, batch[..n]) && [Rows(b, batch)[n]] == Rows(Final(b, batch[..n]), batch[n..])
    ensures Final(b, batch) == Final(Final(b, batch[..|batch| - 1]), batch[|batch| - 1..])
  {
    var one := batch[|batch| - 1..];
    assert one[..0] == [] && one[0] == batch[|batch| - 1];
  }

  lemma PartOk(db: Db, rows: seq<Statement>, n: nat)
    requires n <= |rows| && RowsOk(db, rows) && TagRowsOk(db, rows)
    ensures RowsOk(db, rows[..n]) && TagRowsOk(db, rows[..n])
  {
    var part, all := db.log + rows[..n], db.log + rows;
    assert forall i :: 0 <= i < |part| ==> part[i] == all[i];
    assert forall r :: r in rows[..n] ==> r in rows;
  }

  /** Accepting one more row after the others is accepting them all together. */
  lemma OneMoreOk(db: Db, mid: Db, rows: seq<Statement>, n: nat)
    requires n + 1 == |rows| && rows[n].reference.None?
    requires RowsOk(db, rows[..n]) && TagRowsOk(db, rows[..n])
    requires mid.log == db.log + rows[..n] && mid.categories == db.categories && mid.tags == db.tags
    requires mid.accounts.Keys == db.accounts.Keys
    ensures (RowsOk(db, rows) && TagRowsOk(db, rows)) <==> (RowsOk(mid, rows[n..]) && TagRowsOk(mid, rows[n..]))
  {
    assert rows == rows[..n] + rows[n..] && rows[n..] == [rows[n]];
    assert db.log + rows == mid.log + rows[n..];
    assert forall r :: r in rows <==> r in rows[..n] || r == rows[n];
    assert RowOk(db, rows[n]) <==> RowOk(mid, rows[n]);
    if RowsOk(mid, rows[n..]) && TagRowsOk(mid, rows[n..]) {
      assert rows[n] in rows[n..];
      assert forall t :: LiveTag(mid, t) ==> LiveTag(db, t);
    }
    if RowsOk(db, rows) && TagRowsOk(db, rows) {
      assert rows[n] in rows;
      assert forall t :: LiveTag(db, t) ==> LiveTag(mid, t);
    }
  }

  lemma SettleTwice(db: Db, account: Id, first: seq<Statement>, b1: int, second: seq<Statement>, b2: int)
    requires account in db.accounts
    ensures Settle(Settle(db, account, first, b1), account, second, b2) == Settle(db, account, first + second, b2)
  {
    assert db.log + first + second == db.log + (first + second);
  }

  /** One CreateBatch answers and leaves exactly what a Create per statement does, errors included, as long as its
      rows fit one INSERT; a longer one always fails. */
  lemma {:induction false} BatchIsCreateByCreate(db: Db, account: Id, batch: seq<Statement>)
    requires forall d :: d in batch ==> d.reference.None?
    ensures |batch| <= MAX_BATCH ==> CreateEach(db, account, batch) == Post(db, account, batch)
    ensures |batch| > MAX_BATCH ==> Post(db, account, batch).Err?
  {
    hide RowsOk, TagRowsOk, Rows, Final, Wrap;
    if batch != [] && |batch| <= MAX_BATCH {
      var n := |batch| - 1;
      BatchIsCreateByCreate(db, account, batch[..n]);
      assert batch[n..] == [batch[n]];
      if account in db.accounts {
        var b := db.accounts[account].balance;
        var rows := Rows(b, batch);
        SplitRows(b, batch);
        assert rows[n].reference == batch[n].reference;
        if RowsOk(db, rows) && TagRowsOk(db, rows) { PartOk(db, rows, n); }
        if n == 0 {
          assert batch == batch[n..];
        } else if RowsOk(db, rows[..n]) && TagRowsOk(db, rows[..n]) {
          var mid := Settle(db, account, rows[..n], Final(b, batch[..n]));
          assert rows[n..] == [rows[n]] == Rows(mid.accounts[account].balance, [batch[n]]);
          OneMoreOk(db, mid, rows, n);
          SettleTwice(db, account, rows[..n], Final(b, batch[..n]), rows[n..], Final(b, batch));
          assert rows[..n] + rows[n..] == rows;
        }
      }
    }
  }
}
