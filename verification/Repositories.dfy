/**
 The PostgreSQL repositories as objects over one shared database. Every method is
 one transaction; failsAt numbers the SQL statement at which the connection breaks
 (from 1, 0 for none), and a transaction that does not commit leaves the database alone.
 */
module Repositories {
  import opened Int64
  import opened Wrappers
  import opened Answers
  import opened Consistency
  import opened Ledger
  import opened UseCases

  class Database {
    var db: Db

    constructor (db: Db)
      ensures this.db == db
    {
      this.db := db;
    }
  }

  /* ---------- The multi-row INSERT ---------- */


  datatype Arg = Text(text: string) | Kind(typ: StatementType) | Number(n: int) | Nullable(value: Option<string>)

  /** The column values of a row, in the order of the INSERT's column list. */
  function Columns(r: Statement): (args: seq<Arg>)
    ensures |args| == COLUMNS
  {
    [Text(r.id), Text(r.account), Kind(r.typ), Number(r.amount), Text(r.description), Nullable(r.reference),
     Nullable(r.external), Number(r.balanceAfter), Number(r.postedAt), Number(r.createdAt), Nullable(r.category)]
  }

  /** The row that PostgreSQL builds from eleven values, if their types fit the columns. */
  function FromColumns(a: seq<Arg>): Option<Statement> {
    if |a| == COLUMNS && a[0].Text? && a[1].Text? && a[2].Kind? && a[3].Number? && a[4].Text? && a[5].Nullable?
       && a[6].Nullable? && a[7].Number? && a[8].Number? && a[9].Number? && a[10].Nullable? then
      Some(Statement(a[0].text, a[1].text, a[2].typ, a[3].n, a[4].text, a[5].value, a[6].value, a[7].n, a[8].n, a[9].n, a[10].value, {}))
    else None
  }

  /** The values behind one tuple ($n, $m, ...); parameters are numbered from 1. */
  function Bound(tuple: seq<nat>, args: seq<Arg>): Option<seq<Arg>> {
    if forall k :: 0 <= k < |tuple| ==> 1 <= tuple[k] <= |args| then
      Some(seq(|tuple|, k requires 0 <= k < |tuple| && 1 <= tuple[k] <= |args| => args[tuple[k] - 1]))
    else None
  }

  /** The rows that INSERT ... VALUES tuples would write. */
  function Inserted(tuples: seq<seq<nat>>, args: seq<Arg>): Option<seq<Statement>> {
    if tuples == [] then Some([])
    else
      var before := Inserted(tuples[..|tuples| - 1], args);
      var values := Bound(tuples[|tuples| - 1], args);
      if before.None? || values.None? then None
      else
        var row := FromColumns(values.value);
        if row.None? then None else Some(before.value + [row.value])
  }

  function Untagged(rows: seq<Statement>): (r: seq<Statement>)
    ensures |r| == |rows|
  {
    seq(|rows|, i requires 0 <= i < |rows| => rows[i].(tags := {}))
  }

  /** Number of column k of row i in the statement text. */
  function Parameter(i: nat, k: nat): nat {
    i * COLUMNS + k + 1
  }

  function Tuple(i: nat): (t: seq<nat>)
    ensures |t| == COLUMNS && forall k :: 0 <= k < COLUMNS ==> t[k] == Parameter(i, k)
  {
    seq(COLUMNS, k requires 0 <= k < COLUMNS => Parameter(i, k))
  }

  function Tuples(n: nat): (t: seq<seq<nat>>)
    ensures |t| == n && forall i :: 0 <= i < n ==> t[i] == Tuple(i)
  {
    seq(n, i requires 0 <= i < n => Tuple(i))
  }

  function AllColumns(rows: seq<Statement>): seq<Arg> {
    if rows == [] then [] else AllColumns(rows[..|rows| - 1]) + Columns(rows[|rows| - 1])
  }

  /** The numbers $1 ... $11n are each used exactly once: every parameter belongs to one column of one row. */
  lemma ParametersAreABijection(n: nat, m: nat)
    requires 1 <= m <= n * COLUMNS
    ensures exists i, k :: 0 <= i < n && 0 <= k < COLUMNS && Parameter(i, k) == m
    ensures forall i, k, j, l ::
              (0 <= i < n && 0 <= k < COLUMNS && 0 <= j < n && 0 <= l < COLUMNS && Parameter(i, k) == m == Parameter(j, l))
              ==> i == j && k == l
  {
    var i, k := (m - 1) / COLUMNS, (m - 1) % COLUMNS;
    assert 0 <= i < n && 0 <= k < COLUMNS && Parameter(i, k) == m;
  }

  lemma {:induction false} ArgumentAt(rows: seq<Statement>, i: nat, k: nat)
    requires i < |rows| && k < COLUMNS
    ensures Parameter(i, k) <= |AllColumns(rows)|
    ensures AllColumns(rows)[Parameter(i, k) - 1] == Columns(rows[i])[k]
  {
    var n := |rows| - 1;
    ArgumentCount(rows[..n]);
    if i < n { ArgumentAt(rows[..n], i, k); }
  }

  lemma ColumnsRoundTrip(r: Statement)
    ensures FromColumns(Columns(r)) == Some(r.(tags := {}))
  {
  }

  lemma TupleBinds(n: nat, args: seq<Arg>, columns: seq<Arg>)
    requires |columns| == COLUMNS && n * COLUMNS + COLUMNS <= |args|
    requires args[n * COLUMNS..n * COLUMNS + COLUMNS] == columns
    ensures Bound(Tuple(n), args) == Some(columns)
  {
    var tuple := Tuple(n);
    forall k | 0 <= k < COLUMNS ensures 1 <= tuple[k] <= |args| && args[tuple[k] - 1] == columns[k] {
      assert args[n * COLUMNS..n * COLUMNS + COLUMNS][k] == args[n * COLUMNS + k];
    }
    assert Bound(tuple, args).value == columns;
  }

  /** Column k of row i reaches argument 11i + k, so the INSERT writes the rows it was built from. */
  lemma {:induction false} InsertWritesRows(rows: seq<Statement>, more: seq<Arg>)
    ensures Inserted(Tuples(|rows|), AllColumns(rows) + more) == Some(Untagged(rows))
  {
    hide Columns, FromColumns, Bound, Tuple;
    if rows != [] {
      var n := |rows| - 1;
      var args := AllColumns(rows) + more;
      InsertWritesRows(rows[..n], Columns(rows[n]) + more);
      assert Tuples(|rows|)[..n] == Tuples(n);
      assert AllColumns(rows[..n]) + (Columns(rows[n]) + more) == args;
      ArgumentCount(rows[..n]);
      TupleBinds(n, args, Columns(rows[n]));
      ColumnsRoundTrip(rows[n]);
      assert Untagged(rows) == Untagged(rows[..n]) + [rows[n].(tags := {})];
    } else {
      assert Untagged(rows) == [];
    }
  }

  lemma {:induction false} ArgumentCount(rows: seq<Statement>)
    ensures |AllColumns(rows)| == |rows| * COLUMNS
  {
    if rows != [] { ArgumentCount(rows[..|rows| - 1]); }
  }

  /* ---------- What a posting writes ---------- */

  /** One row with the new balance at the end of the log, and the balance of its account; nothing else. */
  ghost predicate Added(before: Db, after: Db, stmt: Statement, account: Id, balance: int)
    requires account in before.accounts
  {
    && balance == (if stmt.typ == Credit then Wrap(before.accounts[account].balance + stmt.amount)
                   else Wrap(before.accounts[account].balance - stmt.amount))
    && after == before.(accounts := before.accounts[account := before.accounts[account].(balance := balance)],
                        log := before.log + [stmt.(balanceAfter := balance)])
  }

  /** A row for each statement in order, each with the balance that the ones before it lead to. */
  ghost predicate AddedAll(before: Db, after: Db, stmts: seq<Statement>, account: Id, balance: int)
    requires account in before.accounts && stmts != []
  {
    && |after.log| == |before.log| + |stmts| && after.log[..|before.log|] == before.log
    && Running(before.accounts[account].balance, stmts, after.log[|before.log|..])
    && balance == after.log[|after.log| - 1].balanceAfter
    && after == before.(accounts := before.accounts[account := before.accounts[account].(balance := balance)], log := after.log)
  }

  /** The statements with a running balance that starts from b. */
  ghost predicate Running(b: int, stmts: seq<Statement>, rows: seq<Statement>) {
    |rows| == |stmts| && forall i :: 0 <= i < |stmts| ==> Continues(b, stmts, rows, i)
  }

  ghost predicate Continues(b: int, stmts: seq<Statement>, rows: seq<Statement>, i: nat)
    requires i < |stmts| == |rows|
  {
    var before := if i == 0 then b else rows[i - 1].balanceAfter;
    rows[i] == stmts[i].(balanceAfter := if stmts[i].typ == Credit then Wrap(before + stmts[i].amount) else Wrap(before - stmts[i].amount))
  }

  lemma RowsRun(b: int, stmts: seq<Statement>)
    ensures Running(b, stmts, Rows(b, stmts))
  {
    hide Wrap, Rows;
    forall i | 0 <= i < |stmts| ensures Continues(b, stmts, Rows(b, stmts), i) { RowContinues(b, stmts, i); }
  }

  lemma PostAddsAll(db: Db, account: Id, stmts: seq<Statement>, after: Db)
    requires stmts != [] && Post(db, account, stmts) == Ok(after) && account in db.accounts
    ensures account in after.accounts && AddedAll(db, after, stmts, account, after.accounts[account].balance)
  {
    hide Wrap, Rows, Post, Running;
    var rows := Rows(db.accounts[account].balance, stmts);
    PostAppends(db, account, stmts);
    RowsRun(db.accounts[account].balance, stmts);
    assert after.log == db.log + rows;
    assert after.log[|db.log|..] == rows;
  }

  /* ---------- What writes leave alone ---------- */

  /** Same accounts, owners and balances, and the same other tables. */
  ghost predicate SameMoney(before: Db, after: Db) {
    && after == before.(accounts := after.accounts)
    && after.accounts.Keys == before.accounts.Keys
    && (forall a :: a in before.accounts ==>
          after.accounts[a].owner == before.accounts[a].owner && after.accounts[a].balance == before.accounts[a].balance)
  }

  /** Same categories with their types and owners, all but the excepted ones still there, and the same other tables. */
  ghost predicate SameKinds(before: Db, after: Db, except: set<Id>) {
    && after == before.(categories := after.categories)
    && after.categories.Keys == before.categories.Keys
    && (forall c :: c in before.categories ==>
          && after.categories[c].owner == before.categories[c].owner
          && after.categories[c].typ == before.categories[c].typ
          && (c !in except ==> after.categories[c].live == before.categories[c].live))
  }

  /** The rows of one statement have this category; everything else is as before. */
  ghost predicate OnlyCategories(before: Db, after: Db, statement: Id, category: Option<Id>) {
    && after == before.(log := after.log) && |after.log| == |before.log|
    && (forall i :: 0 <= i < |before.log| ==> SameAccounting(before.log[i], after.log[i]) && after.log[i].tags == before.log[i].tags)
    && (forall i :: 0 <= i < |before.log| ==>
          after.log[i].category == if before.log[i].id == statement then category else before.log[i].category)
  }

  lemma StaysConsistent(db: Db, op: Op)
    requires Consistent(db) && Suits(db, op)
    ensures Apply(db, op).Ok? ==> Consistent(Apply(db, op).value)
  {
    if Apply(db, op).Ok? { ApplyKeepsConsistent(db, op); }
  }

  /* ---------- Statements ---------- */

  ghost predicate Broken(failsAt: nat, statements: nat) {
    1 <= failsAt <= statements
  }

  /** The outcome of one transaction that is meant to have this effect. */
  ghost predicate Outcome<T>(before: Db, after: Db, effect: Result<Db>, broken: bool, r: Result<T>) {
    && (effect.Ok? && !broken ==> r.Ok? && after == effect.value)
    && (effect.Err? || broken ==> r.Err? && after == before)
    && (effect.Err? && !broken ==> r.error == effect.error)
  }

  class StatementRepository {
    const writer: Database

    constructor (writer: Database)
      ensures this.writer == writer
    {
      this.writer := writer;
    }

    /** BEGIN, SELECT FOR UPDATE, INSERT statement, INSERT tags, UPDATE balance, COMMIT. */
    method Create(stmt: Statement, account: Id, failsAt: nat) returns (r: Result<int>)
      modifies writer
      ensures Outcome(old(writer.db), writer.db, Post(old(writer.db), account, [stmt]), Broken(failsAt, 6), r)
      ensures r.Ok? ==> account in writer.db.accounts && r.value == writer.db.accounts[account].balance
      ensures r.Ok? ==> account in old(writer.db).accounts && Added(old(writer.db), writer.db, stmt, account, r.value)
      ensures r.Err? ==> writer.db == old(writer.db)
      ensures stmt.account == account && account in old(writer.db).accounts && Distinct(old(writer.db).log) ==>
                (r.Ok? <==> Insertable(old(writer.db), stmt) && !Broken(failsAt, 6))
    {
      hide Insertable, Distinct;
      if stmt.account == account && account in writer.db.accounts && Distinct(writer.db.log) { PostOne(writer.db, stmt); }
      var db := writer.db;
      if failsAt == 1 || failsAt == 2 { return Err(StoreFailure); }
      if account !in db.accounts { return Err(AccountNotFound); }
      var currentBalance := db.accounts[account].balance;
      var newBalance: int;
      if stmt.typ.Credit? {
        newBalance := Wrap(currentBalance + stmt.amount);
      } else {
        newBalance := Wrap(currentBalance - stmt.amount);
      }
      var row := stmt.(balanceAfter := newBalance);
      assert Rows(currentBalance, [stmt]) == [row];
      assert Final(currentBalance, [stmt]) == newBalance;
      if failsAt == 3 { return Err(StoreFailure); }
      if !RowsOk(db, [row]) { return Err(ConstraintViolation); }
      if failsAt == 4 { return Err(StoreFailure); }
      if !TagRowsOk(db, [row]) { return Err(ConstraintViolation); }
      if failsAt == 5 || failsAt == 6 { return Err(StoreFailure); }
      writer.db := Settle(db, account, [row], newBalance);
      return Ok(newBalance);
    }

    /** The loop of CreateBatch: the running balance and the placeholders and arguments of one INSERT. */
    static method Assemble(stmts: seq<Statement>, currentBalance: int)
      returns (runningBalance: int, placeholders: seq<seq<nat>>, allArgs: seq<Arg>)
      ensures runningBalance == Final(currentBalance, stmts)
      ensures placeholders == Tuples(|stmts|)
      ensures allArgs == AllColumns(Rows(currentBalance, stmts))
    {
      hide *;
      Nothing(currentBalance);
      runningBalance, placeholders, allArgs := currentBalance, [], [];
      for i := 0 to |stmts|
        invariant runningBalance == Final(currentBalance, stmts[..i])
        invariant placeholders == Tuples(i)
        invariant allArgs == AllColumns(Rows(currentBalance, stmts[..i]))
      {
        var stmt := stmts[i];
        assert stmts[..i + 1] == stmts[..i] + [stmt];
        OneMoreRow(currentBalance, stmts[..i], stmt);
        if stmt.typ.Credit? {
          runningBalance := Wrap(runningBalance + stmt.amount);
        } else {
          runningBalance := Wrap(runningBalance - stmt.amount);
        }
        var model := stmt.(balanceAfter := runningBalance);
        placeholders := placeholders + [Tuple(i)];
        allArgs := allArgs + Columns(model);
      }
      assert stmts[..|stmts|] == stmts;
    }

    /** The same with one INSERT for the whole list and a running balance. */
    method CreateBatch(stmts: seq<Statement>, account: Id, failsAt: nat) returns (r: Result<int>)
      modifies writer
      ensures Outcome(old(writer.db), writer.db, Post(old(writer.db), account, stmts), stmts != [] && Broken(failsAt, 6), r)
      ensures stmts == [] ==> r == Ok(0)
      ensures r.Ok? && stmts != [] ==> account in writer.db.accounts && r.value == writer.db.accounts[account].balance
      ensures r.Err? ==> writer.db == old(writer.db)
      ensures r.Ok? && stmts != [] ==>
                account in old(writer.db).accounts && |stmts| <= 5957 && AddedAll(old(writer.db), writer.db, stmts, account, r.value)
    {
      hide Wrap, AddedAll, RowsOk, TagRowsOk, Inserted, Columns, Untagged, Rows, Final, AllColumns, Tuples, WithTagRows;
      if |stmts| == 0 { return Ok(0); }
      var db := writer.db;
      if failsAt == 1 || failsAt == 2 { return Err(StoreFailure); }
      if account !in db.accounts { return Err(AccountNotFound); }
      var currentBalance := db.accounts[account].balance;
      var runningBalance, placeholders, allArgs := Assemble(stmts, currentBalance);
      ghost var rows := Rows(currentBalance, stmts);
      InsertWritesRows(rows, []);
      assert AllColumns(rows) + [] == allArgs;
      UntaggedRowsOk(db, rows);
      ArgumentCount(rows);
      if failsAt == 3 || |allArgs| > MAX_PARAMETERS { return Err(StoreFailure); }
      var inserted := Inserted(placeholders, allArgs);
      if inserted.None? || !RowsOk(db, inserted.value) { return Err(ConstraintViolation); }
      var tagged := WithTagRows(inserted.value, stmts);
      if failsAt == 4 { return Err(StoreFailure); }
      Retagged(currentBalance, stmts);
      if !TagRowsOk(db, tagged) { return Err(ConstraintViolation); }
      if failsAt == 5 || failsAt == 6 { return Err(StoreFailure); }
      writer.db := Settle(db, account, tagged, runningBalance);
      assert Post(db, account, stmts) == Ok(writer.db);
      PostAddsAll(db, account, stmts, writer.db);
      return Ok(runningBalance);
    }

    /** Every row of that id gets the category, no other column or table changes, and a category that no longer
        exists is never written. */
    method UpdateCategory(statement: Id, category: Option<Id>, failsAt: nat) returns (r: Result<()>)
      modifies writer
      ensures Outcome(old(writer.db), writer.db, Apply(old(writer.db), SetCategory(statement, category)), Broken(failsAt, 1), r)
      ensures r.Ok? ==> OnlyCategories(old(writer.db), writer.db, statement, category)
      ensures r.Ok? <==> HasStatement(old(writer.db).log, statement) && !Broken(failsAt, 1)
                         && (category.Some? ==> LiveIn(old(writer.db), category.value))
      ensures r.Ok? && category.Some? ==> LiveCategory(writer.db, category.value)
      ensures Consistent(old(writer.db)) && Suits(old(writer.db), SetCategory(statement, category)) ==> Consistent(writer.db)
    {
      hide Consistent, Suits;
      var db := writer.db;
      if Consistent(db) && Suits(db, SetCategory(statement, category)) { StaysConsistent(db, SetCategory(statement, category)); }
      if failsAt == 1 { return Err(StoreFailure); }
      if category.Some? && !LiveCategory(db, category.value) { return Err(StatementNotFound); }
      if !HasStatement(db.log, statement) { return Err(StatementNotFound); }
      writer.db := db.(log := WithCategory(db.log, statement, category));
      return Ok(());
    }

    /** BEGIN, SELECT EXISTS, DELETE, INSERT, COMMIT; a repeated tag breaks the primary key. */
    method ReplaceTags(statement: Id, tagIds: seq<Id>, failsAt: nat) returns (r: Result<()>)
      modifies writer
      ensures var added := set t | t in tagIds;
              Unrepeated(tagIds) ==>
                Outcome(old(writer.db), writer.db, Apply(old(writer.db), EditTags(statement, AllTags(old(writer.db).log, statement), added)),
                          Broken(failsAt, if tagIds == [] then 4 else 5), r)
      ensures !Unrepeated(tagIds) ==> r.Err? && writer.db == old(writer.db)
    {
      var db := writer.db;
      if failsAt == 1 || failsAt == 2 { return Err(StoreFailure); }
      if !HasStatement(db.log, statement) { return Err(StatementNotFound); }
      if failsAt == 3 { return Err(StoreFailure); }
      var removed := AllTags(db.log, statement);
      var added := set t | t in tagIds;
      if failsAt == 4 { return Err(StoreFailure); }
      if |tagIds| > 0 {
        if !Unrepeated(tagIds) || exists t :: t in added && !LiveTag(db, t) { return Err(ConstraintViolation); }
        if failsAt == 5 { return Err(StoreFailure); }
      }
      AllTagsCover(db.log, statement);
      assert forall i :: 0 <= i < |db.log| && db.log[i].id == statement ==> (db.log[i].tags - removed) * added == {};
      writer.db := db.(log := WithTags(db.log, statement, removed, added));
      return Ok(());
    }
  }

  /** The inserted rows with the statement_tags rows of each statement. */
  function WithTagRows(rows: seq<Statement>, stmts: seq<Statement>): seq<Statement>
    requires |rows| == |stmts|
  {
    seq(|rows|, i requires 0 <= i < |rows| => rows[i].(tags := stmts[i].tags))
  }

  lemma Nothing(b: int)
    ensures Rows(b, []) == [] && Final(b, []) == b && AllColumns([]) == [] && Tuples(0) == []
  {
  }

  lemma OneMoreRow(b: int, front: seq<Statement>, stmt: Statement)
    ensures var sum := if stmt.typ.Credit? then Wrap(Final(b, front) + stmt.amount) else Wrap(Final(b, front) - stmt.amount);
            && Final(b, front + [stmt]) == sum
            && AllColumns(Rows(b, front + [stmt])) == AllColumns(Rows(b, front)) + Columns(stmt.(balanceAfter := sum))
    ensures Tuples(|front| + 1) == Tuples(|front|) + [Tuple(|front|)]
  {
    hide Wrap, Columns;
    assert (front + [stmt])[..|front|] == front;
    var row := stmt.(balanceAfter := Wrap(Final(b, front) + stmt.Signed()));
    assert Rows(b, front + [stmt]) == Rows(b, front) + [row];
    assert (Rows(b, front) + [row])[..|front|] == Rows(b, front);
  }

  lemma Retagged(b: int, stmts: seq<Statement>)
    ensures WithTagRows(Untagged(Rows(b, stmts)), stmts) == Rows(b, stmts)
  {
  }

  predicate Unrepeated(ids: seq<Id>) {
    forall i, j :: 0 <= i < j < |ids| ==> ids[i] != ids[j]
  }

  /** The tag rows that DELETE ... WHERE statement_id removes. */
  function AllTags(log: seq<Statement>, statement: Id): set<Id> {
    set i, t | 0 <= i < |log| && log[i].id == statement && t in log[i].tags :: t
  }

  lemma AllTagsCover(log: seq<Statement>, statement: Id)
    ensures forall i :: 0 <= i < |log| && log[i].id == statement ==> log[i].tags <= AllTags(log, statement)
  {
  }

  /** No constraint of the statements table looks at tags. */
  lemma UntaggedRowsOk(db: Db, rows: seq<Statement>)
    ensures RowsOk(db, Untagged(rows)) <==> RowsOk(db, rows)
  {
    var u := Untagged(rows);
    var a, b := db.log + rows, db.log + u;
    assert forall i :: 0 <= i < |a| ==> a[i] == b[i] || (a[i].(tags := {}) == b[i]);
    assert forall i, j :: 0 <= i < j < |a| ==> (Clash(a[i], a[j]) <==> Clash(b[i], b[j]));
    assert forall i :: 0 <= i < |rows| ==> (RowOk(db, rows[i]) <==> RowOk(db, u[i]));
    assert forall i :: 0 <= i < |rows| ==> rows[i] in rows && u[i] in u;
  }

  /* ---------- Accounts, categories, tags ---------- */

  class AccountRepository {
    const writer: Database

    constructor (writer: Database)
      ensures this.writer == writer
    {
      this.writer := writer;
    }

    /** A new account is active and empty. */
    method Create(id: Id, owner: Id, name: string, failsAt: nat) returns (r: Result<()>)
      modifies writer
      ensures Outcome(old(writer.db), writer.db, Apply(old(writer.db), CreateAccount(id, owner, name)), Broken(failsAt, 1), r)
      ensures r.Ok? <==> id !in old(writer.db).accounts && !Broken(failsAt, 1)
      ensures r.Ok? ==> writer.db == old(writer.db).(accounts := old(writer.db).accounts[id := Account(owner, 0, true, name)])
      ensures Consistent(old(writer.db)) ==> Consistent(writer.db)
    {
      hide Consistent;
      var db := writer.db;
      if Consistent(db) { StaysConsistent(db, CreateAccount(id, owner, name)); }
      if failsAt == 1 { return Err(StoreFailure); }
      if id in db.accounts { return Err(ConstraintViolation); }
      writer.db := db.(accounts := db.accounts[id := Account(owner, 0, true, name)]);
      return Ok(());
    }

    /** Never writes the balance or the owner of any account, nor any other table. */
    method Update(id: Id, name: string, active: bool, failsAt: nat) returns (r: Result<()>)
      modifies writer
      ensures Outcome(old(writer.db), writer.db, Apply(old(writer.db), UpdateAccount(id, name, active)), Broken(failsAt, 1), r)
      ensures r.Ok? <==> id in old(writer.db).accounts && !Broken(failsAt, 1)
      ensures r.Ok? ==> writer.db == old(writer.db).(accounts :=
                          old(writer.db).accounts[id := old(writer.db).accounts[id].(name := name, active := active)])
      ensures SameMoney(old(writer.db), writer.db)
      ensures Consistent(old(writer.db)) ==> Consistent(writer.db)
    {
      hide Consistent;
      var db := writer.db;
      if Consistent(db) { StaysConsistent(db, UpdateAccount(id, name, active)); }
      if failsAt == 1 { return Err(StoreFailure); }
      if id !in db.accounts { return Err(AccountNotFound); }
      writer.db := db.(accounts := db.accounts[id := db.accounts[id].(name := name, active := active)]);
      return Ok(());
    }

    /** A soft delete: the account is there and inactive afterwards, with its money, and cannot be deleted again. */
    method Delete(id: Id, failsAt: nat) returns (r: Result<()>)
      modifies writer
      ensures Outcome(old(writer.db), writer.db, Apply(old(writer.db), DeleteAccount(id)), Broken(failsAt, 1), r)
      ensures r.Ok? <==> id in old(writer.db).accounts && old(writer.db).accounts[id].active && !Broken(failsAt, 1)
      ensures r.Ok? ==> writer.db == old(writer.db).(accounts :=
                          old(writer.db).accounts[id := old(writer.db).accounts[id].(active := false)])
      ensures r.Ok? ==> id in writer.db.accounts && !writer.db.accounts[id].active && Apply(writer.db, DeleteAccount(id)).Err?
      ensures SameMoney(old(writer.db), writer.db)
      ensures Consistent(old(writer.db)) ==> Consistent(writer.db)
    {
      hide Consistent;
      var db := writer.db;
      if Consistent(db) { StaysConsistent(db, DeleteAccount(id)); }
      if failsAt == 1 { return Err(StoreFailure); }
      if id !in db.accounts || !db.accounts[id].active { return Err(AccountNotFound); }
      writer.db := db.(accounts := db.accounts[id := db.accounts[id].(active := false)]);
      return Ok(());
    }
  }

  class CategoryRepository {
    const writer: Database

    constructor (writer: Database)
      ensures this.writer == writer
    {
      this.writer := writer;
    }

    /** A new category belongs to its user. */
    method Create(id: Id, owner: Id, typ: StatementType, name: string, failsAt: nat) returns (r: Result<()>)
      modifies writer
      ensures Outcome(old(writer.db), writer.db, Apply(old(writer.db), CreateCategory(id, owner, typ, name)), Broken(failsAt, 1), r)
      ensures r.Ok? <==> id !in old(writer.db).categories && !Broken(failsAt, 1)
      ensures r.Ok? ==> writer.db == old(writer.db).(categories := old(writer.db).categories[id := Category(Some(owner), typ, name, true)])
      ensures Consistent(old(writer.db)) ==> Consistent(writer.db)
    {
      hide Consistent;
      var db := writer.db;
      if Consistent(db) { StaysConsistent(db, CreateCategory(id, owner, typ, name)); }
      if failsAt == 1 { return Err(StoreFailure); }
      if id in db.categories { return Err(ConstraintViolation); }
      writer.db := db.(categories := db.categories[id := Category(Some(owner), typ, name, true)]);
      return Ok(());
    }

    /** Writes one name; the type, owner and existence of every category stay, and so does every other table. */
    method Update(id: Id, name: string, failsAt: nat) returns (r: Result<()>)
      modifies writer
      ensures Outcome(old(writer.db), writer.db, Apply(old(writer.db), RenameCategory(id, name)), Broken(failsAt, 1), r)
      ensures r.Ok? <==> LiveIn(old(writer.db), id) && !Broken(failsAt, 1)
      ensures r.Ok? ==> writer.db == old(writer.db).(categories :=
                          old(writer.db).categories[id := old(writer.db).categories[id].(name := name)])
      ensures SameKinds(old(writer.db), writer.db, {})
      ensures Consistent(old(writer.db)) ==> Consistent(writer.db)
    {
      hide Consistent;
      var db := writer.db;
      if Consistent(db) { StaysConsistent(db, RenameCategory(id, name)); }
      if failsAt == 1 { return Err(StoreFailure); }
      if !LiveCategory(db, id) { return Err(CategoryNotFound); }
      writer.db := db.(categories := db.categories[id := db.categories[id].(name := name)]);
      return Ok(());
    }

    /** ON DELETE RESTRICT: a deleted category is gone and on no statement; one that is in use stays. A category of
        a user can be deleted in a consistent database without making it inconsistent. */
    method Delete(id: Id, failsAt: nat) returns (r: Result<()>)
      modifies writer
      ensures Outcome(old(writer.db), writer.db, Apply(old(writer.db), DeleteCategory(id)), Broken(failsAt, 1), r)
      ensures r.Ok? <==> LiveIn(old(writer.db), id) && !InUse(old(writer.db), id) && !Broken(failsAt, 1)
      ensures r.Ok? ==> !LiveCategory(writer.db, id) && forall i :: 0 <= i < |writer.db.log| ==> writer.db.log[i].category != Some(id)
      ensures SameKinds(old(writer.db), writer.db, {id})
      ensures Consistent(old(writer.db)) && Suits(old(writer.db), DeleteCategory(id)) ==> Consistent(writer.db)
    {
      hide Consistent, Suits;
      var db := writer.db;
      if Consistent(db) && Suits(db, DeleteCategory(id)) { StaysConsistent(db, DeleteCategory(id)); }
      if failsAt == 1 { return Err(StoreFailure); }
      if !LiveCategory(db, id) { return Err(CategoryNotFound); }
      if exists i :: 0 <= i < |db.log| && db.log[i].category == Some(id) { return Err(CategoryInUse); }
      writer.db := db.(categories := db.categories[id := db.categories[id].(live := false)]);
      return Ok(());
    }
  }

  class TagRepository {
    const writer: Database

    constructor (writer: Database)
      ensures this.writer == writer
    {
      this.writer := writer;
    }

    /** A new tag belongs to its user. */
    method Create(id: Id, owner: Id, name: string, failsAt: nat) returns (r: Result<()>)
      modifies writer
      ensures Outcome(old(writer.db), writer.db, Apply(old(writer.db), CreateTag(id, owner, name)), Broken(failsAt, 1), r)
      ensures r.Ok? <==> id !in old(writer.db).tags && !Broken(failsAt, 1)
      ensures r.Ok? ==> writer.db == old(writer.db).(tags := old(writer.db).tags[id := Tag(Some(owner), name, true)])
      ensures Consistent(old(writer.db)) ==> Consistent(writer.db)
    {
      hide Consistent;
      var db := writer.db;
      if Consistent(db) { StaysConsistent(db, CreateTag(id, owner, name)); }
      if failsAt == 1 { return Err(StoreFailure); }
      if id in db.tags { return Err(ConstraintViolation); }
      writer.db := db.(tags := db.tags[id := Tag(Some(owner), name, true)]);
      return Ok(());
    }

    /** Writes one name. */
    method Update(id: Id, name: string, failsAt: nat) returns (r: Result<()>)
      modifies writer
      ensures Outcome(old(writer.db), writer.db, Apply(old(writer.db), RenameTag(id, name)), Broken(failsAt, 1), r)
      ensures r.Ok? <==> id in old(writer.db).tags && old(writer.db).tags[id].live && !Broken(failsAt, 1)
      ensures r.Ok? ==> writer.db == old(writer.db).(tags := old(writer.db).tags[id := old(writer.db).tags[id].(name := name)])
      ensures Consistent(old(writer.db)) ==> Consistent(writer.db)
    {
      hide Consistent;
      var db := writer.db;
      if Consistent(db) { StaysConsistent(db, RenameTag(id, name)); }
      if failsAt == 1 { return Err(StoreFailure); }
      if !LiveTag(db, id) { return Err(TagNotFound); }
      writer.db := db.(tags := db.tags[id := db.tags[id].(name := name)]);
      return Ok(());
    }

    /** ON DELETE CASCADE: a deleted tag is gone and on no statement; the other tags of each statement stay, and so
        does every accounting column. */
    method Delete(id: Id, failsAt: nat) returns (r: Result<()>)
      modifies writer
      ensures Outcome(old(writer.db), writer.db, Apply(old(writer.db), DeleteTag(id)), Broken(failsAt, 1), r)
      ensures r.Ok? <==> id in old(writer.db).tags && old(writer.db).tags[id].live && !Broken(failsAt, 1)
      ensures r.Ok? ==> writer.db == old(writer.db).(log := writer.db.log, tags :=
                          old(writer.db).tags[id := old(writer.db).tags[id].(live := false)])
      ensures r.Ok? ==> !LiveTag(writer.db, id) && forall i :: 0 <= i < |writer.db.log| ==> id !in writer.db.log[i].tags
      ensures SameBooks(old(writer.db).log, writer.db.log) && writer.db.accounts == old(writer.db).accounts
      ensures forall i, t :: 0 <= i < |writer.db.log| && t != id ==> (t in writer.db.log[i].tags <==> t in old(writer.db).log[i].tags)
      ensures Consistent(old(writer.db)) ==> Consistent(writer.db)
    {
      hide Consistent;
      var db := writer.db;
      if Consistent(db) { StaysConsistent(db, DeleteTag(id)); }
      if failsAt == 1 { return Err(StoreFailure); }
      if !LiveTag(db, id) { return Err(TagNotFound); }
      writer.db := db.(tags := db.tags[id := db.tags[id].(live := false)], log := WithoutTag(db.log, id));
      return Ok(());
    }
  }
}
