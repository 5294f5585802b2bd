/**
 The committed database behind the wallet: accounts, the append-only statement
 table in commit order, categories and tags, and the effect of one committed
 transaction on it. Table constraints come from the migrations.
 */
module Ledger {
  import opened Int64
  import opened Wrappers

  type Id = string

  datatype Error =
    | AccountNotFound | AccountNotActive | StatementNotFound | AlreadyReversed
    | InvalidType | InvalidAmount | ConstraintViolation
    | CategoryNotFound | CategoryNotVisible | CategoryTypeMismatch | CategoryReadOnly | CategoryInUse
    | TagNotFound | TagNotVisible | TagLimitExceeded
    | StoreFailure

  datatype Result<+T> = Ok(value: T) | Err(error: Error)

  datatype StatementType = Credit | Debit {
    function Opposite(): StatementType {
      if Credit? then Debit else Credit
    }
  }

  /** A row of the statements table; the tags are its rows in statement_tags. */
  datatype Statement = Statement(
    id: Id,
    account: Id,
    typ: StatementType,
    amount: int,
    description: string,
    reference: Option<Id>,
    external: Option<string>,
    balanceAfter: int,
    postedAt: int,
    createdAt: int,
    category: Option<Id>,
    tags: set<Id>)
  {
    function Signed(): int {
      if typ.Credit? then amount else -amount
    }
  }

  datatype Account = Account(owner: Id, balance: int, active: bool, name: string)

  /** A deleted category or tag stays as a dead entry: a UUID is never handed out again. */
  datatype Category = Category(owner: Option<Id>, typ: StatementType, name: string, live: bool)
  datatype Tag = Tag(owner: Option<Id>, name: string, live: bool)

  datatype Db = Db(
    accounts: map<Id, Account>,
    log: seq<Statement>,
    categories: map<Id, Category>,
    tags: map<Id, Tag>)

  /* ---------- Constraints ---------- */

  /** Two rows that the primary key or one of the two partial unique indexes cannot both hold. */
  predicate Clash(a: Statement, b: Statement) {
    || a.id == b.id
    || (a.reference.Some? && a.reference == b.reference)
    || (a.account == b.account && a.external.Some? && a.external == b.external)
  }

  predicate Distinct(rows: seq<Statement>) {
    forall i, j :: 0 <= i < j < |rows| ==> !Clash(rows[i], rows[j])
  }

  predicate HasStatement(log: seq<Statement>, id: Id) {
    exists i :: 0 <= i < |log| && log[i].id == id
  }

  predicate LiveCategory(db: Db, c: Id) {
    c in db.categories && db.categories[c].live
  }

  predicate LiveTag(db: Db, t: Id) {
    t in db.tags && db.tags[t].live
  }

  /** external_id is a VARCHAR(255). FITIDs arrive trimmed, so there are no spaces at the end that PostgreSQL
      would cut off. */
  const MAX_EXTERNAL: nat := 255

  /** An INSERT binds 11 columns a row, and one SQL statement at most 65535 parameters. */
  const COLUMNS: nat := 11
  const MAX_PARAMETERS: nat := 65535
  const MAX_BATCH: nat := MAX_PARAMETERS / COLUMNS

  /** Column, CHECK and foreign-key constraints of one statements row. */
  predicate RowOk(db: Db, r: Statement) {
    && r.account in db.accounts
    && r.amount > 0
    && (r.external.Some? ==> |r.external.value| <= MAX_EXTERNAL)
    && (r.reference.Some? ==> HasStatement(db.log, r.reference.value))
    && (r.category.Some? ==> LiveCategory(db, r.category.value))
  }

  predicate RowsOk(db: Db, rows: seq<Statement>) {
    && Distinct(db.log + rows)
    && (forall r :: r in rows ==> RowOk(db, r))
  }

  /** Foreign keys of the statement_tags rows. */
  predicate TagRowsOk(db: Db, rows: seq<Statement>) {
    forall r, t :: r in rows && t in r.tags ==> LiveTag(db, t)
  }

  /* ---------- Posting statements ---------- */

  /** The rows written for a batch that starts from balance b. */
  function Rows(b: int, batch: seq<Statement>): (rows: seq<Statement>)
    ensures |rows| == |batch|
    ensures forall i :: 0 <= i < |rows| ==> rows[i] == batch[i].(balanceAfter := rows[i].balanceAfter)
  {
    if batch == [] then []
    else
      var front := batch[..|batch| - 1];
      var last := batch[|batch| - 1];
      Rows(b, front) + [last.(balanceAfter := Wrap(Final(b, front) + last.Signed()))]
  }

  /** The account balance after the batch. */
  function Final(b: int, batch: seq<Statement>): int
  {
    if batch == [] then b
    else Wrap(Final(b, batch[..|batch| - 1]) + batch[|batch| - 1].Signed())
  }

  function Settle(db: Db, account: Id, rows: seq<Statement>, balance: int): Db
    requires account in db.accounts
  {
    db.(accounts := db.accounts[account := db.accounts[account].(balance := balance)],
        log := db.log + rows)
  }

  function Post(db: Db, account: Id, batch: seq<Statement>): Result<Db> {
    if batch == [] then Ok(db)
    else if account !in db.accounts then Err(AccountNotFound)
    else if |batch| > MAX_BATCH then Err(StoreFailure)
    else
      var b := db.accounts[account].balance;
      var rows := Rows(b, batch);
      if !RowsOk(db, rows) || !TagRowsOk(db, rows) then Err(ConstraintViolation)
      else Ok(Settle(db, account, rows, Final(b, batch)))
  }

  /* ---------- Statement metadata ---------- */

  function WithCategory(log: seq<Statement>, id: Id, category: Option<Id>): (r: seq<Statement>)
    ensures |r| == |log|
  {
    seq(|log|, i requires 0 <= i < |log| => if log[i].id == id then log[i].(category := category) else log[i])
  }

  function WithTags(log: seq<Statement>, id: Id, removed: set<Id>, added: set<Id>): (r: seq<Statement>)
    ensures |r| == |log|
  {
    seq(|log|, i requires 0 <= i < |log| =>
      if log[i].id == id then log[i].(tags := log[i].tags - removed + added) else log[i])
  }

  function WithoutTag(log: seq<Statement>, tag: Id): (r: seq<Statement>)
    ensures |r| == |log|
  {
    seq(|log|, i requires 0 <= i < |log| => log[i].(tags := log[i].tags - {tag}))
  }

  /* ---------- Committed operations ---------- */

  datatype Op =
    | PostStatements(account: Id, batch: seq<Statement>)
    | CreateAccount(id: Id, owner: Id, name: string)
    | UpdateAccount(id: Id, name: string, active: bool)
    | DeleteAccount(id: Id)
    | SetCategory(statement: Id, category: Option<Id>)
      // ReplaceTags: the rows its DELETE removed and the rows its INSERT added
    | EditTags(statement: Id, removed: set<Id>, added: set<Id>)
    | CreateCategory(id: Id, owner: Id, typ: StatementType, name: string)
    | RenameCategory(id: Id, name: string)
    | DeleteCategory(id: Id)
    | CreateTag(id: Id, owner: Id, name: string)
    | RenameTag(id: Id, name: string)
    | DeleteTag(id: Id)

  /** The committed effect of one operation; an Err leaves the database as it was. */
  function Apply(db: Db, op: Op): Result<Db> {
    match op
    case PostStatements(account, batch) => Post(db, account, batch)
    case CreateAccount(id, owner, name) =>
      if id in db.accounts then Err(ConstraintViolation)
      else Ok(db.(accounts := db.accounts[id := Account(owner, 0, true, name)]))
    case UpdateAccount(id, name, active) =>
      if id !in db.accounts then Err(AccountNotFound)
      else Ok(db.(accounts := db.accounts[id := db.accounts[id].(name := name, active := active)]))
    case DeleteAccount(id) =>
      if id !in db.accounts || !db.accounts[id].active then Err(AccountNotFound)
      else Ok(db.(accounts := db.accounts[id := db.accounts[id].(active := false)]))
    case SetCategory(statement, category) =>
      if category.Some? && !LiveCategory(db, category.value) then Err(StatementNotFound)
      else if !HasStatement(db.log, statement) then Err(StatementNotFound)
      else Ok(db.(log := WithCategory(db.log, statement, category)))
    case EditTags(statement, removed, added) =>
      if !HasStatement(db.log, statement) then Err(StatementNotFound)
      else if exists t :: t in added && !LiveTag(db, t) then Err(ConstraintViolation)
      else if exists i :: 0 <= i < |db.log| && db.log[i].id == statement && (db.log[i].tags - removed) * added != {} then
        Err(ConstraintViolation) // primary key (statement_id, tag_id)
      else Ok(db.(log := WithTags(db.log, statement, removed, added)))
    case CreateCategory(id, owner, typ, name) =>
      if id in db.categories then Err(ConstraintViolation)
      else Ok(db.(categories := db.categories[id := Category(Some(owner), typ, name, true)]))
    case RenameCategory(id, name) =>
      if !LiveCategory(db, id) then Err(CategoryNotFound)
      else Ok(db.(categories := db.categories[id := db.categories[id].(name := name)]))
    case DeleteCategory(id) =>
      if !LiveCategory(db, id) then Err(CategoryNotFound)
      else if exists i :: 0 <= i < |db.log| && db.log[i].category == Some(id) then Err(CategoryInUse)
      else Ok(db.(categories := db.categories[id := db.categories[id].(live := false)]))
    case CreateTag(id, owner, name) =>
      if id in db.tags then Err(ConstraintViolation)
      else Ok(db.(tags := db.tags[id := Tag(Some(owner), name, true)]))
    case RenameTag(id, name) =>
      if !LiveTag(db, id) then Err(TagNotFound)
      else Ok(db.(tags := db.tags[id := db.tags[id].(name := name)]))
    case DeleteTag(id) =>
      if !LiveTag(db, id) then Err(TagNotFound)
      else Ok(db.(tags := db.tags[id := db.tags[id].(live := false)], log := WithoutTag(db.log, id)))
  }

  /** The database after a history of operations, each of which committed. */
  ghost function Replay(db: Db, history: seq<Op>): Result<Db> {
    if history == [] then Ok(db)
    else
      var before := Replay(db, history[..|history| - 1]);
      if before.Err? then before else Apply(before.value, history[|history| - 1])
  }

  /* ---------- What never changes ---------- */

  /** Equal in every accounting column; category and tags may differ. */
  predicate SameAccounting(a: Statement, b: Statement) {
    a.(category := b.category, tags := b.tags) == b
  }

  ghost predicate SameBooks(a: seq<Statement>, b: seq<Statement>) {
    |a| == |b| && forall i :: 0 <= i < |a| ==> SameAccounting(a[i], b[i])
  }

  /** after is a later state of the database than before. */
  ghost predicate Extends(before: Db, after: Db) {
    && (forall a :: a in before.accounts ==> a in after.accounts && after.accounts[a].owner == before.accounts[a].owner)
    && (forall c :: c in before.categories ==>
          c in after.categories && after.categories[c].owner == before.categories[c].owner && after.categories[c].typ == before.categories[c].typ)
    && (forall t :: t in before.tags ==> t in after.tags && after.tags[t].owner == before.tags[t].owner)
    && |before.log| <= |after.log|
    && SameBooks(before.log, after.log[..|before.log|])
  }

  lemma ApplyExtends(db: Db, op: Op)
    requires Apply(db, op).Ok?
    ensures Extends(db, Apply(db, op).value)
  {
    var next := Apply(db, op).value;
    assert next.log[..|db.log|] == if op.PostStatements? then db.log else next.log;
  }

  lemma ExtendsTransitive(a: Db, b: Db, c: Db)
    requires Extends(a, b) && Extends(b, c)
    ensures Extends(a, c)
  {
    forall i | 0 <= i < |a.log| ensures SameAccounting(a.log[i], c.log[i]) {
      assert b.log[..|a.log|][i] == b.log[i];
      assert c.log[..|b.log|][i] == c.log[i];
    }
  }

  /** No committed operation but a posting touches an accounting column, a balance or the row count. */
  lemma MetadataKeepsBooks(db: Db, op: Op)
    requires !op.PostStatements?
    requires Apply(db, op).Ok?
    ensures SameBooks(db.log, Apply(db, op).value.log)
    ensures forall a :: a in db.accounts ==>
              a in Apply(db, op).value.accounts && Apply(db, op).value.accounts[a].balance == db.accounts[a].balance
  {
  }
}
