/**
 What the statement use cases answer and write, case by case, in terms of the tables alone: who may use an account,
 which rows may be inserted, and what the inserted row holds.
 */
module Answers {
  import opened Int64
  import opened Wrappers
  import opened Ledger
  import opened UseCases
  import opened Consistency
  import opened Import

  /* ---------- Who may do what ---------- */

  /** A default of the system or the user's own. */
  predicate Theirs(owner: Option<Id>, user: Id) {
    owner == None || owner == Some(user)
  }

  predicate SeesCategory(db: Db, category: Id, user: Id) {
    category in db.categories && db.categories[category].live && Theirs(db.categories[category].owner, user)
  }

  predicate SeesTag(db: Db, tag: Id, user: Id) {
    tag in db.tags && db.tags[tag].live && Theirs(db.tags[tag].owner, user)
  }

  /** The empty string asks for no category. */
  function Asked(category: Option<Id>): Option<Id> {
    if category == Some("") then None else category
  }

  predicate CategoryFits(db: Db, category: Option<Id>, user: Id, typ: StatementType) {
    Asked(category).Some? ==> SeesCategory(db, category.value, user) && db.categories[category.value].typ == typ
  }

  lemma CategoryAnswer(db: Db, category: Option<Id>, user: Id, typ: StatementType)
    ensures var r := ResolveCategory(db, category, user, typ);
            && (r.Ok? <==> CategoryFits(db, category, user, typ))
            && (r.Ok? ==> r.value == Asked(category))
            && (r.Err? ==> r.error == if SeesCategory(db, category.value, user) then CategoryTypeMismatch else CategoryNotVisible)
  {
  }

  predicate TagsFit(db: Db, tagIds: seq<Id>, user: Id) {
    |set t | t in tagIds| <= 10 && forall t :: t in tagIds ==> SeesTag(db, t, user)
  }

  lemma TagsAnswer(db: Db, tagIds: seq<Id>, user: Id)
    ensures var r := ResolveTags(db, tagIds, user);
            && (r.Ok? <==> TagsFit(db, tagIds, user))
            && (r.Ok? ==> r.value == set t | t in tagIds)
            && (r.Err? ==> r.error == if |set t | t in tagIds| > 10 then TagLimitExceeded else TagNotVisible)
  {
    ResolveTagsExact(db, tagIds, user);
  }

  /* ---------- Inserting one row ---------- */

  predicate RefersTo(log: seq<Statement>, id: Id) {
    exists i :: 0 <= i < |log| && log[i].reference == Some(id)
  }

  predicate HoldsExternal(log: seq<Statement>, account: Id, external: string) {
    exists i :: 0 <= i < |log| && log[i].account == account && log[i].external == Some(external)
  }

  /** What the tables ask of one more statement. */
  predicate Insertable(db: Db, s: Statement) {
    && s.account in db.accounts && s.amount > 0
    && !HasStatement(db.log, s.id)
    && (s.reference.Some? ==> HasStatement(db.log, s.reference.value) && !RefersTo(db.log, s.reference.value))
    && (s.external.Some? ==> |s.external.value| <= 255 && !HoldsExternal(db.log, s.account, s.external.value))
    && (s.category.Some? ==> s.category.value in db.categories && db.categories[s.category.value].live)
    && (forall t :: t in s.tags ==> t in db.tags && db.tags[t].live)
  }

  /** The balance after one statement in Go's int64. */
  function Moved(balance: int, s: Statement): int {
    if s.typ == Credit then Wrap(balance + s.amount) else Wrap(balance - s.amount)
  }

  /** The row appended with the new balance, and the balance updated; nothing else. */
  function WithRow(db: Db, s: Statement): Db
    requires s.account in db.accounts
  {
    var balance := Moved(db.accounts[s.account].balance, s);
    db.(accounts := db.accounts[s.account := db.accounts[s.account].(balance := balance)],
        log := db.log + [s.(balanceAfter := balance)])
  }

  lemma DistinctPlusOne(log: seq<Statement>, s: Statement)
    requires Distinct(log)
    ensures Distinct(log + [s]) <==> forall i :: 0 <= i < |log| ==> !Clash(log[i], s)
  {
    var all := log + [s];
    assert all[|log|] == s;
    assert forall i :: 0 <= i < |log| ==> all[i] == log[i];
  }

  lemma ClashMeans(log: seq<Statement>, s: Statement)
    ensures (forall i :: 0 <= i < |log| ==> !Clash(log[i], s))
            <==> && !HasStatement(log, s.id)
                 && (s.reference.Some? ==> !RefersTo(log, s.reference.value))
                 && (s.external.Some? ==> !HoldsExternal(log, s.account, s.external.value))
  {
  }

  lemma OneRowOk(db: Db, row: Statement)
    ensures RowsOk(db, [row]) && TagRowsOk(db, [row])
            <==> Distinct(db.log + [row]) && RowOk(db, row) && forall t :: t in row.tags ==> LiveTag(db, t)
  {
    hide Distinct, RowOk;
    assert forall r :: r in [row] <==> r == row;
    if RowsOk(db, [row]) && TagRowsOk(db, [row]) {
      assert row in [row];
      forall t | t in row.tags ensures LiveTag(db, t) { assert row in [row] && t in row.tags; }
    }
  }

  /** One statement is posted exactly when the tables allow it, and appends exactly its row. */
  lemma PostOne(db: Db, s: Statement)
    requires s.account in db.accounts
    ensures Distinct(db.log) ==> (Post(db, s.account, [s]).Ok? <==> Insertable(db, s))
    ensures Post(db, s.account, [s]).Ok? ==> Post(db, s.account, [s]).value == WithRow(db, s)
  {
    hide Wrap, Distinct, Clash;
    var balance := Moved(db.accounts[s.account].balance, s);
    var row := s.(balanceAfter := balance);
    assert [s][..0] == [];
    assert Rows(db.accounts[s.account].balance, [s]) == [row] && Final(db.accounts[s.account].balance, [s]) == balance;
    if Distinct(db.log) { DistinctPlusOne(db.log, row); }
    ClashMeans(db.log, row);
    OneRowOk(db, row);
    hide RowsOk, TagRowsOk, Rows, Final;
  }

  /* ---------- Create ---------- */

  predicate TypeNamed(typ: string) {
    typ == "credit" || typ == "debit"
  }

  function TypeOf(typ: string): StatementType {
    if typ == "credit" then Credit else Debit
  }

  /** What a create request asks for, and may. */
  predicate Creatable(db: Db, req: Request)
    requires req.Create?
  {
    && Usable(db, req.account, req.user)
    && TypeNamed(req.typ) && req.amount > 0
    && CategoryFits(db, req.category, db.accounts[req.account].owner, TypeOf(req.typ))
    && TagsFit(db, req.tagIds, db.accounts[req.account].owner)
  }

  /** The statement it asks for, before it has a balance. */
  function Created(req: Request): Statement
    requires req.Create?
  {
    Statement(req.id, req.account, TypeOf(req.typ), req.amount, req.description, None, None, 0,
              if req.postedAt.Some? then req.postedAt.value else req.now, req.now, Asked(req.category), set t | t in req.tagIds)
  }

  /** The first check that fails names the error. */
  function CreateError(db: Db, req: Request): Error
    requires req.Create? && !Creatable(db, req)
  {
    if !Open(db, req.account) then AccountNotFound
    else if !Usable(db, req.account, req.user) then StatementNotFound
    else if !TypeNamed(req.typ) then InvalidType
    else if req.amount <= 0 then InvalidAmount
    else
      var owner := db.accounts[req.account].owner;
      if !CategoryFits(db, req.category, owner, TypeOf(req.typ)) then
        if SeesCategory(db, req.category.value, owner) then CategoryTypeMismatch else CategoryNotVisible
      else if |set t | t in req.tagIds| > 10 then TagLimitExceeded
      else TagNotVisible
  }

  lemma CreateAnswer(db: Db, req: Request)
    requires req.Create?
    ensures PrepareCreate(Latest(db), req) == if Creatable(db, req) then Ok([Created(req)]) else Err(CreateError(db, req))
  {
    AccountAnswer(db, req.account, req.user);
    if Usable(db, req.account, req.user) && TypeNamed(req.typ) {
      CategoryAnswer(db, req.category, db.accounts[req.account].owner, TypeOf(req.typ));
      TagsAnswer(db, req.tagIds, db.accounts[req.account].owner);
    }
    hide Authorize, ResolveCategory, ResolveTags, Usable, Open, CategoryFits, TagsFit, SeesCategory;
  }

  /** Without a fault and with a new id, nothing the tables ask for can fail. */
  lemma CreatedInsertable(db: Db, req: Request)
    requires req.Create? && Creatable(db, req)
    ensures Insertable(db, Created(req)) <==> !HasStatement(db.log, req.id)
  {
  }

  /* ---------- Reverse ---------- */

  predicate OnAccount(db: Db, statement: Id, account: Id) {
    exists i :: 0 <= i < |db.log| && db.log[i].id == statement && db.log[i].account == account
  }

  predicate Reversible(db: Db, req: Request)
    requires req.Reverse?
  {
    && Usable(db, req.account, req.user)
    && OnAccount(db, req.statement, req.account)
    && !RefersTo(db.log, req.statement)
  }

  function ReverseError(db: Db, req: Request): Error
    requires req.Reverse? && !Reversible(db, req)
  {
    if !Open(db, req.account) then AccountNotFound
    else if !Usable(db, req.account, req.user) || !OnAccount(db, req.statement, req.account) then StatementNotFound
    else AlreadyReversed
  }

  /** s undoes o: equal amount, opposite type, the reference, the default category for returns, no tags. */
  predicate Undoes(req: Request, o: Statement, s: Statement)
    requires req.Reverse?
  {
    && s.id == req.id && s.account == req.account == o.account && o.id == req.statement
    && s.amount == o.amount && s.typ != o.typ
    && s.description == (if req.description == "" then "Reversal of statement " + req.statement else req.description)
    && s.reference == Some(req.statement) && s.external == None
    && s.category == Some(if s.typ == Credit then "00000000-0000-0000-0000-210000000006" else "00000000-0000-0000-0000-22000000000c")
    && s.tags == {} && s.postedAt == s.createdAt == req.now
  }

  lemma ReverseAnswer(db: Db, req: Request)
    requires req.Reverse? && Distinct(db.log)
    ensures var r := PrepareReverse(Latest(db), req);
            && (r.Ok? <==> Reversible(db, req))
            && (r.Err? ==> r.error == ReverseError(db, req))
            && (r.Ok? ==> |r.value| == 1 && exists i :: 0 <= i < |db.log| && Undoes(req, db.log[i], r.value[0]))
  {
    AccountAnswer(db, req.account, req.user);
    hide Authorize, Usable, Open;
    var found := FindStatement(db.log, req.statement);
    if found.Some? {
      var k :| 0 <= k < |db.log| && db.log[k] == found.value;
      forall i | 0 <= i < |db.log| && db.log[i].id == req.statement ensures i == k { UniqueById(db.log, i, k); }
    } else {
      assert !HasStatement(db.log, req.statement);
      assert forall i :: 0 <= i < |db.log| ==> db.log[i].id != req.statement;
    }
    assert HasReversal(db.log, req.statement) <==> RefersTo(db.log, req.statement);
  }

  lemma ReversalInsertable(db: Db, req: Request, i: nat, s: Statement)
    requires req.Reverse? && Consistent(db) && Reversible(db, req) && i < |db.log| && Undoes(req, db.log[i], s)
    ensures Insertable(db, s) <==> !HasStatement(db.log, req.id)
  {
    assert EstornoId(s.typ) in db.categories && db.categories[EstornoId(s.typ)].live;
    assert db.log[i].id == req.statement;
  }

  /* ---------- Category and tags of a statement ---------- */

  /** The row with that id; there is one at most. */
  ghost predicate IsRow(db: Db, statement: Id, i: int) {
    0 <= i < |db.log| && db.log[i].id == statement
  }

  lemma RowAnswer(db: Db, statement: Id, i: int)
    requires Distinct(db.log) && IsRow(db, statement, i)
    ensures FindStatement(db.log, statement) == Some(db.log[i])
  {
    assert HasStatement(db.log, statement);
    assert FindStatement(db.log, statement).value.id == statement;
    var k :| 0 <= k < |db.log| && db.log[k] == FindStatement(db.log, statement).value;
    UniqueById(db.log, i, k);
  }

  /** A category change: the statement is there, its account usable, and the category visible and of its type. */
  lemma RecategorizeAnswer(db: Db, user: Id, statement: Id, category: Option<Id>)
    requires Distinct(db.log)
    ensures var r := PrepareCategory(Latest(db), user, statement, category);
            && (!HasStatement(db.log, statement) ==> r == Err(StatementNotFound))
            && (forall i :: IsRow(db, statement, i) ==> r == RowRecategorized(db, user, db.log[i], category))
  {
    hide Authorize, ResolveCategory, Usable;
    forall i | IsRow(db, statement, i)
      ensures PrepareCategory(Latest(db), user, statement, category) == RowRecategorized(db, user, db.log[i], category)
    {
      RowAnswer(db, statement, i);
      AccountAnswer(db, db.log[i].account, user);
      if Usable(db, db.log[i].account, user) {
        UsableIsOpen(db, db.log[i].account, user);
        CategoryAnswer(db, category, db.accounts[db.log[i].account].owner, db.log[i].typ);
      }
    }
  }

  function RowRecategorized(db: Db, user: Id, row: Statement, category: Option<Id>): Result<Option<Id>> {
    if !Open(db, row.account) then Err(AccountNotFound)
    else if !Usable(db, row.account, user) then Err(StatementNotFound)
    else if CategoryFits(db, category, db.accounts[row.account].owner, row.typ) then Ok(Asked(category))
    else if SeesCategory(db, category.value, db.accounts[row.account].owner) then Err(CategoryTypeMismatch)
    else Err(CategoryNotVisible)
  }

  lemma UsableIsOpen(db: Db, account: Id, user: Id)
    requires Usable(db, account, user)
    ensures account in db.accounts
  {
  }

  /** A tag replacement: the statement is there, its account usable, and at most ten tags, all visible. */
  lemma RetagAnswer(db: Db, user: Id, statement: Id, tagIds: seq<Id>)
    requires Distinct(db.log)
    ensures var r := PrepareTags(Latest(db), user, statement, tagIds);
            && (!HasStatement(db.log, statement) ==> r == Err(StatementNotFound))
            && (forall i :: IsRow(db, statement, i) ==> r == RowRetagged(db, user, db.log[i], tagIds))
  {
    hide Authorize, ResolveTags, Usable;
    forall i | IsRow(db, statement, i) ensures PrepareTags(Latest(db), user, statement, tagIds) == RowRetagged(db, user, db.log[i], tagIds) {
      RowAnswer(db, statement, i);
      AccountAnswer(db, db.log[i].account, user);
      if Usable(db, db.log[i].account, user) {
        UsableIsOpen(db, db.log[i].account, user);
        TagsAnswer(db, tagIds, db.accounts[db.log[i].account].owner);
      }
    }
  }

  function RowRetagged(db: Db, user: Id, row: Statement, tagIds: seq<Id>): Result<set<Id>> {
    if !Open(db, row.account) then Err(AccountNotFound)
    else if !Usable(db, row.account, user) then Err(StatementNotFound)
    else if TagsFit(db, tagIds, db.accounts[row.account].owner) then Ok(set t | t in tagIds)
    else if |set t | t in tagIds| > 10 then Err(TagLimitExceeded)
    else Err(TagNotVisible)
  }

  /* ---------- Categories ---------- */

  predicate LiveIn(db: Db, category: Id) {
    category in db.categories && db.categories[category].live
  }

  predicate InUse(db: Db, category: Id) {
    exists i :: 0 <= i < |db.log| && db.log[i].category == Some(category)
  }

  /** Only a user's own category may be renamed or deleted; a default is read-only and another user's is hidden. */
  lemma OwnCategoryAnswer(db: Db, category: Id, user: Id)
    ensures OwnCategory(db, category, user) ==
            if !LiveIn(db, category) then Err(CategoryNotFound)
            else if db.categories[category].owner == None then Err(CategoryReadOnly)
            else if db.categories[category].owner == Some(user) then Ok(db.categories[category])
            else Err(CategoryNotFound)
  {
  }

  lemma DeleteCategoryAnswer(db: Db, category: Id, user: Id)
    ensures PrepareCategoryDelete(db, db, category, user).Ok?
            <==> LiveIn(db, category) && db.categories[category].owner == Some(user) && !InUse(db, category)
    ensures LiveIn(db, category) && db.categories[category].owner == Some(user) && InUse(db, category)
            ==> PrepareCategoryDelete(db, db, category, user) == Err(CategoryInUse)
  {
  }

  /* ---------- Import ---------- */

  /** The transaction is worth something and its FITID, if it has one, is not on the account yet. */
  predicate Fresh(db: Db, account: Id, txn: Transaction) {
    txn.amount != 0 && (txn.fitid == "" || !HoldsExternal(db.log, account, txn.fitid))
  }

  /** The positions of a file that an import turns into statements. */
  function Positions(db: Db, req: Request): set<nat>
    requires req.Import?
  {
    set k: nat | k < |req.transactions| && Fresh(db, req.account, req.transactions[k])
  }

  /** What an import needs: an account it may use, amounts with an int64 opposite, FITIDs that fit and do not repeat,
      and no more new rows than one INSERT can bind. */
  predicate Importable(db: Db, req: Request)
    requires req.Import?
  {
    && Usable(db, req.account, req.user)
    && (forall k :: k in Positions(db, req) ==> req.transactions[k].amount != -0x8000_0000_0000_0000 && |req.transactions[k].fitid| <= 255)
    && (forall k, l :: k in Positions(db, req) && l in Positions(db, req) && k != l && req.transactions[k].fitid != "" ==>
          req.transactions[k].fitid != req.transactions[l].fitid)
    && |Positions(db, req)| <= 5957
  }

  lemma SkippedMeans(db: Db, req: Request, k: nat)
    requires req.Import? && k < |req.transactions|
    ensures k in Positions(db, req) <==> !Skipped(Existing(db, req), req.transactions[k])
  {
    if req.transactions[k].fitid != "" { SkippedIsHeld(db.log, req.account, req.transactions, k); }
  }

  function Elements(p: seq<nat>): (s: set<nat>)
    ensures forall k :: k in s <==> k in p
  {
    if p == [] then {} else Elements(p[..|p| - 1]) + {p[|p| - 1]}
  }

  lemma {:induction false} IncreasingSize(p: seq<nat>)
    requires forall i, j :: 0 <= i < j < |p| ==> p[i] < p[j]
    ensures |Elements(p)| == |p|
  {
    if p != [] {
      var front, last := p[..|p| - 1], p[|p| - 1];
      IncreasingSize(front);
      assert forall k :: k in front ==> k < last;
    }
  }

  lemma PickedIsPositions(db: Db, req: Request)
    requires req.Import?
    ensures var p := Picked(Existing(db, req), req.transactions);
            (forall k :: k in p <==> k in Positions(db, req)) && |p| == |Positions(db, req)|
  {
    hide Skipped, Existing, Fresh;
    var p := Picked(Existing(db, req), req.transactions);
    forall k: nat | k < |req.transactions| ensures k in p <==> k in Positions(db, req) { SkippedMeans(db, req, k); }
    IncreasingSize(p);
    assert Elements(p) == Positions(db, req);
  }

  /** An import with new ids succeeds exactly then, and a failed one writes nothing. */
  lemma ImportAnswer(db: Db, req: Request)
    requires req.Import? && WellFormed(req) && InRangeFile(req.transactions)
    requires Distinct(db.log) && FreshIds(db.log, req.ids)
    ensures ImportFile(db, req).result.Ok? <==> Importable(db, req)
    ensures ImportFile(db, req).result.Err? ==> ImportFile(db, req).db == db
  {
    hide Skipped, Existing, Fresh, Picked, Usable, FreshIds, InRangeFile, Distinct, ImportFile;
    ImportSucceedsIff(db, req);
    PickedIsPositions(db, req);
    forall k: nat | k < |req.transactions| ensures k in Positions(db, req) <==> !Skipped(Existing(db, req), req.transactions[k]) {
      SkippedMeans(db, req, k);
    }
  }

  /** Row i of the new ones: the transaction at that position, with the balance moved by its amount. */
  predicate RowFor(req: Request, k: nat, before: int, row: Statement)
    requires req.Import? && WellFormed(req) && k < |req.transactions|
  {
    var txn := req.transactions[k];
    row == Statement(req.ids[k], req.account, if txn.amount > 0 then Credit else Debit, if txn.amount > 0 then txn.amount else -txn.amount,
                     txn.description, None, if txn.fitid != "" then Some(txn.fitid) else None, Wrap(before + txn.amount),
                     txn.postedAt, req.now, None, {})
  }

  /** after is db with exactly one row for each of these positions, in file order, and the balance they lead to. */
  ghost predicate Appended(db: Db, after: Db, req: Request, p: seq<nat>)
    requires req.Import? && WellFormed(req)
  {
    && (forall i, j :: 0 <= i < j < |p| ==> p[i] < p[j])
    && (forall k :: k in p <==> k in Positions(db, req))
    && req.account in db.accounts
    && |after.log| == |db.log| + |p| && after.log[..|db.log|] == db.log
    && (forall i :: 0 <= i < |p| ==>
          && p[i] < |req.transactions|
          && RowFor(req, p[i], Before(db.accounts[req.account].balance, after.log[|db.log|..], i), after.log[|db.log|..][i]))
    && var balance := Before(db.accounts[req.account].balance, after.log[|db.log|..], |p|);
       after == db.(accounts := db.accounts[req.account := db.accounts[req.account].(balance := balance)], log := after.log)
  }

  lemma {:induction false} RowsPrefix(b: int, batch: seq<Statement>, i: nat)
    requires i <= |batch|
    ensures Rows(b, batch)[..i] == Rows(b, batch[..i])
    decreases |batch|
  {
    hide Wrap, Final;
    if i < |batch| {
      var n := |batch| - 1;
      RowsPrefix(b, batch[..n], i);
      assert batch[..n][..i] == batch[..i];
      assert Rows(b, batch)[..n] == Rows(b, batch[..n]);
      assert Rows(b, batch)[..i] == Rows(b, batch)[..n][..i];
    } else {
      assert batch[..i] == batch;
    }
  }

  lemma FinalIsLast(b: int, batch: seq<Statement>)
    ensures Final(b, batch) == if batch == [] then b else Rows(b, batch)[|batch| - 1].balanceAfter
  {
  }

  /** The balance before row i of a batch. */
  function Before(b: int, rows: seq<Statement>, i: nat): int
    requires i <= |rows|
  {
    if i == 0 then b else rows[i - 1].balanceAfter
  }

  /** Each balance_after continues the one before. */
  lemma RowContinues(b: int, batch: seq<Statement>, i: nat)
    requires i < |batch|
    ensures Rows(b, batch)[i] == batch[i].(balanceAfter := Wrap(Before(b, Rows(b, batch), i) + batch[i].Signed()))
  {
    hide Wrap;
    var rows := Rows(b, batch);
    RowsPrefix(b, batch, i + 1);
    RowsPrefix(b, batch, i);
    FinalIsLast(b, batch[..i]);
    var upTo := batch[..i + 1];
    assert upTo[..i] == batch[..i] && upTo[i] == batch[i];
    assert rows[i] == Rows(b, upTo)[i];
    if i > 0 { assert rows[i - 1] == Rows(b, batch[..i])[i - 1]; }
  }

  lemma DraftIsRow(req: Request, k: nat, draft: Statement, before: int)
    requires req.Import? && WellFormed(req) && InRangeFile(req.transactions) && k < |req.transactions|
    requires RowOfTransaction(req, k, draft)
    ensures RowFor(req, k, before, draft.(balanceAfter := Wrap(before + draft.Signed())))
  {
    hide Wrap;
  }

  /** What a posting leaves, with the rows in order and the balance they lead to. */
  lemma PostAppends(db: Db, account: Id, batch: seq<Statement>)
    requires Post(db, account, batch).Ok? && account in db.accounts
    ensures var b := db.accounts[account].balance;
            var rows := Rows(b, batch);
            Post(db, account, batch).value
            == db.(accounts := db.accounts[account := db.accounts[account].(balance := Before(b, rows, |rows|))], log := db.log + rows)
  {
    hide Wrap, RowsOk, TagRowsOk;
    FinalIsLast(db.accounts[account].balance, batch);
    if batch == [] {
      assert db.log + [] == db.log;
      assert db.accounts[account := db.accounts[account]] == db.accounts;
    }
  }

  lemma ImportPosts(db: Db, req: Request)
    requires req.Import? && WellFormed(req) && ImportFile(db, req).result.Ok?
    ensures Usable(db, req.account, req.user) && req.account in db.accounts && PrepareImport(Latest(db), req).Ok?
    ensures Post(db, req.account, PrepareImport(Latest(db), req).value) == Ok(ImportFile(db, req).db)
    ensures ImportFile(db, req).result.value
            == Summary(|req.transactions|, |PrepareImport(Latest(db), req).value|, CountSkipped(Existing(db, req), req.transactions))
  {
    hide Post, ImportDrafts, ExistingIds, CountSkipped;
    AccountAnswer(db, req.account, req.user);
  }

  lemma AppendedRows(db: Db, after: Db, req: Request, p: seq<nat>, drafts: seq<Statement>)
    requires req.Import? && WellFormed(req) && InRangeFile(req.transactions) && req.account in db.accounts
    requires Imported(req, p, drafts) && forall k :: k in p <==> k in Positions(db, req)
    requires Post(db, req.account, drafts) == Ok(after)
    ensures Appended(db, after, req, p)
  {
    hide Wrap, Rows, Positions, Post, RowOfTransaction, RowFor;
    PostAppends(db, req.account, drafts);
    var b := db.accounts[req.account].balance;
    var rows := Rows(b, drafts);
    assert after.log == db.log + rows;
    assert after.log[|db.log|..] == rows;
    forall i | 0 <= i < |p| ensures RowFor(req, p[i], Before(b, rows, i), rows[i]) {
      RowContinues(b, drafts, i);
      DraftIsRow(req, p[i], drafts[i], Before(b, rows, i));
    }
  }

  predicate Counted(req: Request, p: seq<nat>, summary: Summary)
    requires req.Import?
  {
    summary.total == |req.transactions| && summary.created == |p| && summary.created + summary.skipped == summary.total
  }

  /** What a successful import leaves: one row for each new transaction, all its columns from the file. */
  lemma ImportAppends(db: Db, req: Request) returns (p: seq<nat>)
    requires req.Import? && WellFormed(req) && InRangeFile(req.transactions)
    requires ImportFile(db, req).result.Ok?
    ensures Appended(db, ImportFile(db, req).db, req, p)
    ensures Counted(req, p, ImportFile(db, req).result.value)
  {
    hide Existing, Positions, ImportFile, PrepareImport, Post, Usable, Appended, Imported;
    p := Picked(Existing(db, req), req.transactions);
    ImportPosts(db, req);
    DraftsAreImported(db, req);
    PickedIsPositions(db, req);
    DraftsCount(db, req);
    AppendedRows(db, ImportFile(db, req).db, req, p, PrepareImport(Latest(db), req).value);
  }

  lemma DraftsCount(db: Db, req: Request)
    requires req.Import? && WellFormed(req) && PrepareImport(Latest(db), req).Ok?
    ensures |PrepareImport(Latest(db), req).value| == |Picked(Existing(db, req), req.transactions)|
  {
    hide RowOfTransaction, Picked, Existing, PrepareImport;
    DraftsAreImported(db, req);
  }

  /* ---------- Create and Reverse as wholes ---------- */

  /** A credit adds, a debit takes away; every requested column is on the row; nothing else changes. */
  ghost predicate CreatedAs(db: Db, after: Db, req: Request, row: Statement)
    requires req.Create?
  {
    && req.account in db.accounts && (req.typ == "credit" || req.typ == "debit")
    && var balance := if req.typ == "credit" then Wrap(db.accounts[req.account].balance + req.amount)
                      else Wrap(db.accounts[req.account].balance - req.amount);
       && row.typ == (if req.typ == "credit" then Credit else Debit)
       && row.id == req.id && row.account == req.account && row.amount == req.amount && row.description == req.description
       && row.postedAt == (if req.postedAt.Some? then req.postedAt.value else req.now) && row.createdAt == req.now
       && row.category == (if req.category == Some("") then None else req.category)
       && row.tags == (set t | t in req.tagIds)
       && row.reference == None && row.external == None && row.balanceAfter == balance
       && after == db.(accounts := db.accounts[req.account := db.accounts[req.account].(balance := balance)], log := db.log + [row])
  }

  lemma CreatedMeans(db: Db, req: Request)
    requires req.Create? && Creatable(db, req)
    ensures Open(db, req.account) && req.account in db.accounts
    ensures var after := WithRow(db, Created(req));
            CreatedAs(db, after, req, Created(req).(balanceAfter := after.accounts[req.account].balance))
  {
    hide Wrap, CategoryFits, TagsFit;
  }

  /** What posting a created statement leaves, and when it is possible. */
  lemma CreatePosts(db: Db, req: Request, after: Db, row: Statement)
    requires req.Create? && Creatable(db, req)
    requires after.log == db.log + [row]
    ensures Post(db, req.account, [Created(req)]) == Ok(after) ==> CreatedAs(db, after, req, row)
  {
    hide Creatable, Created, Post, CreatedAs;
    CreatedMeans(db, req);
    CreatedOn(req);
    PostOne(db, Created(req));
    var posted := WithRow(db, Created(req));
    assert posted.log[|db.log|] == Created(req).(balanceAfter := posted.accounts[req.account].balance);
    assert after.log[|db.log|] == row;
  }

  lemma CreatedOn(req: Request)
    requires req.Create?
    ensures Created(req).account == req.account
  {
  }

  lemma CreateAlwaysPosts(db: Db, req: Request)
    requires req.Create? && Creatable(db, req) && Distinct(db.log) && !HasStatement(db.log, req.id)
    ensures Post(db, req.account, [Created(req)]).Ok?
  {
    hide Creatable, Created, Post, Insertable, Distinct;
    CreatedMeans(db, req);
    CreatedOn(req);
    PostOne(db, Created(req));
    CreatedInsertable(db, req);
  }

  /** The row undoes a statement of the log, and only it and the balance are new. */
  ghost predicate ReversedAs(db: Db, after: Db, req: Request, row: Statement)
    requires req.Reverse?
  {
    && req.account in db.accounts
    && (exists i :: 0 <= i < |db.log| && Undoes(req, db.log[i], row))
    && row.balanceAfter == (if row.typ == Credit then Wrap(db.accounts[req.account].balance + row.amount)
                            else Wrap(db.accounts[req.account].balance - row.amount))
    && after == db.(accounts := db.accounts[req.account := db.accounts[req.account].(balance := row.balanceAfter)], log := db.log + [row])
  }

  lemma ReversePosts(db: Db, req: Request, draft: Statement, after: Db, row: Statement)
    requires req.Reverse? && Reversible(db, req) && exists i :: 0 <= i < |db.log| && Undoes(req, db.log[i], draft)
    requires after.log == db.log + [row]
    ensures Post(db, req.account, [draft]) == Ok(after) ==> ReversedAs(db, after, req, row)
  {
    hide Post, Wrap;
    var i :| 0 <= i < |db.log| && Undoes(req, db.log[i], draft);
    PostOne(db, draft);
    if Post(db, req.account, [draft]) == Ok(after) {
      assert after.log[|db.log|] == row;
      assert Undoes(req, db.log[i], row);
    }
  }

  lemma ReverseAlwaysPosts(db: Db, req: Request, draft: Statement)
    requires req.Reverse? && Reversible(db, req) && exists i :: 0 <= i < |db.log| && Undoes(req, db.log[i], draft)
    requires Consistent(db) && !HasStatement(db.log, req.id)
    ensures Post(db, req.account, [draft]).Ok?
  {
    hide Post, Insertable, Reversible;
    var i :| 0 <= i < |db.log| && Undoes(req, db.log[i], draft);
    ReversibleHas(db, req);
    PostOne(db, draft);
    ReversalInsertable(db, req, i, draft);
  }

  lemma ReversibleHas(db: Db, req: Request)
    requires req.Reverse? && Reversible(db, req)
    ensures req.account in db.accounts
  {
  }
}
