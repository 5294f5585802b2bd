/**
 The invariant of the committed database, and why every operation that a use
 case hands over keeps it, however old the data was that the use case looked at.
 */
module Consistency {
  import opened Wrappers
  import opened Ledger
  import opened Accounting
  import opened UseCases

  /* ---------- The invariant ---------- */

  /** r is the reversal of o: same account, same amount, opposite direction. */
  predicate Reverses(r: Statement, o: Statement) {
    && r.reference == Some(o.id)
    && r.account == o.account
    && r.amount == o.amount
    && r.typ == o.typ.Opposite()
  }

  ghost predicate HasOrigin(log: seq<Statement>, i: nat)
    requires i < |log|
  {
    log[i].reference.Some? ==> exists j :: 0 <= j < i && Reverses(log[i], log[j])
  }

  ghost predicate ReversalsSound(log: seq<Statement>) {
    forall i :: 0 <= i < |log| ==> HasOrigin(log, i)
  }

  /** Category c may classify statements of this type on this account. */
  ghost predicate CategorySuits(db: Db, c: Id, account: Id, typ: StatementType) {
    && c in db.categories
    && account in db.accounts
    && db.categories[c].typ == typ
    && Visible(db.categories[c].owner, db.accounts[account].owner)
  }

  ghost predicate TagSuits(db: Db, t: Id, account: Id) {
    && t in db.tags
    && account in db.accounts
    && Visible(db.tags[t].owner, db.accounts[account].owner)
  }

  ghost predicate CategoriesSound(db: Db) {
    forall i :: 0 <= i < |db.log| && db.log[i].category.Some? ==>
      LiveCategory(db, db.log[i].category.value) && CategorySuits(db, db.log[i].category.value, db.log[i].account, db.log[i].typ)
  }

  ghost predicate TagsSound(db: Db) {
    forall i, t :: 0 <= i < |db.log| && t in db.log[i].tags ==> LiveTag(db, t) && TagSuits(db, t, db.log[i].account)
  }

  /** The migration's two Estorno defaults. */
  ghost predicate Seeded(db: Db) {
    forall typ :: EstornoId(typ) in db.categories
                  && db.categories[EstornoId(typ)].owner.None? && db.categories[EstornoId(typ)].typ == typ
                  && db.categories[EstornoId(typ)].live
  }

  ghost predicate Consistent(db: Db) {
    && Distinct(db.log)
    && BooksHold(db)
    && (forall i :: 0 <= i < |db.log| ==> db.log[i].amount > 0)
    && ReversalsSound(db.log)
    && CategoriesSound(db)
    && TagsSound(db)
    && Seeded(db)
  }

  ghost predicate TagsCapped(db: Db) {
    forall i :: 0 <= i < |db.log| ==> |db.log[i].tags| <= MAX_TAGS
  }

  /* ---------- What a use case may hand over ---------- */

  ghost predicate DraftSuits(db: Db, account: Id, d: Statement) {
    && d.account == account
    && account in db.accounts
    && (d.category.Some? ==> CategorySuits(db, d.category.value, account, d.typ))
    && (forall t :: t in d.tags ==> TagSuits(db, t, account))
    && |d.tags| <= MAX_TAGS
    && (d.reference.Some? ==> exists j :: 0 <= j < |db.log| && Reverses(d, db.log[j]))
  }

  ghost predicate Suits(db: Db, op: Op) {
    match op
    case PostStatements(account, batch) => forall d :: d in batch ==> DraftSuits(db, account, d)
    case SetCategory(statement, category) =>
      category.Some? ==> forall i :: 0 <= i < |db.log| && db.log[i].id == statement ==>
        CategorySuits(db, category.value, db.log[i].account, db.log[i].typ)
    case EditTags(statement, removed, added) =>
      |added| <= MAX_TAGS
      && forall i, t :: 0 <= i < |db.log| && db.log[i].id == statement && t in added ==> TagSuits(db, t, db.log[i].account)
    case DeleteCategory(id) => id in db.categories ==> db.categories[id].owner.Some?
    case _ => true
  }

  /* ---------- Facts survive later commits ---------- */

  lemma DraftSuitsLater(db: Db, later: Db, account: Id, d: Statement)
    requires Extends(db, later) && DraftSuits(db, account, d)
    ensures DraftSuits(later, account, d)
  {
    if d.reference.Some? {
      var j :| 0 <= j < |db.log| && Reverses(d, db.log[j]);
      assert SameAccounting(db.log[j], later.log[..|db.log|][j]);
      assert Reverses(d, later.log[j]);
    }
  }

  lemma UniqueById(log: seq<Statement>, i: nat, j: nat)
    requires Distinct(log) && i < |log| && j < |log| && log[i].id == log[j].id
    ensures i == j
  {
    if i < j { assert Clash(log[i], log[j]); }
    if j < i { assert Clash(log[j], log[i]); }
  }

  /** The row a snapshot showed is, in its accounting columns, the row of that id today. */
  lemma FoundStays(db: Db, later: Db, id: Id, i: nat)
    requires Extends(db, later) && Distinct(later.log)
    requires HasStatement(db.log, id)
    requires i < |later.log| && later.log[i].id == id
    ensures i < |db.log| && SameAccounting(db.log[i], later.log[i])
  {
    var k :| 0 <= k < |db.log| && db.log[k].id == id;
    assert SameAccounting(db.log[k], later.log[..|db.log|][k]);
    UniqueById(later.log, i, k);
  }

  lemma EditTagsSuitsLater(db: Db, later: Db, op: Op)
    requires op.EditTags? && HasStatement(db.log, op.statement)
    requires Extends(db, later) && Distinct(later.log) && Suits(db, op)
    ensures Suits(later, op)
  {
    forall i, t | 0 <= i < |later.log| && later.log[i].id == op.statement && t in op.added
      ensures TagSuits(later, t, later.log[i].account)
    {
      FoundStays(db, later, op.statement, i);
      assert TagSuits(db, t, db.log[i].account);
    }
  }

  /** Each snapshot is an earlier state of db. */
  ghost predicate Past(seen: Snapshots, db: Db) {
    && Extends(seen.accounts, db) && Extends(seen.statements, db) && Extends(seen.categories, db)
    && Extends(seen.tags, db) && Extends(seen.writer, db)
  }

  lemma {:induction false} ImportDraftsPlain(existing: set<string>, account: Id, txns: seq<Transaction>, ids: seq<Id>, now: int)
    requires |txns| <= |ids|
    requires ImportDrafts(existing, account, txns, ids, now).Ok?
    ensures forall d :: d in ImportDrafts(existing, account, txns, ids, now).value ==>
              d.account == account && d.category.None? && d.tags == {} && d.reference.None?
  {
    if txns != [] { ImportDraftsPlain(existing, account, txns[..|txns| - 1], ids, now); }
  }

  lemma PrepareCreateSuits(seen: Snapshots, req: Request, db: Db)
    requires req.Create? && Past(seen, db) && PrepareCreate(seen, req).Ok?
    ensures Suits(db, PostStatements(req.account, PrepareCreate(seen, req).value))
  {
    ResolveTagsExact(seen.tags, req.tagIds, Authorize(seen.accounts, req.account, req.user).value);
    hide ResolveTags;
  }

  lemma PrepareReverseSuits(seen: Snapshots, req: Request, db: Db)
    requires req.Reverse? && Past(seen, db) && Seeded(db) && PrepareReverse(seen, req).Ok?
    ensures Suits(db, PostStatements(req.account, PrepareReverse(seen, req).value))
  {
    var original := FindStatement(seen.statements.log, req.statement).value;
    var j :| 0 <= j < |seen.statements.log| && seen.statements.log[j] == original;
    assert SameAccounting(original, db.log[..|seen.statements.log|][j]);
    var d := PrepareReverse(seen, req).value[0];
    assert d.typ.Opposite() == original.typ;
    assert Reverses(d, db.log[j]);
  }

  lemma PrepareImportSuits(seen: Snapshots, req: Request, db: Db)
    requires req.Import? && WellFormed(req) && Past(seen, db) && PrepareImport(seen, req).Ok?
    ensures Suits(db, PostStatements(req.account, PrepareImport(seen, req).value))
  {
    ImportDraftsPlain(ExistingIds(seen.writer.log, req.account, req.transactions), req.account, req.transactions, req.ids, req.now);
  }

  /** What Create, Reverse and Import prepare suits today's database, whatever they read. */
  lemma PrepareSuits(seen: Snapshots, req: Request, db: Db)
    requires WellFormed(req) && Past(seen, db) && Seeded(db)
    requires Prepare(seen, req).Ok?
    ensures Suits(db, PostStatements(req.account, Prepare(seen, req).value))
  {
    hide Suits, Past, Seeded, PrepareCreate, PrepareReverse, PrepareImport;
    match req
    case Create(_, _, _, _, _, _, _, _, _, _) => PrepareCreateSuits(seen, req, db);
    case Reverse(_, _, _, _, _, _) => PrepareReverseSuits(seen, req, db);
    case Import(_, _, _, _, _) => PrepareImportSuits(seen, req, db);
  }

  lemma PrepareCategorySuits(seen: Snapshots, user: Id, statement: Id, category: Option<Id>, db: Db)
    requires Past(seen, db) && Distinct(db.log)
    requires PrepareCategory(seen, user, statement, category).Ok?
    ensures Suits(db, SetCategory(statement, PrepareCategory(seen, user, statement, category).value))
  {
    var c := PrepareCategory(seen, user, statement, category).value;
    if c.Some? {
      forall i | 0 <= i < |db.log| && db.log[i].id == statement
        ensures CategorySuits(db, c.value, db.log[i].account, db.log[i].typ)
      {
        FindStays(seen.statements, db, statement, i);
      }
    }
  }

  lemma FindStays(db: Db, later: Db, id: Id, i: nat)
    requires Extends(db, later) && Distinct(later.log)
    requires FindStatement(db.log, id).Some?
    requires i < |later.log| && later.log[i].id == id
    ensures SameAccounting(FindStatement(db.log, id).value, later.log[i])
  {
    var k :| 0 <= k < |db.log| && db.log[k] == FindStatement(db.log, id).value;
    assert SameAccounting(db.log[k], later.log[..|db.log|][k]);
    UniqueById(later.log, i, k);
  }

  lemma PrepareTagsSuits(seen: Snapshots, user: Id, statement: Id, tagIds: seq<Id>, removed: set<Id>, db: Db)
    requires Past(seen, db) && Distinct(db.log)
    requires PrepareTags(seen, user, statement, tagIds).Ok?
    ensures Suits(db, EditTags(statement, removed, PrepareTags(seen, user, statement, tagIds).value))
  {
    var s := FindStatement(seen.statements.log, statement).value;
    ResolveTagsExact(seen.tags, tagIds, Authorize(seen.accounts, s.account, user).value);
    forall i | 0 <= i < |db.log| && db.log[i].id == statement ensures db.log[i].account == s.account {
      FindStays(seen.statements, db, statement, i);
    }
  }

  /* ---------- Every operation keeps the invariant ---------- */

  /** A posted row is its draft with a balance, checked against the constraints. */
  lemma PostedRow(db: Db, account: Id, batch: seq<Statement>, i: nat)
    requires Suits(db, PostStatements(account, batch)) && batch != []
    requires Post(db, account, batch).Ok? && |db.log| <= i < |db.log| + |batch|
    ensures var row := Post(db, account, batch).value.log[i];
            && RowOk(db, row)
            && DraftSuits(db, account, row)
            && (forall t :: t in row.tags ==> LiveTag(db, t))
  {
    var k := i - |db.log|;
    var rows := Rows(db.accounts[account].balance, batch);
    assert Post(db, account, batch).value.log[i] == rows[k] && rows[k] in rows;
    assert batch[k] in batch && DraftSuits(db, account, batch[k]);
    if rows[k].reference.Some? {
      var j :| 0 <= j < |db.log| && Reverses(batch[k], db.log[j]);
      assert Reverses(rows[k], db.log[j]);
    }
  }

  lemma PostKeepsReversals(db: Db, account: Id, batch: seq<Statement>)
    requires Consistent(db) && Suits(db, PostStatements(account, batch)) && batch != []
    requires Post(db, account, batch).Ok?
    ensures ReversalsSound(Post(db, account, batch).value.log)
  {
    var log := Post(db, account, batch).value.log;
    forall i | 0 <= i < |log| && log[i].reference.Some?
      ensures exists j :: 0 <= j < i && Reverses(log[i], log[j])
    {
      if i < |db.log| {
        assert log[i] == db.log[i] && HasOrigin(db.log, i);
        var j :| 0 <= j < i && Reverses(db.log[i], db.log[j]);
        assert log[j] == db.log[j];
      } else {
        PostedRow(db, account, batch, i);
        var j :| 0 <= j < |db.log| && Reverses(log[i], db.log[j]);
        assert log[j] == db.log[j];
      }
    }
  }

  lemma PostKeepsMetadata(db: Db, account: Id, batch: seq<Statement>)
    requires Consistent(db) && Suits(db, PostStatements(account, batch)) && batch != []
    requires Post(db, account, batch).Ok?
    ensures CategoriesSound(Post(db, account, batch).value)
    ensures TagsSound(Post(db, account, batch).value)
    ensures forall i :: 0 <= i < |Post(db, account, batch).value.log| ==> Post(db, account, batch).value.log[i].amount > 0
  {
    var next := Post(db, account, batch).value;
    forall i | 0 <= i < |next.log|
      ensures next.log[i].amount > 0
      ensures next.log[i].category.Some? ==>
                LiveCategory(next, next.log[i].category.value)
                && CategorySuits(next, next.log[i].category.value, next.log[i].account, next.log[i].typ)
      ensures forall t :: t in next.log[i].tags ==> LiveTag(next, t) && TagSuits(next, t, next.log[i].account)
    {
      if i >= |db.log| {
        PostedRow(db, account, batch, i);
      } else {
        assert next.log[i] == db.log[i];
      }
      forall t | t in next.log[i].tags ensures LiveTag(next, t) && TagSuits(next, t, next.log[i].account) {
        if i < |db.log| { assert t in db.log[i].tags; }
        assert LiveTag(db, t) && TagSuits(db, t, next.log[i].account);
      }
    }
  }

  lemma PostKeepsConsistent(db: Db, account: Id, batch: seq<Statement>)
    requires Consistent(db) && Suits(db, PostStatements(account, batch)) && batch != []
    requires Post(db, account, batch).Ok?
    ensures Consistent(Post(db, account, batch).value)
  {
    PostingKeepsBooks(db, account, batch);
    PostKeepsReversals(db, account, batch);
    PostKeepsMetadata(db, account, batch);
  }

  lemma SameBooksKeepReversals(log: seq<Statement>, other: seq<Statement>)
    requires SameBooks(log, other) && ReversalsSound(log) && Distinct(log)
    ensures ReversalsSound(other) && Distinct(other)
  {
    assert forall i :: 0 <= i < |log| ==> SameAccounting(log[i], other[i]);
    forall i | 0 <= i < |other| && other[i].reference.Some?
      ensures exists j :: 0 <= j < i && Reverses(other[i], other[j])
    {
      assert HasOrigin(log, i);
      var j :| 0 <= j < i && Reverses(log[i], log[j]);
      assert Reverses(other[i], other[j]);
    }
  }

  /** Any committed operation that suits the database keeps it consistent. */
  lemma ApplyKeepsConsistent(db: Db, op: Op)
    requires Consistent(db) && Suits(db, op)
    requires Apply(db, op).Ok?
    ensures Consistent(Apply(db, op).value)
  {
    if op.PostStatements? {
      if op.batch != [] { PostKeepsConsistent(db, op.account, op.batch); }
    } else {
      var next := Apply(db, op).value;
      ApplyKeepsBooks(db, op);
      MetadataKeepsBooks(db, op);
      SameBooksKeepReversals(db.log, next.log);
      assert forall i :: 0 <= i < |db.log| ==> SameAccounting(db.log[i], next.log[i]);
      MetadataKeepsSound(db, op);
    }
  }

  lemma TagStaysSound(db: Db, op: Op, i: nat, t: Id)
    requires TagsSound(db) && Suits(db, op) && !op.PostStatements?
    requires Apply(db, op).Ok? && i < |db.log| && t in Apply(db, op).value.log[i].tags
    ensures LiveTag(Apply(db, op).value, t) && TagSuits(Apply(db, op).value, t, db.log[i].account)
  {
    if op.EditTags? && db.log[i].id == op.statement && t in op.added {
      assert LiveTag(db, t) && TagSuits(db, t, db.log[i].account);
    } else {
      assert t in db.log[i].tags;
      assert LiveTag(db, t) && TagSuits(db, t, db.log[i].account);
    }
  }

  lemma CategoryStaysSound(db: Db, op: Op, i: nat)
    requires CategoriesSound(db) && Suits(db, op) && !op.PostStatements?
    requires Apply(db, op).Ok? && i < |db.log| && Apply(db, op).value.log[i].category.Some?
    ensures var next := Apply(db, op).value; var c := next.log[i].category.value;
            LiveCategory(next, c) && CategorySuits(next, c, db.log[i].account, db.log[i].typ)
  {
    if !(op.SetCategory? && db.log[i].id == op.statement) {
      assert Apply(db, op).value.log[i].category == db.log[i].category;
    }
  }

  lemma MetadataKeepsSound(db: Db, op: Op)
    requires Consistent(db) && Suits(db, op) && !op.PostStatements?
    requires Apply(db, op).Ok?
    ensures CategoriesSound(Apply(db, op).value) && TagsSound(Apply(db, op).value)
  {
    var next := Apply(db, op).value;
    MetadataKeepsBooks(db, op);
    forall i | 0 <= i < |next.log| && next.log[i].category.Some?
      ensures LiveCategory(next, next.log[i].category.value)
              && CategorySuits(next, next.log[i].category.value, next.log[i].account, next.log[i].typ)
    {
      assert SameAccounting(db.log[i], next.log[i]);
      CategoryStaysSound(db, op, i);
    }
    forall i, t | 0 <= i < |next.log| && t in next.log[i].tags
      ensures LiveTag(next, t) && TagSuits(next, t, next.log[i].account)
    {
      assert SameAccounting(db.log[i], next.log[i]);
      TagStaysSound(db, op, i, t);
    }
  }

  lemma PostKeepsCap(db: Db, account: Id, batch: seq<Statement>)
    requires TagsCapped(db) && Suits(db, PostStatements(account, batch)) && Post(db, account, batch).Ok?
    ensures TagsCapped(Post(db, account, batch).value)
  {
    hide RowsOk, TagRowsOk, Final;
    var next := Post(db, account, batch).value;
    forall i | |db.log| <= i < |next.log| ensures |next.log[i].tags| <= MAX_TAGS {
      assert batch[i - |db.log|] in batch;
    }
  }

  lemma SmallerTags(tags: set<Id>, id: Id)
    ensures |tags - {id}| <= |tags|
  {
    assert |tags| == |tags - {id}| + |tags * {id}|;
  }

  /** The ten-tag cap is kept by every operation, a ReplaceTags whose DELETE did not see all the tags excepted. */
  lemma ApplyKeepsCap(db: Db, op: Op)
    requires TagsCapped(db) && Suits(db, op)
    requires op.EditTags? ==> forall i :: 0 <= i < |db.log| && db.log[i].id == op.statement ==> db.log[i].tags <= op.removed
    requires Apply(db, op).Ok?
    ensures TagsCapped(Apply(db, op).value)
  {
    hide Post, TagSuits, CategorySuits;
    if op.PostStatements? {
      PostKeepsCap(db, op.account, op.batch);
    } else {
      var next := Apply(db, op).value;
      forall i | 0 <= i < |next.log| ensures |next.log[i].tags| <= MAX_TAGS {
        if op.EditTags? && db.log[i].id == op.statement { assert db.log[i].tags - op.removed + op.added == op.added; }
        if op.DeleteTag? { SmallerTags(db.log[i].tags, op.id); }
      }
    }
  }
}
