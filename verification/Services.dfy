/**
 The statement entity and the statement use cases as objects over the repositories,
 each run with nothing beside it. Their loops and in-place updates compute what the
 functions of UseCases say.
 */
module Services {
  import opened Int64
  import opened Wrappers
  import opened Ledger
  import opened Answers
  import opened Consistency
  import opened UseCases
  import opened Import
  import R = Repositories

  /* ---------- The entity ---------- */

  class StatementEntity {
    const id: Id
    const account: Id
    const typ: StatementType
    const amount: int
    const description: string
    const reference: Option<Id>
    const external: Option<string>
    const createdAt: int
    var postedAt: int
    var balanceAfter: int
    var category: Option<Id>
    var tags: set<Id>

    constructor NewStatement(id: Id, account: Id, typ: StatementType, amount: int, description: string, now: int)
      ensures Row() == Statement(id, account, typ, amount, description, None, None, 0, now, now, None, {})
    {
      this.id, this.account, this.typ, this.amount, this.description := id, account, typ, amount, description;
      reference, external, balanceAfter, category, tags := None, None, 0, None, {};
      postedAt, createdAt := now, now;
    }

    constructor NewReversalStatement(id: Id, account: Id, typ: StatementType, amount: int, description: string, reference: Id, now: int)
      ensures Row() == Statement(id, account, typ, amount, description, Some(reference), None, 0, now, now, None, {})
    {
      this.id, this.account, this.typ, this.amount, this.description := id, account, typ, amount, description;
      this.reference, external, balanceAfter, category, tags := Some(reference), None, 0, None, {};
      postedAt, createdAt := now, now;
    }

    constructor NewImportedStatement(id: Id, account: Id, typ: StatementType, amount: int, description: string, external: string,
                                     postedAt: int, now: int)
      ensures Row() == Statement(id, account, typ, amount, description, None, Some(external), 0, postedAt, now, None, {})
    {
      this.id, this.account, this.typ, this.amount, this.description := id, account, typ, amount, description;
      reference, this.external, balanceAfter, category, tags := None, Some(external), 0, None, {};
      this.postedAt, createdAt := postedAt, now;
    }

    function Row(): Statement
      reads this
    {
      Statement(id, account, typ, amount, description, reference, external, balanceAfter, postedAt, createdAt, category, tags)
    }

    method SetBalanceAfter(balance: int)
      modifies this`balanceAfter
      ensures Row() == old(Row()).(balanceAfter := balance)
    {
      balanceAfter := balance;
    }

    method WithCategory(category: Id)
      modifies this`category
      ensures Row() == old(Row()).(category := Some(category))
    {
      this.category := Some(category);
    }

    method WithTags(tags: set<Id>)
      modifies this`tags
      ensures Row() == old(Row()).(tags := tags)
    {
      this.tags := tags;
    }
  }

  /* ---------- Tags ---------- */

  /** The list without later repetitions. */
  function FirstSeen(ids: seq<Id>): seq<Id> {
    if ids == [] then []
    else
      var front := ids[..|ids| - 1];
      FirstSeen(front) + (if ids[|ids| - 1] in front then [] else [ids[|ids| - 1]])
  }

  /** Deduplication keeps every id, each once, in the order of first appearance. */
  lemma {:induction false} FirstSeenKeepsAll(ids: seq<Id>)
    ensures R.Unrepeated(FirstSeen(ids))
    ensures forall id :: id in FirstSeen(ids) <==> id in ids
  {
    if ids != [] { FirstSeenKeepsAll(ids[..|ids| - 1]); }
  }

  /** An id that is new at place k comes right after the different ids in front of it. */
  lemma {:induction false} FirstSeenInOrder(ids: seq<Id>, k: nat)
    requires k < |ids| && ids[k] !in ids[..k]
    ensures var before := |set id | id in ids[..k]|;
            before < |FirstSeen(ids)| && FirstSeen(ids)[before] == ids[k]
  {
    var n := |ids| - 1;
    if k == n {
      FirstSeenKeepsAll(ids[..n]);
      SizeOfUnrepeated(FirstSeen(ids[..n]));
      assert (set id | id in FirstSeen(ids[..n])) == (set id | id in ids[..n]);
    } else {
      assert ids[..n][..k] == ids[..k];
      FirstSeenInOrder(ids[..n], k);
    }
  }

  lemma {:induction false} SizeOfUnrepeated(ids: seq<Id>)
    requires R.Unrepeated(ids)
    ensures |set id | id in ids| == |ids|
  {
    if ids != [] {
      var n := |ids| - 1;
      SizeOfUnrepeated(ids[..n]);
      assert (set id | id in ids) == (set id | id in ids[..n]) + {ids[n]};
    }
  }

  method DedupTagIds(ids: seq<Id>) returns (out: seq<Id>)
    ensures out == FirstSeen(ids)
  {
    var seen: set<Id> := {};
    out := [];
    for i := 0 to |ids|
      invariant seen == set id | id in ids[..i]
      invariant out == FirstSeen(ids[..i])
    {
      assert ids[..i + 1][..i] == ids[..i];
      if ids[i] !in seen {
        seen := seen + {ids[i]};
        out := out + [ids[i]];
      }
    }
    assert ids[..|ids|] == ids;
  }

  /** The rows of SELECT ... WHERE id = ANY, in whatever order the database finds them. */
  method SelectVisible(db: Db, ids: seq<Id>, user: Id) returns (found: seq<Id>)
    ensures R.Unrepeated(found)
    ensures (set t | t in found) == FindManyVisible(db, (set t | t in ids), user)
  {
    var rest := FindManyVisible(db, (set t | t in ids), user);
    found := [];
    while rest != {}
      invariant R.Unrepeated(found)
      invariant forall t :: t in found ==> t !in rest
      invariant (set t | t in found) + rest == FindManyVisible(db, (set t | t in ids), user)
      decreases rest
    {
      var t :| t in rest;
      rest := rest - {t};
      found := found + [t];
    }
  }

  method ResolveTagList(db: Db, raw: seq<Id>, user: Id) returns (r: Result<seq<Id>>)
    ensures r.Ok? <==> ResolveTags(db, raw, user).Ok?
    ensures r.Ok? ==> R.Unrepeated(r.value) && (set t | t in r.value) == ResolveTags(db, raw, user).value
    ensures r.Err? ==> r.error == ResolveTags(db, raw, user).error
  {
    var unique := DedupTagIds(raw);
    FirstSeenKeepsAll(raw);
    SizeOfUnrepeated(unique);
    assert (set t | t in unique) == (set t | t in raw);
    if |unique| == 0 {
      assert FindManyVisible(db, (set t | t in raw), user) == {};
      return Ok([]);
    }
    if |unique| > MAX_TAGS { return Err(TagLimitExceeded); }
    var found := SelectVisible(db, unique, user);
    SizeOfUnrepeated(found);
    if |found| != |unique| { return Err(TagNotVisible); }
    return Ok(found);
  }

  /* ---------- Use cases ---------- */

  /** Posting one statement appends its row, with the account's new balance. */
  lemma PostedLast(db: Db, account: Id, stmt: Statement)
    requires Post(db, account, [stmt]).Ok?
    ensures var next := Post(db, account, [stmt]).value;
            account in next.accounts && next.log == db.log + [stmt.(balanceAfter := next.accounts[account].balance)]
  {
    hide Wrap, RowsOk, TagRowsOk;
    assert [stmt][..0] == [];
  }

  lemma ConsistentIsDistinct(db: Db)
    requires Consistent(db)
    ensures Distinct(db.log)
  {
  }

  class CreateUseCase {
    const repo: R.StatementRepository

    constructor (repo: R.StatementRepository)
      ensures this.repo == repo
    {
      this.repo := repo;
    }

    /** On success the new row, with its balance, is the last row of the ledger. */
    method Execute(req: Request, failsAt: nat) returns (r: Result<Statement>)
      requires req.Create?
      modifies repo.writer
      ensures var db := old(repo.writer.db); var batch := PrepareCreate(Latest(db), req);
              && (batch.Err? ==> r == Err(batch.error) && repo.writer.db == db)
              && (batch.Ok? ==> R.Outcome(db, repo.writer.db, Post(db, req.account, batch.value), R.Broken(failsAt, 6), r))
              && (r.Ok? ==> repo.writer.db.log == db.log + [r.value])
      ensures !Creatable(old(repo.writer.db), req) ==> r == Err(CreateError(old(repo.writer.db), req))
      ensures r.Err? ==> repo.writer.db == old(repo.writer.db)
      ensures r.Ok? ==> Creatable(old(repo.writer.db), req) && CreatedAs(old(repo.writer.db), repo.writer.db, req, r.value)
      ensures (&& Creatable(old(repo.writer.db), req) && Distinct(old(repo.writer.db).log)
               && !HasStatement(old(repo.writer.db).log, req.id) && !R.Broken(failsAt, 6)) ==> r.Ok?
    {
      hide Post, FindManyVisible, Authorize, ResolveTags, ResolveCategory, Creatable, CreateError, Created, CreatedAs, Distinct;
      var db := repo.writer.db;
      CreateAnswer(db, req);
      var owner := Authorize(db, req.account, req.user);
      if owner.Err? { return Err(owner.error); }
      var typ := NewStatementType(req.typ);
      if typ.Err? { return Err(typ.error); }
      if req.amount <= 0 { return Err(InvalidAmount); }
      var category := ResolveCategory(db, req.category, owner.value, typ.value);
      if category.Err? { return Err(category.error); }
      var tags := ResolveTagList(db, req.tagIds, owner.value);
      if tags.Err? { return Err(tags.error); }
      var stmt := new StatementEntity.NewStatement(req.id, req.account, typ.value, req.amount, req.description, req.now);
      if req.postedAt.Some? { stmt.postedAt := req.postedAt.value; }
      if category.value.Some? { stmt.WithCategory(category.value.value); }
      if |tags.value| > 0 { stmt.WithTags(set t | t in tags.value); }
      assert stmt.tags == set t | t in tags.value;
      assert PrepareCreate(Latest(db), req) == Ok([stmt.Row()]);
      if Post(db, req.account, [stmt.Row()]).Ok? { PostedLast(db, req.account, stmt.Row()); }
      if Distinct(db.log) && !HasStatement(db.log, req.id) { CreateAlwaysPosts(db, req); }
      var balance := repo.Create(stmt.Row(), req.account, failsAt);
      if balance.Err? { return Err(balance.error); }
      stmt.SetBalanceAfter(balance.value);
      CreatePosts(db, req, repo.writer.db, stmt.Row());
      return Ok(stmt.Row());
    }
  }

  class ReverseUseCase {
    const repo: R.StatementRepository

    constructor (repo: R.StatementRepository)
      ensures this.repo == repo
    {
      this.repo := repo;
    }

    method Execute(req: Request, failsAt: nat) returns (r: Result<Statement>)
      requires req.Reverse?
      modifies repo.writer
      ensures var db := old(repo.writer.db); var batch := PrepareReverse(Latest(db), req);
              && (batch.Err? ==> r == Err(batch.error) && repo.writer.db == db)
              && (batch.Ok? ==> R.Outcome(db, repo.writer.db, Post(db, req.account, batch.value), R.Broken(failsAt, 6), r))
              && (r.Ok? ==> repo.writer.db.log == db.log + [r.value])
      ensures Distinct(old(repo.writer.db).log) && !Reversible(old(repo.writer.db), req) ==> r == Err(ReverseError(old(repo.writer.db), req))
      ensures r.Err? ==> repo.writer.db == old(repo.writer.db)
      ensures Distinct(old(repo.writer.db).log) && r.Ok? ==>
                Reversible(old(repo.writer.db), req) && ReversedAs(old(repo.writer.db), repo.writer.db, req, r.value)
      ensures (&& Consistent(old(repo.writer.db)) && Reversible(old(repo.writer.db), req)
               && !HasStatement(old(repo.writer.db).log, req.id) && !R.Broken(failsAt, 6)) ==> r.Ok?
    {
      hide Post, Distinct, Consistent, Reversible, ReverseError, ReversedAs, Undoes;
      var db := repo.writer.db;
      if Consistent(db) { ConsistentIsDistinct(db); }
      if Distinct(db.log) { ReverseAnswer(db, req); }
      var owner := Authorize(db, req.account, req.user);
      if owner.Err? { return Err(owner.error); }
      var original := FindStatement(db.log, req.statement);
      if original.None? || original.value.account != req.account { return Err(StatementNotFound); }
      if HasReversal(db.log, req.statement) { return Err(AlreadyReversed); }
      var description := req.description;
      if description == "" { description := "Reversal of statement " + req.statement; }
      var reversal := new StatementEntity.NewReversalStatement(
        req.id, req.account, original.value.typ.Opposite(), original.value.amount, description, req.statement, req.now);
      reversal.WithCategory(EstornoId(reversal.typ));
      assert PrepareReverse(Latest(db), req) == Ok([reversal.Row()]);
      if Post(db, req.account, [reversal.Row()]).Ok? { PostedLast(db, req.account, reversal.Row()); }
      if Consistent(db) && !HasStatement(db.log, req.id) { ReverseAlwaysPosts(db, req, reversal.Row()); }
      ghost var draft := reversal.Row();
      var balance := repo.Create(reversal.Row(), req.account, failsAt);
      if balance.Err? { return Err(balance.error); }
      reversal.SetBalanceAfter(balance.value);
      if Distinct(db.log) { ReversePosts(db, req, draft, repo.writer.db, reversal.Row()); }
      return Ok(reversal.Row());
    }
  }

  method MapOfxTransaction(txn: Transaction, account: Id, id: Id, now: int) returns (r: Result<Statement>)
    ensures r == MapTransaction(txn, account, id, now)
  {
    var typ := Debit;
    if txn.amount >= 0 { typ := Credit; }
    var absCents := txn.amount;
    if absCents < 0 { absCents := Wrap(-absCents); }
    if absCents <= 0 { return Err(InvalidAmount); }
    if txn.fitid != "" {
      var stmt := new StatementEntity.NewImportedStatement(id, account, typ, absCents, txn.description, txn.fitid, txn.postedAt, now);
      return Ok(stmt.Row());
    }
    var stmt := new StatementEntity.NewStatement(id, account, typ, absCents, txn.description, now);
    stmt.postedAt := txn.postedAt;
    return Ok(stmt.Row());
  }

  /** What an import answers and leaves, in terms of the file and the tables. */
  lemma FileAnswer(db: Db, req: Request)
    requires req.Import? && WellFormed(req)
    ensures ImportFile(db, req).result.Err? ==> ImportFile(db, req).db == db
    ensures InRangeFile(req.transactions) && ImportFile(db, req).result.Ok? ==>
              exists p :: Appended(db, ImportFile(db, req).db, req, p) && Counted(req, p, ImportFile(db, req).result.value)
    ensures InRangeFile(req.transactions) && Distinct(db.log) && FreshIds(db.log, req.ids) ==>
              (ImportFile(db, req).result.Ok? <==> Importable(db, req))
  {
    hide Appended, Counted, Importable, Distinct, FreshIds, InRangeFile, Post, PrepareImport;
    if InRangeFile(req.transactions) && ImportFile(db, req).result.Ok? { var p := ImportAppends(db, req); }
    if InRangeFile(req.transactions) && Distinct(db.log) && FreshIds(db.log, req.ids) { ImportAnswer(db, req); }
  }

  lemma NothingToPost(db: Db, account: Id)
    ensures Post(db, account, []) == Ok(db)
  {
  }

  class ImportUseCase {
    const repo: R.StatementRepository

    constructor (repo: R.StatementRepository)
      ensures this.repo == repo
    {
      this.repo := repo;
    }

    /** The FITIDs of the file that the account already holds; only non-empty ones are asked for. */
    method KnownFitids(db: Db, account: Id, txns: seq<Transaction>) returns (existing: set<string>)
      ensures existing == ExistingIds(db.log, account, txns)
    {
      var fitIds: seq<string> := [];
      for i := 0 to |txns|
        invariant forall f :: f in fitIds <==> exists k :: 0 <= k < i && txns[k].fitid == f && f != ""
      {
        if txns[i].fitid != "" { fitIds := fitIds + [txns[i].fitid]; }
      }
      existing := set f | f in fitIds && Holds(db.log, account, f);
    }

    method Execute(req: Request, failsAt: nat) returns (r: Result<Summary>)
      requires req.Import? && WellFormed(req)
      modifies repo.writer
      ensures var db := old(repo.writer.db); var drafts := PrepareImport(Latest(db), req);
              if drafts.Ok? && drafts.value != [] && R.Broken(failsAt, 6) then r.Err? && repo.writer.db == db
              else Import.Outcome(repo.writer.db, r) == ImportFile(db, req)
      ensures r.Err? ==> repo.writer.db == old(repo.writer.db)
      ensures InRangeFile(req.transactions) && r.Ok? ==>
                exists p :: Appended(old(repo.writer.db), repo.writer.db, req, p) && Counted(req, p, r.value)
      ensures (&& InRangeFile(req.transactions) && Distinct(old(repo.writer.db).log) && FreshIds(old(repo.writer.db).log, req.ids)
               && !R.Broken(failsAt, 6)) ==> (r.Ok? <==> Importable(old(repo.writer.db), req))
    {
      hide Appended, Counted, Importable, Distinct, FreshIds, InRangeFile, Post, Authorize, ExistingIds;
      NothingToPost(repo.writer.db, req.account);
      FileAnswer(repo.writer.db, req);
      var db := repo.writer.db;
      var owner := Authorize(db, req.account, req.user);
      if owner.Err? { return Err(owner.error); }
      var txns := req.transactions;
      var existing := KnownFitids(db, req.account, txns);
      var statements: seq<Statement> := [];
      var skipped: nat := 0;
      for i := 0 to |txns|
        invariant ImportDrafts(existing, req.account, txns[..i], req.ids, req.now) == Ok(statements)
        invariant skipped == CountSkipped(existing, txns[..i])
        invariant repo.writer.db == db
      {
        assert txns[..i + 1][..i] == txns[..i];
        if txns[i].fitid != "" && txns[i].fitid in existing {
          skipped := skipped + 1;
        } else if txns[i].amount == 0 {
          skipped := skipped + 1;
        } else {
          var stmt := MapOfxTransaction(txns[i], req.account, req.ids[i], req.now);
          if stmt.Err? {
            DraftsMappedWhen(existing, req.account, txns, req.ids, req.now);
            assert Draft(req.account, txns, req.ids, req.now, i).Err?;
            return Err(stmt.error);
          }
          statements := statements + [stmt.value];
        }
      }
      assert txns[..|txns|] == txns;
      if |statements| > 0 {
        var balance := repo.CreateBatch(statements, req.account, failsAt);
        if balance.Err? { return Err(balance.error); }
      }
      return Ok(Summary(|txns|, |statements|, skipped));
    }
  }

  /** A category that was granted can be written. */
  ghost predicate CategoryLands(db: Db, user: Id, statement: Id, category: Option<Id>, i: int)
    requires IsRow(db, statement, i)
  {
    var want := RowRecategorized(db, user, db.log[i], category);
    want.Ok? ==> want == Ok(Asked(category)) && Apply(db, SetCategory(statement, want.value)).Ok?
  }

  lemma Lands(db: Db, user: Id, statement: Id, category: Option<Id>, i: int)
    requires IsRow(db, statement, i)
    ensures CategoryLands(db, user, statement, category, i)
  {
    assert HasStatement(db.log, statement);
  }

  class UpdateCategoryUseCase {
    const repo: R.StatementRepository

    constructor (repo: R.StatementRepository)
      ensures this.repo == repo
    {
      this.repo := repo;
    }

    method Execute(user: Id, statement: Id, category: Option<Id>, failsAt: nat) returns (r: Result<()>)
      modifies repo.writer
      ensures var db := old(repo.writer.db); var target := PrepareCategory(Latest(db), user, statement, category);
              && (target.Err? ==> r == Err(target.error) && repo.writer.db == db)
              && (target.Ok? ==> R.Outcome(db, repo.writer.db, Apply(db, SetCategory(statement, target.value)), R.Broken(failsAt, 1), r))
      ensures r.Err? ==> repo.writer.db == old(repo.writer.db)
      ensures Distinct(old(repo.writer.db).log) && !HasStatement(old(repo.writer.db).log, statement) ==> r == Err(StatementNotFound)
      ensures Distinct(old(repo.writer.db).log) ==> forall i :: IsRow(old(repo.writer.db), statement, i) ==>
                var want := RowRecategorized(old(repo.writer.db), user, old(repo.writer.db).log[i], category);
                && (want.Err? ==> r == Err(want.error))
                && (want.Ok? && !R.Broken(failsAt, 1) ==> r.Ok?)
                && (r.Ok? ==> want == Ok(Asked(category)) && R.OnlyCategories(old(repo.writer.db), repo.writer.db, statement, Asked(category)))
    {
      hide Distinct, RowRecategorized, Authorize, R.OnlyCategories;
      var db := repo.writer.db;
      if Distinct(db.log) {
        RecategorizeAnswer(db, user, statement, category);
        forall i | IsRow(db, statement, i) ensures CategoryLands(db, user, statement, category, i) { Lands(db, user, statement, category, i); }
      }
      var stmt := FindStatement(db.log, statement);
      if stmt.None? { return Err(StatementNotFound); }
      var owner := Authorize(db, stmt.value.account, user);
      if owner.Err? { return Err(owner.error); }
      var target: Option<Id> := None;
      if category.Some? && category.value != "" {
        var resolved := ResolveCategory(db, category, owner.value, stmt.value.typ);
        if resolved.Err? { return Err(resolved.error); }
        target := resolved.value;
      }
      r := repo.UpdateCategory(statement, target, failsAt);
    }
  }

  class ReplaceTagsUseCase {
    const repo: R.StatementRepository

    constructor (repo: R.StatementRepository)
      ensures this.repo == repo
    {
      this.repo := repo;
    }

    /** Run alone, a successful call leaves exactly the requested tags, at most ten, on the statement. */
    method Execute(user: Id, statement: Id, raw: seq<Id>, failsAt: nat) returns (r: Result<()>)
      modifies repo.writer
      ensures var db := old(repo.writer.db); var tags := PrepareTags(Latest(db), user, statement, raw);
              && (r.Err? ==> repo.writer.db == db)
              && (tags.Err? ==> r == Err(tags.error))
              && (tags.Ok? && !R.Broken(failsAt, 5) ==> r.Ok?)
      ensures r.Ok? ==> |set t | t in raw| <= MAX_TAGS && SameBooks(old(repo.writer.db).log, repo.writer.db.log)
                        && forall i :: 0 <= i < |repo.writer.db.log| ==>
                             repo.writer.db.log[i].tags ==
                             if repo.writer.db.log[i].id == statement then set t | t in raw else old(repo.writer.db).log[i].tags
      ensures Distinct(old(repo.writer.db).log) && !HasStatement(old(repo.writer.db).log, statement) ==> r == Err(StatementNotFound)
      ensures Distinct(old(repo.writer.db).log) ==> forall i :: IsRow(old(repo.writer.db), statement, i) ==>
                var want := RowRetagged(old(repo.writer.db), user, old(repo.writer.db).log[i], raw);
                && (want.Err? ==> r == Err(want.error))
                && (want.Ok? && !R.Broken(failsAt, 5) ==> r.Ok?)
                && (r.Ok? ==> want == Ok(set t | t in raw))
      ensures r.Ok? ==> repo.writer.db == old(repo.writer.db).(log := repo.writer.db.log)
    {
      hide Distinct, RowRetagged;
      if Distinct(repo.writer.db.log) { RetagAnswer(repo.writer.db, user, statement, raw); }
      var db := repo.writer.db;
      var stmt := FindStatement(db.log, statement);
      if stmt.None? { return Err(StatementNotFound); }
      var owner := Authorize(db, stmt.value.account, user);
      if owner.Err? { return Err(owner.error); }
      var tags := ResolveTagList(db, raw, owner.value);
      ResolveTagsExact(db, raw, owner.value);
      if tags.Err? { return Err(tags.error); }
      ReplacedTags(db, statement, set t | t in tags.value);
      r := repo.ReplaceTags(statement, tags.value, failsAt);
    }
  }

  lemma ReplacedTags(db: Db, statement: Id, added: set<Id>)
    requires HasStatement(db.log, statement) && forall t :: t in added ==> LiveTag(db, t)
    ensures var r := Apply(db, EditTags(statement, R.AllTags(db.log, statement), added));
            && r.Ok? && SameBooks(db.log, r.value.log)
            && forall i :: 0 <= i < |db.log| ==>
                 r.value.log[i].tags == if db.log[i].id == statement then added else db.log[i].tags
  {
    R.AllTagsCover(db.log, statement);
    var removed := R.AllTags(db.log, statement);
    forall i | 0 <= i < |db.log| && db.log[i].id == statement
      ensures (db.log[i].tags - removed) * added == {} && db.log[i].tags - removed + added == added
    {
      assert db.log[i].tags - removed == {};
    }
  }

  /* ---------- Category use cases ---------- */

  class CategoryUseCases {
    const repo: R.CategoryRepository

    constructor (repo: R.CategoryRepository)
      ensures this.repo == repo
    {
      this.repo := repo;
    }

    /** Only a user's own category is renamed; a default is read-only, another user's is not found. */
    method Rename(user: Id, category: Id, name: string, failsAt: nat) returns (r: Result<()>)
      modifies repo.writer
      ensures r.Err? ==> repo.writer.db == old(repo.writer.db)
      ensures r.Ok? ==> LiveIn(old(repo.writer.db), category) && old(repo.writer.db).categories[category].owner == Some(user)
      ensures r.Ok? ==> repo.writer.db == old(repo.writer.db).(categories :=
                          old(repo.writer.db).categories[category := old(repo.writer.db).categories[category].(name := name)])
      ensures LiveIn(old(repo.writer.db), category) && old(repo.writer.db).categories[category].owner == Some(user) ==>
                (r.Ok? <==> !R.Broken(failsAt, 1))
      ensures LiveIn(old(repo.writer.db), category) && old(repo.writer.db).categories[category].owner == None ==> r == Err(CategoryReadOnly)
      ensures !LiveIn(old(repo.writer.db), category) || !Theirs(old(repo.writer.db).categories[category].owner, user) ==> r == Err(CategoryNotFound)
    {
      var db := repo.writer.db;
      if !LiveCategory(db, category) { return Err(CategoryNotFound); }
      if db.categories[category].owner.None? { return Err(CategoryReadOnly); }
      if db.categories[category].owner.value != user { return Err(CategoryNotFound); }
      assert OwnCategory(db, category, user).Ok?;
      r := repo.Update(category, name, failsAt);
    }

    /** Only a user's own category that no statement carries is deleted. */
    method Delete(user: Id, category: Id, failsAt: nat) returns (r: Result<()>)
      modifies repo.writer
      ensures r.Err? ==> repo.writer.db == old(repo.writer.db)
      ensures r.Ok? ==> LiveIn(old(repo.writer.db), category) && old(repo.writer.db).categories[category].owner == Some(user)
                        && !InUse(old(repo.writer.db), category) && !LiveIn(repo.writer.db, category)
      ensures LiveIn(old(repo.writer.db), category) && old(repo.writer.db).categories[category].owner == Some(user) ==>
                if InUse(old(repo.writer.db), category) then r == Err(CategoryInUse) else r.Ok? <==> !R.Broken(failsAt, 1)
      ensures LiveIn(old(repo.writer.db), category) && old(repo.writer.db).categories[category].owner == None ==> r == Err(CategoryReadOnly)
      ensures !LiveIn(old(repo.writer.db), category) || !Theirs(old(repo.writer.db).categories[category].owner, user) ==> r == Err(CategoryNotFound)
    {
      var db := repo.writer.db;
      DeleteCategoryAnswer(db, category, user);
      if !LiveCategory(db, category) { return Err(CategoryNotFound); }
      if db.categories[category].owner.None? { return Err(CategoryReadOnly); }
      if db.categories[category].owner.value != user { return Err(CategoryNotFound); }
      if exists i :: 0 <= i < |db.log| && db.log[i].category == Some(category) { return Err(CategoryInUse); }
      assert PrepareCategoryDelete(db, db, category, user).Ok?;
      r := repo.Delete(category, failsAt);
    }
  }
}
