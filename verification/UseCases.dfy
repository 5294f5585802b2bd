/**
 The statement use cases up to the point where they call the repository: what
 each one reads, checks and builds. Every read may come from its own, possibly
 outdated, snapshot of the database.
 */
module UseCases {
  import opened Int64
  import opened Wrappers
  import opened Ledger

  const MAX_TAGS: nat := 10
  const ESTORNO_CREDIT: Id := "00000000-0000-0000-0000-210000000006"
  const ESTORNO_DEBIT: Id := "00000000-0000-0000-0000-22000000000c"

  function EstornoId(typ: StatementType): Id {
    if typ.Credit? then ESTORNO_CREDIT else ESTORNO_DEBIT
  }

  /** Own, or a system default. */
  predicate Visible(owner: Option<Id>, user: Id) {
    owner.None? || owner.value == user
  }

  /** The account's owner; user "" is a service call and skips the ownership check. */
  function Authorize(db: Db, account: Id, user: Id): Result<Id> {
    if account !in db.accounts || !db.accounts[account].active then Err(AccountNotFound)
    else if user != "" && db.accounts[account].owner != user then Err(StatementNotFound)
    else Ok(db.accounts[account].owner)
  }

  predicate Open(db: Db, account: Id) {
    account in db.accounts && db.accounts[account].active
  }

  /** The account is active and the caller's own; "" is another service and may use any. */
  predicate Usable(db: Db, account: Id, user: Id) {
    Open(db, account) && (user == "" || db.accounts[account].owner == user)
  }

  lemma AccountAnswer(db: Db, account: Id, user: Id)
    ensures Authorize(db, account, user).Ok? <==> Usable(db, account, user)
    ensures Usable(db, account, user) ==> Authorize(db, account, user) == Ok(db.accounts[account].owner)
    ensures !Open(db, account) ==> Authorize(db, account, user) == Err(AccountNotFound)
    ensures Open(db, account) && !Usable(db, account, user) ==> Authorize(db, account, user) == Err(StatementNotFound)
  {
  }

  function NewStatementType(value: string): Result<StatementType> {
    if value == "credit" then Ok(Credit) else if value == "debit" then Ok(Debit) else Err(InvalidType)
  }

  function ResolveCategory(db: Db, category: Option<Id>, owner: Id, typ: StatementType): Result<Option<Id>> {
    if category.None? || category.value == "" then Ok(None)
    else if !LiveCategory(db, category.value) || !Visible(db.categories[category.value].owner, owner) then
      Err(CategoryNotVisible)
    else if db.categories[category.value].typ != typ then Err(CategoryTypeMismatch)
    else Ok(category)
  }

  /** FindManyVisible: the live tags among ids that the user may see. */
  function FindManyVisible(db: Db, ids: set<Id>, owner: Id): set<Id> {
    set t | t in ids && LiveTag(db, t) && Visible(db.tags[t].owner, owner)
  }

  function ResolveTags(db: Db, raw: seq<Id>, owner: Id): Result<set<Id>> {
    var unique := set t | t in raw;
    var found := FindManyVisible(db, unique, owner);
    if |unique| > MAX_TAGS then Err(TagLimitExceeded)
    else if |found| != |unique| then Err(TagNotVisible)
    else Ok(found)
  }

  lemma SubsetOfEqualSize<T>(a: set<T>, b: set<T>)
    requires a <= b && |a| == |b|
    ensures a == b
  {
    assert |b - a| == |b| - |a|;
  }

  /** Comparing two lengths is enough: tags are granted exactly when every requested one is visible. */
  lemma ResolveTagsExact(db: Db, raw: seq<Id>, owner: Id)
    ensures var r := ResolveTags(db, raw, owner);
            && (r.Ok? <==> |set t | t in raw| <= 10
                           && forall t :: t in raw ==> LiveTag(db, t) && (db.tags[t].owner == None || db.tags[t].owner == Some(owner)))
            && (r.Ok? ==> r.value == set t | t in raw)
  {
    var unique := set t | t in raw;
    var found := FindManyVisible(db, unique, owner);
    if |found| == |unique| {
      SubsetOfEqualSize(found, unique);
      assert forall t :: t in raw ==> t in unique && t in found;
    }
    if forall t :: t in raw ==> LiveTag(db, t) && Visible(db.tags[t].owner, owner) { assert found == unique; }
  }

  /* ---------- Several spellings of one identifier ---------- */

  /** The same with the identifiers as the caller spelled them: they are deduplicated as strings and compared as
      UUIDs; canon gives the UUID of a spelling. */
  function ResolveSpelled(db: Db, raw: seq<string>, canon: string -> Id, owner: Id): Result<set<Id>> {
    var unique := set t | t in raw;
    var found := FindManyVisible(db, (set t | t in unique :: canon(t)), owner);
    if |unique| > MAX_TAGS then Err(TagLimitExceeded)
    else if |found| != |unique| then Err(TagNotVisible)
    else Ok(found)
  }

  ghost predicate OneSpelling(spellings: set<string>, canon: string -> Id) {
    forall x, y :: x in spellings && y in spellings && canon(x) == canon(y) ==> x == y
  }

  function Image(spellings: set<string>, canon: string -> Id): set<Id> {
    set t | t in spellings :: canon(t)
  }

  lemma {:induction false} ImageSize(spellings: set<string>, canon: string -> Id)
    ensures |Image(spellings, canon)| <= |spellings|
    ensures |Image(spellings, canon)| == |spellings| <==> OneSpelling(spellings, canon)
    decreases |spellings|
  {
    if spellings == {} {
      assert Image(spellings, canon) == {};
    } else {
      var x :| x in spellings;
      var rest := spellings - {x};
      ImageSize(rest, canon);
      assert Image(spellings, canon) == Image(rest, canon) + {canon(x)};
      if OneSpelling(rest, canon) && canon(x) !in Image(rest, canon) {
        assert forall y :: y in rest ==> canon(y) in Image(rest, canon);
      }
      if canon(x) in Image(rest, canon) {
        var y :| y in rest && canon(y) == canon(x);
        assert y in spellings && x != y;
      }
    }
  }

  /** Two spellings of one tag are refused as an invisible one; otherwise spelling makes no difference. */
  lemma ResolveSpelledExact(db: Db, raw: seq<string>, canon: string -> Id, owner: Id)
    ensures var r := ResolveSpelled(db, raw, canon, owner);
            var unique := set t | t in raw;
            && (r.Ok? <==> |unique| <= 10 && OneSpelling(unique, canon)
                           && forall t :: t in raw ==>
                                LiveTag(db, canon(t)) && (db.tags[canon(t)].owner == None || db.tags[canon(t)].owner == Some(owner)))
            && (r.Ok? ==> r.value == Image(unique, canon))
  {
    var unique := set t | t in raw;
    var image := Image(unique, canon);
    assert image == set t | t in unique :: canon(t);
    var found := FindManyVisible(db, image, owner);
    ImageSize(unique, canon);
    assert image == found + (image - found);
    if |found| == |unique| {
      SubsetOfEqualSize(found, image);
      assert forall t :: t in raw ==> t in unique && canon(t) in image && canon(t) in found;
    }
    if forall t :: t in raw ==> LiveTag(db, canon(t)) && Visible(db.tags[canon(t)].owner, owner) {
      assert forall x :: x in image ==> x in found;
      assert found == image;
    }
  }

  /** With every identifier in its canonical spelling this is the check the other use cases are modelled with. */
  lemma CanonicalSpelling(db: Db, raw: seq<string>, canon: string -> Id, owner: Id)
    requires forall t :: t in raw ==> canon(t) == t
    ensures ResolveSpelled(db, raw, canon, owner) == ResolveTags(db, raw, owner)
  {
    var unique := set t | t in raw;
    assert (set t | t in unique :: canon(t)) == unique;
  }

  /* ---------- Requests ---------- */

  datatype Transaction = Transaction(fitid: string, amount: int, description: string, postedAt: int)

  datatype Request =
    | Create(account: Id, user: Id, typ: string, amount: int, description: string, postedAt: Option<int>,
             category: Option<Id>, tagIds: seq<Id>, id: Id, now: int)
    | Reverse(account: Id, user: Id, statement: Id, description: string, id: Id, now: int)
    | Import(account: Id, user: Id, transactions: seq<Transaction>, ids: seq<Id>, now: int)

  /** The snapshot behind each repository call of one use case. */
  datatype Snapshots = Snapshots(accounts: Db, statements: Db, categories: Db, tags: Db, writer: Db)

  function PrepareCreate(seen: Snapshots, req: Request): Result<seq<Statement>>
    requires req.Create?
  {
    var owner := Authorize(seen.accounts, req.account, req.user);
    if owner.Err? then Err(owner.error)
    else
      var typ := NewStatementType(req.typ);
      if typ.Err? then Err(typ.error)
      else if req.amount <= 0 then Err(InvalidAmount)
      else
        var category := ResolveCategory(seen.categories, req.category, owner.value, typ.value);
        if category.Err? then Err(category.error)
        else
          var tags := ResolveTags(seen.tags, req.tagIds, owner.value);
          if tags.Err? then Err(tags.error)
          else
            Ok([Statement(req.id, req.account, typ.value, req.amount, req.description, None, None, 0,
                          if req.postedAt.Some? then req.postedAt.value else req.now, req.now,
                          category.value, tags.value)])
  }

  function FindStatement(log: seq<Statement>, id: Id): (r: Option<Statement>)
    ensures r.Some? <==> HasStatement(log, id)
    ensures r.Some? ==> r.value in log && r.value.id == id
  {
    if log == [] then None
    else
      var last := log[|log| - 1];
      if last.id == id then Some(last)
      else
        var r := FindStatement(log[..|log| - 1], id);
        assert HasStatement(log, id) ==> HasStatement(log[..|log| - 1], id) by {
          if HasStatement(log, id) {
            var i :| 0 <= i < |log| && log[i].id == id;
            assert log[..|log| - 1][i] == log[i];
          }
        }
        r
  }

  predicate HasReversal(log: seq<Statement>, id: Id) {
    exists i :: 0 <= i < |log| && log[i].reference == Some(id)
  }

  function PrepareReverse(seen: Snapshots, req: Request): Result<seq<Statement>>
    requires req.Reverse?
  {
    var owner := Authorize(seen.accounts, req.account, req.user);
    if owner.Err? then Err(owner.error)
    else
      var original := FindStatement(seen.statements.log, req.statement);
      if original.None? || original.value.account != req.account then Err(StatementNotFound)
      else if HasReversal(seen.writer.log, req.statement) then Err(AlreadyReversed)
      else
        var typ := original.value.typ.Opposite();
        var description := if req.description == "" then "Reversal of statement " + req.statement else req.description;
        Ok([Statement(req.id, req.account, typ, original.value.amount, description,
                      Some(req.statement), None, 0, req.now, req.now, Some(EstornoId(typ)), {})])
  }

  /** FindExternalIDs: those of the file's FITIDs that the account already holds. */
  function ExistingIds(log: seq<Statement>, account: Id, transactions: seq<Transaction>): set<string> {
    set i | 0 <= i < |transactions| && transactions[i].fitid != "" && Holds(log, account, transactions[i].fitid)
          :: transactions[i].fitid
  }

  predicate Holds(log: seq<Statement>, account: Id, external: string) {
    exists i :: 0 <= i < |log| && log[i].account == account && log[i].external == Some(external)
  }

  predicate Skipped(existing: set<string>, txn: Transaction) {
    (txn.fitid != "" && txn.fitid in existing) || txn.amount == 0
  }

  function MapTransaction(txn: Transaction, account: Id, id: Id, now: int): Result<Statement> {
    var typ := if txn.amount >= 0 then Credit else Debit;
    var cents := if txn.amount < 0 then Wrap(-txn.amount) else txn.amount;
    if cents <= 0 then Err(InvalidAmount)
    else
      var external := if txn.fitid != "" then Some(txn.fitid) else None;
      Ok(Statement(id, account, typ, cents, txn.description, None, external, 0, txn.postedAt, now, None, {}))
  }

  /** The statements an import creates, in file order. */
  function ImportDrafts(existing: set<string>, account: Id, txns: seq<Transaction>, ids: seq<Id>, now: int): Result<seq<Statement>>
    requires |txns| <= |ids|
  {
    if txns == [] then Ok([])
    else
      var n := |txns| - 1;
      var before := ImportDrafts(existing, account, txns[..n], ids, now);
      if before.Err? || Skipped(existing, txns[n]) then before
      else
        var s := MapTransaction(txns[n], account, ids[n], now);
        if s.Err? then Err(s.error) else Ok(before.value + [s.value])
  }

  function PrepareImport(seen: Snapshots, req: Request): Result<seq<Statement>>
    requires req.Import? && |req.transactions| <= |req.ids|
  {
    var owner := Authorize(seen.accounts, req.account, req.user);
    if owner.Err? then Err(owner.error)
    else
      ImportDrafts(ExistingIds(seen.writer.log, req.account, req.transactions), req.account, req.transactions, req.ids, req.now)
  }

  predicate WellFormed(req: Request) {
    req.Import? ==> |req.transactions| <= |req.ids|
  }

  function Prepare(seen: Snapshots, req: Request): Result<seq<Statement>>
    requires WellFormed(req)
  {
    match req
    case Create(_, _, _, _, _, _, _, _, _, _) => PrepareCreate(seen, req)
    case Reverse(_, _, _, _, _, _) => PrepareReverse(seen, req)
    case Import(_, _, _, _, _) => PrepareImport(seen, req)
  }

  /** The use case behind UpdateCategory: the checks it makes before the UPDATE. */
  function PrepareCategory(seen: Snapshots, user: Id, statement: Id, category: Option<Id>): Result<Option<Id>> {
    var s := FindStatement(seen.statements.log, statement);
    if s.None? then Err(StatementNotFound)
    else
      var owner := Authorize(seen.accounts, s.value.account, user);
      if owner.Err? then Err(owner.error)
      else ResolveCategory(seen.categories, category, owner.value, s.value.typ)
  }

  /** The use case behind ReplaceTags: the tag set it hands to the repository. */
  function PrepareTags(seen: Snapshots, user: Id, statement: Id, tagIds: seq<Id>): Result<set<Id>> {
    var s := FindStatement(seen.statements.log, statement);
    if s.None? then Err(StatementNotFound)
    else
      var owner := Authorize(seen.accounts, s.value.account, user);
      if owner.Err? then Err(owner.error)
      else ResolveTags(seen.tags, tagIds, owner.value)
  }

  /** Category rename and delete: system defaults are read-only, other users' are hidden. */
  function OwnCategory(db: Db, id: Id, user: Id): Result<Category> {
    if !LiveCategory(db, id) then Err(CategoryNotFound)
    else if db.categories[id].owner.None? then Err(CategoryReadOnly)
    else if db.categories[id].owner.value != user then Err(CategoryNotFound)
    else Ok(db.categories[id])
  }

  function PrepareCategoryDelete(found: Db, counted: Db, id: Id, user: Id): Result<Category> {
    var c := OwnCategory(found, id, user);
    if c.Err? then c
    else if exists i :: 0 <= i < |counted.log| && counted.log[i].category == Some(id) then Err(CategoryInUse)
    else c
  }
}
