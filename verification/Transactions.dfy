/**
 Any number of Create/CreateBatch transactions, tag replacements and
 single-statement writes running at once against one database. Each SQL
 statement is one step. A transaction owns its account row from SELECT ... FOR
 UPDATE to the end, an insert waits for uncommitted rows it would collide with,
 and a delete waits for uncommitted rows that reference it. A step that is not
 enabled waits; a transaction may roll back before any step.
 */
module Transactions {
  import opened Int64
  import opened Wrappers
  import opened Ledger
  import opened Accounting
  import opened UseCases
  import opened Consistency

  type TxId = nat

  datatype Phase = Begun | Locked | Inserted | Tagged | Updated

  datatype Tx = Tx(account: Id, batch: seq<Statement>, phase: Phase, balance: int, rows: seq<Statement>, newBalance: int)
  {
    predicate HoldsLock() { !phase.Begun? }
    predicate HasRows() { !phase.Begun? && !phase.Locked? }
    predicate HasTags() { phase.Tagged? || phase.Updated? }
  }

  /** A ReplaceTags transaction between its DELETE and its commit. removed: the rows that its DELETE saw and that
      nobody else has deleted since. A DELETE that waited for another one skips the rows which that one deleted, and
      does not see rows put back in their place. */
  datatype TagCall = TagCall(statement: Id, removed: set<Id>, added: set<Id>)

  datatype State = State(
    db: Db,                      // committed
    past: seq<Db>,               // every committed state so far, the current one last
    history: seq<Op>,            // committed operations, in commit order
    txs: map<TxId, Tx>,
    tagCalls: map<TxId, TagCall>,
    overlapped: bool)            // some ReplaceTags committed over tags its DELETE had not seen

  /** Which committed state each read of a use case saw; readers may lag. */
  datatype Ages = Ages(accounts: nat, statements: nat, categories: nat, tags: nat, writer: nat)

  datatype Step =
    | Begin(tx: TxId, req: Request, ages: Ages)
    | Lock(tx: TxId)
    | Insert(tx: TxId)
    | InsertTags(tx: TxId)
    | UpdateBalance(tx: TxId)
    | Commit(tx: TxId)
    | Rollback(tx: TxId)
    | StartTags(tx: TxId, user: Id, statement: Id, tagIds: seq<Id>, ages: Ages)
    | CommitTags(tx: TxId)
    | RollbackTags(tx: TxId)
    | ChangeCategory(user: Id, statement: Id, category: Option<Id>, ages: Ages)
    | DropCategory(id: Id, user: Id, ages: Ages)
    | Write(op: Op)              // account, category and tag writes that only look at their own row

  predicate InPast(s: State, ages: Ages) {
    ages.accounts < |s.past| && ages.statements < |s.past| && ages.categories < |s.past|
    && ages.tags < |s.past| && ages.writer < |s.past|
  }

  function See(s: State, ages: Ages): Snapshots
    requires InPast(s, ages)
  {
    Snapshots(s.past[ages.accounts], s.past[ages.statements], s.past[ages.categories], s.past[ages.tags], s.past[ages.writer])
  }

  predicate LockFree(s: State, account: Id) {
    forall u :: u in s.txs && s.txs[u].account == account ==> !s.txs[u].HoldsLock()
  }

  predicate RowsClash(a: seq<Statement>, b: seq<Statement>) {
    exists i, j :: 0 <= i < |a| && 0 <= j < |b| && Clash(a[i], b[j])
  }

  /** No uncommitted row of another transaction stands in the way. */
  predicate NothingPending(s: State, t: TxId, rows: seq<Statement>) {
    forall u :: u in s.txs && u != t && s.txs[u].HasRows() ==> !RowsClash(s.txs[u].rows, rows)
  }

  predicate UsesCategory(tx: Tx, c: Id) {
    tx.HasRows() && exists i :: 0 <= i < |tx.rows| && tx.rows[i].category == Some(c)
  }

  predicate UsesTag(tx: Tx, t: Id) {
    tx.HasTags() && exists i :: 0 <= i < |tx.rows| && t in tx.rows[i].tags
  }

  /** What a write has to wait for. */
  predicate Unblocked(s: State, op: Op) {
    match op
    case UpdateAccount(id, _, _) => LockFree(s, id)
    case DeleteAccount(id) => LockFree(s, id)
    case DeleteCategory(id) => forall u :: u in s.txs ==> !UsesCategory(s.txs[u], id)
    case DeleteTag(id) => forall u :: u in s.txs ==> !UsesTag(s.txs[u], id)
    case _ => true
  }

  function TagsOf(log: seq<Statement>, statement: Id): set<Id> {
    var s := FindStatement(log, statement);
    if s.Some? then s.value.tags else {}
  }

  predicate Enabled(s: State, step: Step) {
    match step
    case Begin(t, req, ages) =>
      t !in s.txs && InPast(s, ages) && WellFormed(req)
      && var batch := Prepare(See(s, ages), req); batch.Ok? && batch.value != []
    case Lock(t) =>
      t in s.txs && s.txs[t].phase.Begun? && s.txs[t].account in s.db.accounts && LockFree(s, s.txs[t].account)
    case Insert(t) =>
      t in s.txs && s.txs[t].phase.Locked?
      && |s.txs[t].batch| <= MAX_BATCH
      && var rows := Rows(s.txs[t].balance, s.txs[t].batch); RowsOk(s.db, rows) && NothingPending(s, t, rows)
    case InsertTags(t) => t in s.txs && s.txs[t].phase.Inserted? && TagRowsOk(s.db, s.txs[t].rows)
    case UpdateBalance(t) => t in s.txs && s.txs[t].phase.Tagged?
    case Commit(t) =>
      t in s.txs && s.txs[t].phase.Updated? && s.txs[t].account in s.db.accounts
      && Apply(s.db, PostStatements(s.txs[t].account, s.txs[t].batch)).Ok?
    case Rollback(t) => t in s.txs
    case StartTags(t, user, statement, tagIds, ages) =>
      t !in s.tagCalls && InPast(s, ages) && PrepareTags(See(s, ages), user, statement, tagIds).Ok?
      && HasStatement(s.db.log, statement)
    case CommitTags(t) => t in s.tagCalls && Apply(s.db, TagOp(s.tagCalls[t])).Ok?
    case RollbackTags(t) => t in s.tagCalls
    case ChangeCategory(user, statement, category, ages) =>
      InPast(s, ages)
      && var c := PrepareCategory(See(s, ages), user, statement, category);
      c.Ok? && Apply(s.db, SetCategory(statement, c.value)).Ok?
    case DropCategory(id, user, ages) =>
      InPast(s, ages) && PrepareCategoryDelete(s.past[ages.categories], s.past[ages.statements], id, user).Ok?
      && Unblocked(s, DeleteCategory(id)) && Apply(s.db, DeleteCategory(id)).Ok?
    case Write(op) =>
      !op.PostStatements? && !op.SetCategory? && !op.EditTags? && !op.DeleteCategory?
      && Unblocked(s, op) && Apply(s.db, op).Ok?
  }

  function TagOp(call: TagCall): Op {
    EditTags(call.statement, call.removed, call.added)
  }

  /** The tag rows that an operation deletes from a statement. */
  function Deleted(op: Op, statement: Id): set<Id> {
    match op
    case EditTags(s, removed, _) => if s == statement then removed else {}
    case DeleteTag(id) => {id}
    case _ => {}
  }

  function Spared(call: TagCall, op: Op): TagCall {
    call.(removed := call.removed - Deleted(op, call.statement))
  }

  /** Records a committed database; what the operation deleted is no longer there for a pending DELETE. */
  function Committed(s: State, op: Op, db: Db): State {
    s.(db := db, past := s.past + [db], history := s.history + [op],
       tagCalls := map t | t in s.tagCalls :: Spared(s.tagCalls[t], op))
  }

  function Do(s: State, step: Step): State
    requires Enabled(s, step)
  {
    match step
    case Begin(t, req, ages) =>
      s.(txs := s.txs[t := Tx(req.account, Prepare(See(s, ages), req).value, Begun, 0, [], 0)])
    case Lock(t) =>
      var tx := s.txs[t];
      s.(txs := s.txs[t := tx.(phase := Locked, balance := s.db.accounts[tx.account].balance)])
    case Insert(t) =>
      var tx := s.txs[t];
      s.(txs := s.txs[t := tx.(phase := Inserted, rows := Rows(tx.balance, tx.batch), newBalance := Final(tx.balance, tx.batch))])
    case InsertTags(t) => s.(txs := s.txs[t := s.txs[t].(phase := Tagged)])
    case UpdateBalance(t) => s.(txs := s.txs[t := s.txs[t].(phase := Updated)])
    case Commit(t) =>
      var tx := s.txs[t];
      Committed(s, PostStatements(tx.account, tx.batch), Settle(s.db, tx.account, tx.rows, tx.newBalance)).(txs := s.txs - {t})
    case Rollback(t) => s.(txs := s.txs - {t})
    case StartTags(t, user, statement, tagIds, ages) =>
      s.(tagCalls := s.tagCalls[t := TagCall(statement, TagsOf(s.db.log, statement),
                                             PrepareTags(See(s, ages), user, statement, tagIds).value)])
    case CommitTags(t) =>
      var call := s.tagCalls[t];
      Committed(s.(tagCalls := s.tagCalls - {t}), TagOp(call), Apply(s.db, TagOp(call)).value)
      .(overlapped := s.overlapped || !(TagsOf(s.db.log, call.statement) <= call.removed))
    case RollbackTags(t) => s.(tagCalls := s.tagCalls - {t})
    case ChangeCategory(user, statement, category, ages) =>
      var op := SetCategory(statement, PrepareCategory(See(s, ages), user, statement, category).value);
      Committed(s, op, Apply(s.db, op).value)
    case DropCategory(id, user, ages) => Committed(s, DeleteCategory(id), Apply(s.db, DeleteCategory(id)).value)
    case Write(op) => Committed(s, op, Apply(s.db, op).value)
  }

  /* ---------- Runs ---------- */

  /** What the migrations leave: no account, no statement, and default categories and tags, the two Estornos
      among them. */
  ghost predicate Initial(s: State) {
    && s == State(s.db, [s.db], [], map[], map[], false)
    && s.db.accounts == map[] && s.db.log == [] && Seeded(s.db)
  }

  /** An interleaving: the states it passes through and the steps between them. */
  datatype Run = Run(states: seq<State>, steps: seq<Step>)
  {
    ghost predicate StepAt(i: nat)
      requires i < |steps| < |states|
    {
      Enabled(states[i], steps[i]) && states[i + 1] == Do(states[i], steps[i])
    }

    ghost predicate Valid() {
      && |states| == |steps| + 1
      && Initial(states[0])
      && forall i :: 0 <= i < |steps| ==> StepAt(i)
    }

    function Last(): State
      requires states != []
    {
      states[|states| - 1]
    }
  }

  /* ---------- The invariant ---------- */

  ghost predicate TxSound(db: Db, tx: Tx) {
    && tx.batch != []
    && Suits(db, PostStatements(tx.account, tx.batch))
    && (tx.HoldsLock() ==> tx.account in db.accounts && tx.balance == db.accounts[tx.account].balance)
    && (tx.HasRows() ==>
          && |tx.batch| <= MAX_BATCH
          && tx.rows == Rows(tx.balance, tx.batch) && tx.newBalance == Final(tx.balance, tx.batch)
          && RowsOk(db, tx.rows))
    && (tx.HasTags() ==> TagRowsOk(db, tx.rows))
  }

  ghost predicate Apart(a: Tx, b: Tx) {
    && (a.HoldsLock() && b.HoldsLock() ==> a.account != b.account)
    && (a.HasRows() && b.HasRows() ==> !RowsClash(a.rows, b.rows))
  }

  ghost predicate TxsSound(db: Db, txs: map<TxId, Tx>) {
    && (forall t :: t in txs ==> TxSound(db, txs[t]))
    && (forall t, u :: t in txs && u in txs && t != u ==> Apart(txs[t], txs[u]))
  }

  ghost predicate CallSound(db: Db, call: TagCall) {
    CallSuits(db, call) && call.removed <= TagsOf(db.log, call.statement)
  }

  ghost predicate CallSuits(db: Db, call: TagCall) {
    HasStatement(db.log, call.statement) && Suits(db, TagOp(call))
  }

  ghost predicate HistorySound(s: State) {
    && |s.past| == |s.history| + 1
    && s.past[|s.history|] == s.db
    && (forall i :: 0 <= i < |s.past| ==> Extends(s.past[i], s.db))
    && Replay(s.past[0], s.history) == Ok(s.db)
  }

  ghost predicate Inv(s: State) {
    && HistorySound(s)
    && Consistent(s.db)
    && TxsSound(s.db, s.txs)
    && (forall t :: t in s.tagCalls ==> CallSound(s.db, s.tagCalls[t]))
    && (!s.overlapped ==> TagsCapped(s.db))
  }

  /* ---------- Waiting keeps checked constraints true ---------- */

  lemma ClashSymmetric(a: seq<Statement>, b: seq<Statement>)
    ensures RowsClash(a, b) <==> RowsClash(b, a)
  {
    if RowsClash(a, b) {
      var i, j :| 0 <= i < |a| && 0 <= j < |b| && Clash(a[i], b[j]);
      assert Clash(b[j], a[i]);
    }
    if RowsClash(b, a) {
      var i, j :| 0 <= i < |b| && 0 <= j < |a| && Clash(b[i], a[j]);
      assert Clash(a[j], b[i]);
    }
  }

  lemma DistinctThree(log: seq<Statement>, a: seq<Statement>, b: seq<Statement>)
    requires Distinct(log + a) && Distinct(log + b) && !RowsClash(a, b)
    ensures Distinct(log + a + b)
  {
    var all := log + a + b;
    var n := |log| + |a|;
    forall i, j | 0 <= i < j < |all| ensures !Clash(all[i], all[j]) {
      if j < n {
        assert (log + a)[i] == all[i] && (log + a)[j] == all[j];
      } else if i < |log| {
        assert (log + b)[i] == all[i] && (log + b)[j - |a|] == all[j];
      } else if i < n {
        assert all[i] == a[i - |log|] && all[j] == b[j - n];
      } else {
        assert (log + b)[i - |a|] == all[i] && (log + b)[j - |a|] == all[j];
      }
    }
  }

  lemma HasStatementLater(log: seq<Statement>, more: seq<Statement>, id: Id)
    requires HasStatement(log, id)
    ensures HasStatement(log + more, id)
  {
    var i :| 0 <= i < |log| && log[i].id == id;
    assert (log + more)[i].id == id;
  }

  lemma RowsOkAfterPost(db: Db, account: Id, posted: seq<Statement>, balance: int, rows: seq<Statement>)
    requires account in db.accounts
    requires RowsOk(db, posted) && RowsOk(db, rows) && !RowsClash(posted, rows)
    ensures RowsOk(Settle(db, account, posted, balance), rows)
  {
    DistinctThree(db.log, posted, rows);
    forall r | r in rows ensures RowOk(Settle(db, account, posted, balance), r) {
      assert RowOk(db, r);
      if r.reference.Some? { HasStatementLater(db.log, posted, r.reference.value); }
    }
  }

  lemma SameBooksSameIds(log: seq<Statement>, other: seq<Statement>, id: Id)
    requires SameBooks(log, other) && HasStatement(log, id)
    ensures HasStatement(other, id)
  {
    var i :| 0 <= i < |log| && log[i].id == id;
    assert SameAccounting(log[i], other[i]);
  }

  lemma RowsOkAfterWrite(db: Db, op: Op, rows: seq<Statement>)
    requires !op.PostStatements? && Apply(db, op).Ok? && RowsOk(db, rows)
    requires op.DeleteCategory? ==> forall i :: 0 <= i < |rows| ==> rows[i].category != Some(op.id)
    ensures RowsOk(Apply(db, op).value, rows)
  {
    var next := Apply(db, op).value;
    MetadataKeepsBooks(db, op);
    var all, now := db.log + rows, next.log + rows;
    forall i | 0 <= i < |all| ensures SameAccounting(all[i], now[i]) {
      if i < |db.log| { assert SameAccounting(db.log[i], next.log[i]); }
    }
    assert Distinct(now);
    forall r | r in rows ensures RowOk(next, r) {
      assert RowOk(db, r);
      if r.reference.Some? { SameBooksSameIds(db.log, next.log, r.reference.value); }
    }
  }

  lemma TagRowsOkAfterWrite(db: Db, op: Op, rows: seq<Statement>)
    requires !op.PostStatements? && Apply(db, op).Ok? && TagRowsOk(db, rows)
    requires op.DeleteTag? ==> forall i :: 0 <= i < |rows| ==> op.id !in rows[i].tags
    ensures TagRowsOk(Apply(db, op).value, rows)
  {
    forall r, t | r in rows && t in r.tags ensures LiveTag(Apply(db, op).value, t) {
      assert LiveTag(db, t);
    }
  }

  /** A transaction in flight is not disturbed by a write that did not have to wait for it. */
  lemma TxSoundAfterWrite(db: Db, op: Op, tx: Tx)
    requires !op.PostStatements? && Apply(db, op).Ok? && TxSound(db, tx)
    requires op.DeleteCategory? ==> !UsesCategory(tx, op.id)
    requires op.DeleteTag? ==> !UsesTag(tx, op.id)
    ensures TxSound(Apply(db, op).value, tx)
  {
    var next := Apply(db, op).value;
    ApplyExtends(db, op);
    forall d | d in tx.batch ensures DraftSuits(next, tx.account, d) { DraftSuitsLater(db, next, tx.account, d); }
    MetadataKeepsBooks(db, op);
    if tx.HasRows() { RowsOkAfterWrite(db, op, tx.rows); }
    if tx.HasTags() { TagRowsOkAfterWrite(db, op, tx.rows); }
  }

  /** Nor by another transaction's commit. */
  lemma TxSoundAfterCommit(db: Db, tx: Tx, other: Tx)
    requires TxSound(db, tx) && TxSound(db, other) && Apart(tx, other) && tx.phase.Updated?
    ensures TxSound(Settle(db, tx.account, tx.rows, tx.newBalance), other)
  {
    var next := Settle(db, tx.account, tx.rows, tx.newBalance);
    CommitIsPost(db, tx);
    ApplyExtends(db, PostStatements(tx.account, tx.batch));
    forall d | d in other.batch ensures DraftSuits(next, other.account, d) { DraftSuitsLater(db, next, other.account, d); }
    if other.HasRows() {
      RowsOkAfterPost(db, tx.account, tx.rows, tx.newBalance, other.rows);
    }
    if other.HasTags() {
      forall r, t | r in other.rows && t in r.tags ensures LiveTag(next, t) { assert LiveTag(db, t); }
    }
  }

  /** What a transaction assembled step by step is what it would write if it ran alone now. */
  lemma CommitIsPost(db: Db, tx: Tx)
    requires TxSound(db, tx) && tx.phase.Updated?
    ensures Apply(db, PostStatements(tx.account, tx.batch)) == Ok(Settle(db, tx.account, tx.rows, tx.newBalance))
  {
  }

  /* ---------- Every step keeps the invariant ---------- */

  lemma HistoryGrows(s: State, op: Op, db: Db)
    requires HistorySound(s) && Apply(s.db, op) == Ok(db)
    ensures HistorySound(Committed(s, op, db))
  {
    var next := Committed(s, op, db);
    ApplyExtends(s.db, op);
    forall i | 0 <= i < |next.past| ensures Extends(next.past[i], db) {
      if i < |s.past| {
        assert next.past[i] == s.past[i];
        ExtendsTransitive(s.past[i], s.db, db);
      } else {
        assert next.past[i] == db && db.log[..|db.log|] == db.log;
      }
    }
    assert next.history[..|next.history| - 1] == s.history;
  }

  lemma CallSuitsLater(db: Db, op: Op, call: TagCall)
    requires Apply(db, op).Ok? && CallSuits(db, call) && Distinct(Apply(db, op).value.log)
    ensures CallSuits(Apply(db, op).value, call)
  {
    var next := Apply(db, op).value;
    ApplyExtends(db, op);
    EditTagsSuitsLater(db, next, TagOp(call));
    if op.PostStatements? {
      if op.batch != [] { HasStatementLater(db.log, Rows(db.accounts[op.account].balance, op.batch), call.statement); }
    } else {
      MetadataKeepsBooks(db, op);
      SameBooksSameIds(db.log, next.log, call.statement);
    }
  }

  lemma RowTagsLater(db: Db, op: Op, i: nat)
    requires Apply(db, op).Ok? && i < |db.log|
    ensures var next := Apply(db, op).value;
            && i < |next.log| && next.log[i].id == db.log[i].id
            && next.log[i].tags == db.log[i].tags - Deleted(op, db.log[i].id) + AddedTo(op, db.log[i].id)
  {
    hide Rows, Final, RowsOk, TagRowsOk;
  }

  /** The tag rows that an operation adds to a statement that is there. */
  function AddedTo(op: Op, statement: Id): set<Id> {
    if op.EditTags? && op.statement == statement then op.added else {}
  }

  /** The tags an operation leaves on a statement. */
  lemma TagsLater(db: Db, op: Op, statement: Id)
    requires Apply(db, op).Ok? && Distinct(db.log) && Distinct(Apply(db, op).value.log) && HasStatement(db.log, statement)
    ensures TagsOf(Apply(db, op).value.log, statement) == TagsOf(db.log, statement) - Deleted(op, statement) + AddedTo(op, statement)
  {
    hide Apply, Deleted, AddedTo, TagsOf, Distinct;
    var next := Apply(db, op).value;
    var i :| 0 <= i < |db.log| && db.log[i].id == statement;
    RowTagsLater(db, op, i);
    TagsOfRow(db.log, i);
    TagsOfRow(next.log, i);
  }

  lemma CallSoundLater(db: Db, op: Op, call: TagCall)
    requires Apply(db, op).Ok? && CallSound(db, call) && Distinct(db.log) && Distinct(Apply(db, op).value.log)
    ensures CallSound(Apply(db, op).value, Spared(call, op))
  {
    hide Apply, TagsOf, Deleted, AddedTo;
    CallSuitsLater(db, op, call);
    TagsLater(db, op, call.statement);
  }

  /** A write that waited where it had to and suits the database keeps everything but the tag cap. */
  lemma WriteKeeps(s: State, op: Op)
    requires Inv(s) && !op.PostStatements? && Unblocked(s, op) && Apply(s.db, op).Ok? && Suits(s.db, op)
    ensures var db := Apply(s.db, op).value;
            && HistorySound(Committed(s, op, db))
            && Consistent(db)
            && TxsSound(db, s.txs)
            && (forall t :: t in s.tagCalls ==> CallSound(db, Spared(s.tagCalls[t], op)))
  {
    var db := Apply(s.db, op).value;
    HistoryGrows(s, op, db);
    ApplyKeepsConsistent(s.db, op);
    forall t | t in s.txs ensures TxSound(db, s.txs[t]) { TxSoundAfterWrite(s.db, op, s.txs[t]); }
    forall t | t in s.tagCalls ensures CallSound(db, Spared(s.tagCalls[t], op)) { CallSoundLater(s.db, op, s.tagCalls[t]); }
  }

  lemma SeePast(s: State, ages: Ages)
    requires HistorySound(s) && InPast(s, ages)
    ensures Past(See(s, ages), s.db)
  {
  }

  lemma TagsOfRow(log: seq<Statement>, i: nat)
    requires Distinct(log) && i < |log|
    ensures TagsOf(log, log[i].id) == log[i].tags
  {
    var found := FindStatement(log, log[i].id).value;
    var k :| 0 <= k < |log| && log[k] == found;
    UniqueById(log, i, k);
  }

  lemma TxChangeKeepsInv(s: State, t: TxId, tx: Tx)
    requires Inv(s) && TxSound(s.db, tx)
    requires forall u :: u in s.txs && u != t ==> Apart(tx, s.txs[u])
    ensures Inv(s.(txs := s.txs[t := tx]))
  {
    forall u | u in s.txs && u != t ensures Apart(s.txs[u], tx) {
      assert Apart(tx, s.txs[u]);
      ClashSymmetric(tx.rows, s.txs[u].rows);
    }
  }

  lemma BeginKeepsInv(s: State, step: Step)
    requires Inv(s) && step.Begin? && Enabled(s, step)
    ensures Inv(Do(s, step))
  {
    SeePast(s, step.ages);
    PrepareSuits(See(s, step.ages), step.req, s.db);
    var tx := Do(s, step).txs[step.tx];
    assert TxSound(s.db, tx);
    TxChangeKeepsInv(s, step.tx, tx);
  }

  lemma LockKeepsInv(s: State, step: Step)
    requires Inv(s) && step.Lock? && Enabled(s, step)
    ensures Inv(Do(s, step))
  {
    var t := step.tx;
    var tx := Do(s, step).txs[t];
    assert TxSound(s.db, s.txs[t]);
    forall u | u in s.txs && u != t ensures Apart(tx, s.txs[u]) { assert Apart(s.txs[t], s.txs[u]); }
    TxChangeKeepsInv(s, t, tx);
  }

  lemma InsertKeepsInv(s: State, step: Step)
    requires Inv(s) && step.Insert? && Enabled(s, step)
    ensures Inv(Do(s, step))
  {
    var t := step.tx;
    var tx := Do(s, step).txs[t];
    assert TxSound(s.db, s.txs[t]);
    forall u | u in s.txs && u != t ensures Apart(tx, s.txs[u]) {
      assert Apart(s.txs[t], s.txs[u]);
      ClashSymmetric(s.txs[u].rows, tx.rows);
    }
    TxChangeKeepsInv(s, t, tx);
  }

  lemma LatePhaseKeepsInv(s: State, step: Step)
    requires Inv(s) && (step.InsertTags? || step.UpdateBalance?) && Enabled(s, step)
    ensures Inv(Do(s, step))
  {
    var t := step.tx;
    var tx := Do(s, step).txs[t];
    assert TxSound(s.db, s.txs[t]);
    forall u | u in s.txs && u != t ensures Apart(tx, s.txs[u]) { assert Apart(s.txs[t], s.txs[u]); }
    TxChangeKeepsInv(s, t, tx);
  }

  lemma CommitKeepsInv(s: State, step: Step)
    requires Inv(s) && step.Commit? && Enabled(s, step)
    ensures Inv(Do(s, step))
  {
    var tx := s.txs[step.tx];
    var op := PostStatements(tx.account, tx.batch);
    var next := Do(s, step);
    CommitIsPost(s.db, tx);
    HistoryGrows(s, op, next.db);
    ApplyKeepsConsistent(s.db, op);
    forall u | u in next.txs ensures TxSound(next.db, next.txs[u]) {
      assert Apart(tx, s.txs[u]);
      TxSoundAfterCommit(s.db, tx, s.txs[u]);
    }
    forall t | t in s.tagCalls ensures CallSound(next.db, next.tagCalls[t]) { CallSoundLater(s.db, op, s.tagCalls[t]); }
    if !s.overlapped { ApplyKeepsCap(s.db, op); }
  }

  lemma StartTagsKeepsInv(s: State, step: Step)
    requires Inv(s) && Enabled(s, step) && step.StartTags?
    ensures Inv(Do(s, step))
  {
    hide PrepareTags, TagsOf, Apply, Suits, HistorySound, TxsSound, TagsCapped, BooksHold, ReversalsSound, CategoriesSound, TagsSound;
    assert Distinct(s.db.log);
    SeePast(s, step.ages);
    PrepareTagsSuits(See(s, step.ages), step.user, step.statement, step.tagIds, TagsOf(s.db.log, step.statement), s.db);
    SameHistory(s, Do(s, step));
  }

  /** What the DELETE saw covers the statement's tags, so the cap survives. */
  lemma UnoverlappedKeepsCap(db: Db, call: TagCall)
    requires Distinct(db.log) && TagsCapped(db) && Suits(db, TagOp(call)) && Apply(db, TagOp(call)).Ok?
    requires TagsOf(db.log, call.statement) <= call.removed
    ensures TagsCapped(Apply(db, TagOp(call)).value)
  {
    forall i | 0 <= i < |db.log| && db.log[i].id == call.statement ensures db.log[i].tags <= call.removed {
      TagsOfRow(db.log, i);
    }
    ApplyKeepsCap(db, TagOp(call));
  }

  lemma CommitTagsWrites(s: State, step: Step)
    requires Inv(s) && Enabled(s, step) && step.CommitTags?
    ensures step.tx in s.tagCalls
    ensures var call := s.tagCalls[step.tx]; var op := TagOp(call); var next := Do(s, step);
            && Suits(s.db, op) && Unblocked(s, op) && Apply(s.db, op).Ok?
            && next == Committed(s, op, Apply(s.db, op).value).(tagCalls := next.tagCalls, overlapped := next.overlapped)
            && (forall t :: t in next.tagCalls ==> t in s.tagCalls && next.tagCalls[t] == Spared(s.tagCalls[t], op))
            && (!next.overlapped ==> !s.overlapped && TagsOf(s.db.log, call.statement) <= call.removed)
  {
    assert CallSound(s.db, s.tagCalls[step.tx]);
  }

  lemma SameHistory(a: State, b: State)
    requires HistorySound(a) && a.db == b.db && a.past == b.past && a.history == b.history
    ensures HistorySound(b)
  {
  }

  lemma CommitTagsKeepsInv(s: State, step: Step)
    requires Inv(s) && Enabled(s, step) && step.CommitTags?
    ensures Inv(Do(s, step))
  {
    hide TxsSound, HistorySound, CallSound, TagsCapped, Apply, Suits, Unblocked, Do, Enabled, TagsOf, BooksHold, CategoriesSound, TagsSound;
    CommitTagsWrites(s, step);
    var call := s.tagCalls[step.tx];
    WriteKeeps(s, TagOp(call));
    SameHistory(Committed(s, TagOp(call), Apply(s.db, TagOp(call)).value), Do(s, step));
    if !Do(s, step).overlapped { UnoverlappedKeepsCap(s.db, call); }
  }

  lemma OwnedLater(before: Db, after: Db, category: Id)
    requires Extends(before, after) && category in before.categories && before.categories[category].owner.Some?
    ensures category in after.categories && after.categories[category].owner.Some?
  {
  }

  /** The operation behind a single-statement write. */
  function WriteOp(s: State, step: Step): Op
    requires Enabled(s, step) && (step.ChangeCategory? || step.DropCategory? || step.Write?)
  {
    match step
    case ChangeCategory(user, statement, category, ages) =>
      SetCategory(statement, PrepareCategory(See(s, ages), user, statement, category).value)
    case DropCategory(id, _, _) => DeleteCategory(id)
    case Write(op) => op
  }

  lemma WriteSuits(s: State, step: Step)
    requires Inv(s) && Enabled(s, step) && (step.ChangeCategory? || step.DropCategory? || step.Write?)
    ensures var op := WriteOp(s, step);
            Suits(s.db, op) && Unblocked(s, op) && Apply(s.db, op).Ok? && !op.PostStatements? && !op.EditTags?
            && Do(s, step) == Committed(s, op, Apply(s.db, op).value)
  {
    if step.ChangeCategory? {
      SeePast(s, step.ages);
      PrepareCategorySuits(See(s, step.ages), step.user, step.statement, step.category, s.db);
    } else if step.DropCategory? {
      PastExtends(s, step.ages.categories);
      OwnedLater(s.past[step.ages.categories], s.db, step.id);
    }
  }

  lemma WriteStepKeepsInv(s: State, step: Step)
    requires Inv(s) && Enabled(s, step) && (step.ChangeCategory? || step.DropCategory? || step.Write?)
    ensures Inv(Do(s, step))
  {
    hide Consistent, TxsSound, HistorySound, CallSound, TagsCapped, Apply, Suits, Unblocked, Do, Enabled, WriteOp;
    var op := WriteOp(s, step);
    WriteSuits(s, step);
    WriteKeeps(s, op);
    if !s.overlapped { ApplyKeepsCap(s.db, op); }
  }

  lemma RollbackKeepsInv(s: State, step: Step)
    requires Inv(s) && (step.Rollback? || step.RollbackTags?) && Enabled(s, step)
    ensures Inv(Do(s, step))
  {
  }

  lemma PastExtends(s: State, i: nat)
    requires HistorySound(s) && i < |s.past|
    ensures Extends(s.past[i], s.db)
  {
  }

  lemma StepKeepsInv(s: State, step: Step)
    requires Inv(s) && Enabled(s, step)
    ensures Inv(Do(s, step))
  {
    hide Inv, Enabled, Do;
    if step.Rollback? || step.RollbackTags? { RollbackKeepsInv(s, step); }
    match step
    case Begin(_, _, _) => BeginKeepsInv(s, step);
    case Lock(_) => LockKeepsInv(s, step);
    case Insert(_) => InsertKeepsInv(s, step);
    case InsertTags(_) => LatePhaseKeepsInv(s, step);
    case UpdateBalance(_) => LatePhaseKeepsInv(s, step);
    case Commit(_) => CommitKeepsInv(s, step);
    case Rollback(_) =>
    case StartTags(_, _, _, _, _) => StartTagsKeepsInv(s, step);
    case CommitTags(_) => CommitTagsKeepsInv(s, step);
    case RollbackTags(_) =>
    case ChangeCategory(_, _, _, _) => WriteStepKeepsInv(s, step);
    case DropCategory(_, _, _) => WriteStepKeepsInv(s, step);
    case Write(_) => WriteStepKeepsInv(s, step);
  }

  lemma StartSound(s: State)
    requires Initial(s)
    ensures Inv(s)
  {
  }

  lemma PastStays(s: State, step: Step)
    requires HistorySound(s) && Enabled(s, step)
    ensures |Do(s, step).past| > 0 && Do(s, step).past[0] == s.past[0]
  {
    hide Prepare, Apply, Rows, Final, TagsOf, Settle;
  }

  /** The invariant holds in every state of every interleaving. */
  lemma {:induction false} RunSound(run: Run, k: nat)
    requires run.Valid() && k < |run.states|
    ensures Inv(run.states[k]) && run.states[k].past[0] == run.states[0].db
  {
    if k == 0 {
      StartSound(run.states[0]);
    } else {
      RunSound(run, k - 1);
      assert run.StepAt(k - 1);
      PastStays(run.states[k - 1], run.steps[k - 1]);
      StepKeepsInv(run.states[k - 1], run.steps[k - 1]);
    }
  }
}
