/** What holds in every state that any interleaving can reach. */
module Guarantees {
  import opened Int64
  import opened Wrappers
  import opened Ledger
  import opened Accounting
  import opened Answers
  import opened Import
  import opened UseCases
  import opened Consistency
  import opened Reversals
  import opened Transactions

  /** The committed database is what the committed operations leave when run one after the other. */
  lemma Serializable(run: Run, k: nat)
    requires run.Valid() && k < |run.states|
    ensures Replay(run.states[0].db, run.states[k].history) == Ok(run.states[k].db)
  {
    RunSound(run, k);
  }

  /** No lost update: every balance is the int64 image of the sum of the account's committed
      statements, and it is that sum itself exactly when the sum fits int64. */
  lemma Conservation(run: Run, k: nat, account: Id)
    requires run.Valid() && k < |run.states| && account in run.states[k].db.accounts
    ensures var db := run.states[k].db;
            && db.accounts[account].balance == Wrap(Total(db.log, account))
            && (db.accounts[account].balance == Total(db.log, account) <==> InRange(Total(db.log, account)))
  {
    RunSound(run, k);
    BalanceIsTotal(run.states[k].db, account);
  }

  /** In commit order each balance_after is the account's previous one plus the signed amount,
      and the last one is the account's balance. */
  lemma BalanceChain(run: Run, k: nat)
    requires run.Valid() && k < |run.states|
    ensures var db := run.states[k].db;
            && (forall i :: 0 <= i < |db.log| ==> Link(db.log, i))
            && (forall a :: a in db.accounts ==> db.accounts[a].balance == Last(db.log, a))
  {
    RunSound(run, k);
  }

  lemma PastGrows(s: State, step: Step)
    requires Enabled(s, step) && HistorySound(s)
    ensures var next := Do(s, step);
            (next.past == s.past && next.db == s.db) || next.past == s.past + [next.db]
  {
    hide Prepare, Apply, Rows, Final, TagsOf, Settle;
  }

  lemma StepExtends(s: State, step: Step)
    requires Inv(s) && Enabled(s, step)
    ensures Extends(s.db, Do(s, step).db)
  {
    hide TxsSound, CallSound, TagsCapped, Consistent, Apply, Prepare, Enabled, Do, Extends;
    StepKeepsInv(s, step);
    PastGrows(s, step);
    var next := Do(s, step);
    if next.past != s.past {
      assert next.past[|s.history|] == s.db;
    } else {
      SelfExtends(s.db);
    }
  }

  lemma SelfExtends(db: Db)
    ensures Extends(db, db)
  {
    assert db.log[..|db.log|] == db.log;
  }

  /** Whatever runs in between, a committed statement keeps its place and every accounting column. */
  lemma {:induction false} AppendOnly(run: Run, j: nat, k: nat)
    requires run.Valid() && j <= k < |run.states|
    ensures Extends(run.states[j].db, run.states[k].db)
    decreases k
  {
    hide Extends, Do, Enabled, Inv;
    if j == k {
      SelfExtends(run.states[k].db);
    } else {
      AppendOnly(run, j, k - 1);
      RunSound(run, k - 1);
      assert run.StepAt(k - 1);
      StepExtends(run.states[k - 1], run.steps[k - 1]);
      ExtendsTransitive(run.states[j].db, run.states[k - 1].db, run.states[k].db);
    }
  }

  /** A transaction that has run all its statements can always commit. */
  lemma CommitNeverBlocks(run: Run, k: nat, t: TxId)
    requires run.Valid() && k < |run.states|
    requires t in run.states[k].txs && run.states[k].txs[t].phase.Updated?
    ensures Enabled(run.states[k], Commit(t))
  {
    RunSound(run, k);
    assert TxSound(run.states[k].db, run.states[k].txs[t]);
  }

  /** However many imports race, an account never holds one external id twice. */
  lemma ExternalIdsUnique(run: Run, k: nat, i: nat, j: nat)
    requires run.Valid() && k < |run.states|
    requires i < j < |run.states[k].db.log| && run.states[k].db.log[i].external.Some?
    requires run.states[k].db.log[i].account == run.states[k].db.log[j].account
    ensures run.states[k].db.log[i].external != run.states[k].db.log[j].external
  {
    RunSound(run, k);
    assert !Clash(run.states[k].db.log[i], run.states[k].db.log[j]);
  }

  /* ---------- Reversals ---------- */

  /** However many Reverse calls race, links form chains inside one account: each statement is
      reversed at most once, by an equal amount of the opposite type, later in the log. */
  lemma ReversalChains(run: Run, k: nat)
    requires run.Valid() && k < |run.states|
    ensures var log := run.states[k].db.log;
            && Linked(log)
            && (forall i, j :: 0 <= i < j < |log| && log[i].reference.Some? ==> log[i].reference != log[j].reference)
            && (forall i :: 0 <= i < |log| && log[i].reference.Some? ==> exists j :: 0 <= j < i && Reverses(log[i], log[j]))
  {
    RunSound(run, k);
    var log := run.states[k].db.log;
    forall i, j | 0 <= i < j < |log| && log[i].reference.Some? ensures log[i].reference != log[j].reference {
      assert !Clash(log[i], log[j]);
    }
    forall i | 0 <= i < |log| && log[i].reference.Some? ensures exists j :: 0 <= j < i && Reverses(log[i], log[j]) {
      assert HasOrigin(log, i);
    }
  }

  /** A balance is the sum over the statements that were reversed an even number of times. */
  lemma BalanceIsStandingSum(run: Run, k: nat, account: Id)
    requires run.Valid() && k < |run.states| && account in run.states[k].db.accounts
    ensures var db := run.states[k].db;
            Linked(db.log) && db.accounts[account].balance == Wrap(StandingSum(db.log, account, |db.log|))
  {
    hide Wrap;
    RunSound(run, k);
    Conservation(run, k, account);
    TotalIsStandingSum(run.states[k].db.log, account);
  }

  /** Of two Reverse calls that both saw no reversal, the slower one can never insert its row. */
  lemma LateReversalIsRefused(s: State, t: TxId, k: nat)
    requires t in s.txs && k < |s.txs[t].batch| && s.txs[t].batch[k].reference.Some?
    requires HasReversal(s.db.log, s.txs[t].batch[k].reference.value)
    ensures !Enabled(s, Insert(t))
  {
    var rows := Rows(s.txs[t].balance, s.txs[t].batch);
    var i :| 0 <= i < |s.db.log| && s.db.log[i].reference == s.txs[t].batch[k].reference;
    var all := s.db.log + rows;
    assert all[i] == s.db.log[i] && all[|s.db.log| + k] == rows[k];
    assert Clash(all[i], all[|s.db.log| + k]);
  }

  /* ---------- Categories and tags ---------- */

  /** Every category on a statement exists, has the statement's type, and is a system default
      or the account owner's own. Every tag on it exists and is visible to the owner. */
  lemma MetadataSound(run: Run, k: nat, i: nat)
    requires run.Valid() && k < |run.states| && i < |run.states[k].db.log|
    ensures var db := run.states[k].db;
            var row := db.log[i];
            && row.account in db.accounts
            && (row.category.Some? ==>
                  && LiveCategory(db, row.category.value)
                  && db.categories[row.category.value].typ == row.typ
                  && (db.categories[row.category.value].owner == None
                      || db.categories[row.category.value].owner == Some(db.accounts[row.account].owner)))
            && (forall t :: t in row.tags ==>
                  LiveTag(db, t) && (db.tags[t].owner == None || db.tags[t].owner == Some(db.accounts[row.account].owner)))
  {
    RunSound(run, k);
    var db := run.states[k].db;
    assert CategoriesSound(db) && TagsSound(db);
    forall t | t in db.log[i].tags ensures LiveTag(db, t) && TagSuits(db, t, db.log[i].account) { }
  }

  /** As long as no ReplaceTags overlaps another, no statement has more than ten tags. */
  lemma AtMostTenTags(run: Run, k: nat, i: nat)
    requires run.Valid() && k < |run.states| && !run.states[k].overlapped
    requires i < |run.states[k].db.log|
    ensures |run.states[k].db.log[i].tags| <= 10
  {
    RunSound(run, k);
  }

  lemma EditedRow(db: Db, i: nat, removed: set<Id>, added: set<Id>)
    requires Distinct(db.log) && i < |db.log|
    ensures var r := Apply(db, EditTags(db.log[i].id, removed, added));
            && (r.Ok? <==> (forall t :: t in added ==> LiveTag(db, t)) && (db.log[i].tags - removed) * added == {})
            && (r.Ok? ==> |r.value.log| == |db.log| && SameBooks(db.log, r.value.log)
                          && r.value.log[i].tags == db.log[i].tags - removed + added && r.value.tags == db.tags)
  {
    assert HasStatement(db.log, db.log[i].id);
    forall k | 0 <= k < |db.log| && db.log[k].id == db.log[i].id ensures k == i { UniqueById(db.log, k, i); }
  }

  /** When a tag edit is accepted, in terms of the tags the statement has. */
  lemma EditAccepted(db: Db, statement: Id, removed: set<Id>, added: set<Id>)
    requires Distinct(db.log) && HasStatement(db.log, statement)
    ensures Apply(db, EditTags(statement, removed, added)).Ok?
            <==> (forall t :: t in added ==> LiveTag(db, t)) && (TagsOf(db.log, statement) - removed) * added == {}
  {
    hide Apply, TagsOf;
    var i :| 0 <= i < |db.log| && db.log[i].id == statement;
    TagsOfRow(db.log, i);
    EditedRow(db, i, removed, added);
  }

  /** A replacement commits, in terms of tags. */
  lemma CommitStep(s: State, t: TxId)
    requires Inv(s) && t in s.tagCalls && forall x :: x in s.tagCalls[t].added ==> LiveTag(s.db, x)
    ensures var call := s.tagCalls[t];
            var have := TagsOf(s.db.log, call.statement);
            && (Enabled(s, CommitTags(t)) <==> (have - call.removed) !! call.added)
            && (Enabled(s, CommitTags(t)) ==>
                  var next := Do(s, CommitTags(t));
                  && TagsOf(next.db.log, call.statement) == have - call.removed + call.added
                  && next.db.tags == s.db.tags
                  && forall u :: u in s.tagCalls && u != t ==> u in next.tagCalls && next.tagCalls[u] == Spared(s.tagCalls[u], TagOp(call)))
  {
    hide TagsOf, Apply, AddedTo, Deleted, Spared, TxsSound, HistorySound, TagsCapped, BooksHold;
    var call := s.tagCalls[t];
    assert CallSound(s.db, call);
    EditAccepted(s.db, call.statement, call.removed, call.added);
    if Enabled(s, CommitTags(t)) {
      StepKeepsInv(s, CommitTags(t));
      TagsLater(s.db, TagOp(call), call.statement);
      EditOp(s.db, TagOp(call));
    }
  }

  lemma EditOp(db: Db, op: Op)
    requires op.EditTags? && Apply(db, op).Ok?
    ensures Apply(db, op).value.tags == db.tags
    ensures AddedTo(op, op.statement) == op.added && Deleted(op, op.statement) == op.removed
  {
  }

  /** What a pending replacement still has to remove are tags the statement has. Its commit leaves exactly the
      requested set if and only if they are all the tags it has: nothing was tagged since its DELETE. */
  lemma ReplaceTagsExact(run: Run, k: nat, t: TxId)
    requires run.Valid() && k < |run.states| && Enabled(run.states[k], CommitTags(t))
    ensures var s := run.states[k];
            var call := s.tagCalls[t];
            && call.removed <= TagsOf(s.db.log, call.statement)
            && (TagsOf(Do(s, CommitTags(t)).db.log, call.statement) == call.added
                <==> TagsOf(s.db.log, call.statement) == call.removed)
  {
    hide TagsOf, Apply, Do, TxsSound, HistorySound, TagsCapped, BooksHold;
    RunSound(run, k);
    var s := run.states[k];
    var call := s.tagCalls[t];
    assert CallSound(s.db, call);
    EditAccepted(s.db, call.statement, call.removed, call.added);
    CommitStep(s, t);
    AllRemoved(TagsOf(s.db.log, call.statement), call.removed, call.added);
  }

  lemma AllRemoved(have: set<Id>, removed: set<Id>, added: set<Id>)
    requires removed <= have && (have - removed) !! added
    ensures have - removed + added == added <==> have == removed
  {
    var left := have - removed;
    if left + added == added {
      assert left <= left + added;
      assert left == left * added;
      assert have == removed + left;
    }
    if have == removed { assert left + added == added; }
  }

  /* ---------- Overlapping replacements ---------- */

  /** The run with one more step. */
  function Then(run: Run, step: Step): (longer: Run)
    requires run.states != [] && Enabled(run.Last(), step)
    ensures longer.states != [] && longer.Last() == Do(run.Last(), step) && run.states <= longer.states
  {
    Run(run.states + [Do(run.Last(), step)], run.steps + [step])
  }

  lemma ThenIsValid(run: Run, step: Step)
    requires run.Valid() && Enabled(run.Last(), step)
    ensures Then(run, step).Valid()
  {
    hide Enabled, Do, Initial;
    var longer := Then(run, step);
    forall i | 0 <= i < |longer.steps| ensures longer.StepAt(i) {
      if i < |run.steps| { assert run.StepAt(i); }
    }
  }

  /** What a StartTags step asks for. */
  function Requested(s: State, step: Step): set<Id>
    requires step.StartTags? && Enabled(s, step)
  {
    PrepareTags(See(s, step.ages), step.user, step.statement, step.tagIds).value
  }

  /** Two replacements of one statement that can both start in this state, with tags that still exist. */
  ghost predicate Rivals(s: State, first: Step, second: Step) {
    && first.StartTags? && second.StartTags? && first.tx != second.tx && first.statement == second.statement
    && Enabled(s, first) && Enabled(s, second)
    && forall t :: t in Requested(s, first) + Requested(s, second) ==> LiveTag(s.db, t)
  }

  lemma StartStep(s: State, step: Step)
    requires step.StartTags? && Enabled(s, step)
    ensures Do(s, step) == s.(tagCalls := s.tagCalls[step.tx := TagCall(step.statement, TagsOf(s.db.log, step.statement), Requested(s, step))])
    ensures HasStatement(s.db.log, step.statement)
  {
    hide PrepareTags, TagsOf;
  }

  lemma StartStaysEnabled(s: State, first: Step, second: Step)
    requires Rivals(s, first, second)
    ensures Enabled(Do(s, first), second) && Requested(Do(s, first), second) == Requested(s, second)
  {
    hide PrepareTags, TagsOf;
  }

  lemma RivalSteps(s: State, first: Step, second: Step)
    requires Inv(s) && Rivals(s, first, second)
    ensures Enabled(s, first) && Enabled(Do(s, first), second) && Enabled(Do(Do(s, first), second), CommitTags(first.tx))
    ensures var next := Do(Do(Do(s, first), second), CommitTags(first.tx));
            && Inv(next) && next.db.tags == s.db.tags
            && second.tx in next.tagCalls && next.tagCalls[second.tx] == TagCall(second.statement, {}, Requested(s, second))
            && TagsOf(next.db.log, second.statement) == Requested(s, first)
  {
    hide TagsOf, Apply, Enabled, Do, Inv, Requested, AddedTo;
    var s1 := Do(s, first);
    StartStep(s, first);
    StepKeepsInv(s, first);
    StartStaysEnabled(s, first, second);
    StartStep(s1, second);
    StepKeepsInv(s1, second);
    var s2 := Do(s1, second);
    CommitStep(s2, first.tx);
    var have := TagsOf(s.db.log, first.statement);
    assert have - have == {};
    StepKeepsInv(s2, CommitTags(first.tx));
  }

  /** From any reachable state: two replacements of one statement start, then the first one commits. The second can
      then commit exactly if it asks for none of the first one's tags, and leaves the union of both requests, whatever
      tags the statement had before, even if the first had only put them back. */
  lemma OverlappingReplacementsUnite(run: Run, first: Step, second: Step) returns (longer: Run)
    requires run.Valid() && Rivals(run.Last(), first, second)
    ensures longer.Valid() && longer.steps == run.steps + [first, second, CommitTags(first.tx)] && run.states <= longer.states
    ensures var a, b, s := Requested(run.Last(), first), Requested(run.Last(), second), longer.Last();
            && (Enabled(s, CommitTags(second.tx)) <==> a !! b)
            && (a !! b ==> TagsOf(Do(s, CommitTags(second.tx)).db.log, first.statement) == a + b && |a + b| == |a| + |b|)
  {
    hide Do, Enabled, Inv, TagsOf, Requested, Apply;
    var s0 := run.Last();
    RunSound(run, |run.steps|);
    RivalSteps(s0, first, second);
    ThenIsValid(run, first);
    ThenIsValid(Then(run, first), second);
    ThenIsValid(Then(Then(run, first), second), CommitTags(first.tx));
    longer := Then(Then(Then(run, first), second), CommitTags(first.tx));
    assert forall t :: t in Requested(s0, second) ==> LiveTag(s0.db, t) && LiveTag(longer.Last().db, t);
    CommitStep(longer.Last(), second.tx);
    assert Requested(s0, first) - {} == Requested(s0, first);
  }

  /** A transaction can roll back at any point, and leaves no trace. */
  lemma RollbackLeavesNoTrace(s: State, t: TxId)
    requires t in s.txs
    ensures Enabled(s, Rollback(t)) && Do(s, Rollback(t)) == s.(txs := s.txs - {t})
  {
  }

  /* ---------- A transaction with nothing in its way ---------- */

  /** The newest committed state for every read. */
  function Newest(s: State): Ages
    requires s.past != []
  {
    var n := |s.past| - 1;
    Ages(n, n, n, n, n)
  }

  function SixSteps(t: TxId, req: Request, ages: Ages): seq<Step> {
    [Begin(t, req, ages), Lock(t), Insert(t), InsertTags(t), UpdateBalance(t), Commit(t)]
  }

  /** The transaction after its SELECT FOR UPDATE and after its INSERT. */
  function LockedTx(db: Db, account: Id, batch: seq<Statement>): Tx
    requires account in db.accounts
  {
    Tx(account, batch, Locked, db.accounts[account].balance, [], 0)
  }

  function InsertedTx(db: Db, account: Id, batch: seq<Statement>): Tx
    requires account in db.accounts
  {
    var b := db.accounts[account].balance;
    Tx(account, batch, Inserted, b, Rows(b, batch), Final(b, batch))
  }

  ghost predicate Alone(s: State, req: Request) {
    && Inv(s) && s.txs == map[] && WellFormed(req)
    && Prepare(See(s, Newest(s)), req).Ok? && Prepare(See(s, Newest(s)), req).value != []
    && Post(s.db, req.account, Prepare(See(s, Newest(s)), req).value).Ok?
  }

  function Batch(s: State, req: Request): seq<Statement>
    requires s.past != [] && WellFormed(req) && Prepare(See(s, Newest(s)), req).Ok?
  {
    Prepare(See(s, Newest(s)), req).value
  }

  lemma BeginAndLock(s: State, t: TxId, req: Request)
    requires s.txs == map[] && s.past != [] && WellFormed(req) && Prepare(See(s, Newest(s)), req).Ok?
    requires Batch(s, req) != [] && req.account in s.db.accounts
    ensures Enabled(s, Begin(t, req, Newest(s))) && Enabled(Do(s, Begin(t, req, Newest(s))), Lock(t))
    ensures Do(Do(s, Begin(t, req, Newest(s))), Lock(t)) == s.(txs := map[t := LockedTx(s.db, req.account, Batch(s, req))])
  {
    hide Prepare, Rows, Final, RowsOk, TagRowsOk;
    var s1 := Do(s, Begin(t, req, Newest(s)));
    assert s1.txs == map[t := Tx(req.account, Batch(s, req), Begun, 0, [], 0)];
  }

  lemma HasAccount(s: State, req: Request)
    requires Alone(s, req)
    ensures s.past != [] && req.account in s.db.accounts
  {
    hide Prepare, Rows, Final, RowsOk, TagRowsOk;
  }

  lemma InsertAndTag(s: State, t: TxId, account: Id, batch: seq<Statement>)
    requires batch != [] && Post(s.db, account, batch).Ok? && account in s.db.accounts
    requires s.txs == map[t := LockedTx(s.db, account, batch)]
    ensures Enabled(s, Insert(t)) && Enabled(Do(s, Insert(t)), InsertTags(t))
    ensures Do(Do(s, Insert(t)), InsertTags(t)) == s.(txs := map[t := InsertedTx(s.db, account, batch).(phase := Tagged)])
  {
    hide Rows, Final, RowsOk, TagRowsOk;
    var s1 := Do(s, Insert(t));
    assert s1.txs == map[t := InsertedTx(s.db, account, batch)];
  }

  lemma UpdateAndCommit(s: State, t: TxId, account: Id, batch: seq<Statement>)
    requires batch != [] && Post(s.db, account, batch).Ok? && account in s.db.accounts
    requires s.txs == map[t := InsertedTx(s.db, account, batch).(phase := Tagged)]
    ensures Enabled(s, UpdateBalance(t)) && Enabled(Do(s, UpdateBalance(t)), Commit(t))
    ensures var next := Do(Do(s, UpdateBalance(t)), Commit(t));
            next.db == Post(s.db, account, batch).value && next.txs == map[] && next.overlapped == s.overlapped
            && next.tagCalls.Keys == s.tagCalls.Keys
  {
    hide Rows, Final, RowsOk, TagRowsOk;
    var s1 := Do(s, UpdateBalance(t));
    assert s1.txs == map[t := InsertedTx(s.db, account, batch).(phase := Updated)];
  }

  /** From any reachable state without other postings, a posting that the database accepts runs through its six
      statements and commits exactly its effect. */
  lemma UncontendedCommits(run: Run, t: TxId, req: Request) returns (longer: Run)
    requires run.Valid() && Alone(run.Last(), req)
    ensures longer.Valid() && longer.steps == run.steps + SixSteps(t, req, Newest(run.Last())) && run.states <= longer.states
    ensures Ok(longer.Last().db) == Post(run.Last().db, req.account, Batch(run.Last(), req))
    ensures longer.Last().txs == map[] && longer.Last().tagCalls.Keys == run.Last().tagCalls.Keys
  {
    hide Do, Enabled, Inv, Post, Prepare, Rows, Final;
    var s := run.Last();
    var steps := SixSteps(t, req, Newest(s));
    HasAccount(s, req);
    BeginAndLock(s, t, req);
    var s2 := Do(Do(s, steps[0]), steps[1]);
    InsertAndTag(s2, t, req.account, Batch(s, req));
    var s4 := Do(Do(s2, steps[2]), steps[3]);
    UpdateAndCommit(s4, t, req.account, Batch(s, req));
    longer := run;
    for i := 0 to 2
      invariant longer.Valid() && longer.steps == run.steps + steps[..i] && run.states <= longer.states
      invariant longer.Last() == if i == 0 then s else if i == 1 then Do(s, steps[0]) else s2
    {
      ThenIsValid(longer, steps[i]);
      longer := Then(longer, steps[i]);
    }
    for i := 2 to 4
      invariant longer.Valid() && longer.steps == run.steps + steps[..i] && run.states <= longer.states
      invariant longer.Last() == if i == 2 then s2 else if i == 3 then Do(s2, steps[2]) else s4
    {
      ThenIsValid(longer, steps[i]);
      longer := Then(longer, steps[i]);
    }
    for i := 4 to 6
      invariant longer.Valid() && longer.steps == run.steps + steps[..i] && run.states <= longer.states
      invariant longer.Last() == if i == 4 then s4 else if i == 5 then Do(s4, steps[4]) else Do(Do(s4, steps[4]), steps[5])
    {
      ThenIsValid(longer, steps[i]);
      longer := Then(longer, steps[i]);
    }
  }

  /* ---------- Single-statement writes that nothing forbids ---------- */

  lemma NewestReads(s: State)
    requires HistorySound(s)
    ensures s.past != [] && InPast(s, Newest(s)) && See(s, Newest(s)) == Latest(s.db)
  {
  }

  /** A category change that the tables allow goes through, and changes that column only. */
  lemma CategoryChangeRuns(s: State, user: Id, statement: Id, category: Option<Id>, i: nat)
    requires Inv(s) && IsRow(s.db, statement, i)
    requires RowRecategorized(s.db, user, s.db.log[i], category).Ok?
    ensures s.past != []
    ensures var step := ChangeCategory(user, statement, category, Newest(s));
            && Enabled(s, step)
            && var log := Do(s, step).db.log;
               |log| == |s.db.log| && forall k :: 0 <= k < |log| ==>
                 log[k] == s.db.log[k].(category := if s.db.log[k].id == statement then Asked(category) else s.db.log[k].category)
  {
    hide PrepareCategory, Inv;
    InvFacts(s);
    NewestReads(s);
    RecategorizeAnswer(s.db, user, statement, category);
    CategoryWritten(s.db, user, s.db.log[i], statement, category, i);
  }

  lemma InvFacts(s: State)
    requires Inv(s)
    ensures HistorySound(s) && Distinct(s.db.log)
  {
  }

  lemma CategoryWritten(db: Db, user: Id, row: Statement, statement: Id, category: Option<Id>, i: nat)
    requires IsRow(db, statement, i) && row == db.log[i] && RowRecategorized(db, user, row, category).Ok?
    ensures RowRecategorized(db, user, row, category).value == Asked(category)
    ensures var r := Apply(db, SetCategory(statement, Asked(category)));
            && r.Ok? && |r.value.log| == |db.log|
            && forall k :: 0 <= k < |db.log| ==>
                 r.value.log[k] == db.log[k].(category := if db.log[k].id == statement then Asked(category) else db.log[k].category)
  {
    assert HasStatement(db.log, statement);
  }

  /** A tag replacement that the tables allow can start, and asks for exactly the requested tags. */
  lemma TagReplacementStarts(s: State, t: TxId, user: Id, statement: Id, tagIds: seq<Id>, i: nat)
    requires Inv(s) && IsRow(s.db, statement, i) && t !in s.tagCalls
    requires RowRetagged(s.db, user, s.db.log[i], tagIds).Ok?
    ensures s.past != []
    ensures var step := StartTags(t, user, statement, tagIds, Newest(s));
            Enabled(s, step) && Requested(s, step) == set x | x in tagIds
  {
    hide PrepareTags, Inv;
    InvFacts(s);
    NewestReads(s);
    assert HasStatement(s.db.log, statement);
    RetagAnswer(s.db, user, statement, tagIds);
  }

  /** A user's own category that nothing uses, in the log or in flight, can be deleted, and is gone then. */
  lemma CategoryDeletionRuns(s: State, user: Id, category: Id)
    requires Inv(s) && LiveIn(s.db, category) && s.db.categories[category].owner == Some(user) && !InUse(s.db, category)
    requires forall t :: t in s.txs ==> !UsesCategory(s.txs[t], category)
    ensures s.past != []
    ensures Enabled(s, DropCategory(category, user, Newest(s))) && !LiveIn(Do(s, DropCategory(category, user, Newest(s))).db, category)
  {
    hide Inv;
    InvFacts(s);
    NewestReads(s);
    DeleteCategoryAnswer(s.db, category, user);
  }
}
