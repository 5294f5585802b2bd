/**
 OFX imports run one after the other: when one succeeds, what it leaves, and why
 neither repeating an import nor swapping two of them matters.
 */
module Import {
  import opened Int64
  import opened Wrappers
  import opened Ledger
  import opened Accounting
  import opened UseCases

  datatype Summary = Summary(total: nat, created: nat, skipped: nat)

  datatype Outcome = Outcome(db: Db, result: Result<Summary>)

  function Latest(db: Db): Snapshots {
    Snapshots(db, db, db, db, db)
  }

  /** One whole import, with nothing running beside it. */
  function ImportFile(db: Db, req: Request): Outcome
    requires req.Import? && WellFormed(req)
  {
    var drafts := PrepareImport(Latest(db), req);
    if drafts.Err? then Outcome(db, Err(drafts.error))
    else
      var posted := Post(db, req.account, drafts.value);
      if posted.Err? then Outcome(db, Err(posted.error))
      else
        Outcome(posted.value,
                Ok(Summary(|req.transactions|, |drafts.value|, CountSkipped(Existing(db, req), req.transactions))))
  }

  function Existing(db: Db, req: Request): set<string>
    requires req.Import?
  {
    ExistingIds(db.log, req.account, req.transactions)
  }

  function CountSkipped(existing: set<string>, txns: seq<Transaction>): nat {
    if txns == [] then 0
    else CountSkipped(existing, txns[..|txns| - 1]) + (if Skipped(existing, txns[|txns| - 1]) then 1 else 0)
  }

  /* ---------- Which transactions become statements ---------- */

  /** The positions that are not skipped, in file order. */
  function Picked(existing: set<string>, txns: seq<Transaction>): (p: seq<nat>)
    ensures forall j :: 0 <= j < |p| ==> p[j] < |txns| && !Skipped(existing, txns[p[j]])
    ensures forall i, j :: 0 <= i < j < |p| ==> p[i] < p[j]
    ensures forall k :: 0 <= k < |txns| && !Skipped(existing, txns[k]) ==> k in p
    ensures |p| + CountSkipped(existing, txns) == |txns|
  {
    hide Skipped;
    if txns == [] then []
    else
      var n := |txns| - 1;
      var before := Picked(existing, txns[..n]);
      assert forall k :: 0 <= k < n ==> txns[..n][k] == txns[k];
      if Skipped(existing, txns[n]) then before else before + [n]
  }

  /** The statement made of the transaction at position k. */
  function Draft(account: Id, txns: seq<Transaction>, ids: seq<Id>, now: int, k: nat): Result<Statement>
    requires k < |txns| <= |ids|
  {
    MapTransaction(txns[k], account, ids[k], now)
  }

  lemma {:induction false} DraftsMappedWhen(existing: set<string>, account: Id, txns: seq<Transaction>, ids: seq<Id>, now: int)
    requires |txns| <= |ids|
    ensures var r := ImportDrafts(existing, account, txns, ids, now);
            && (r.Ok? <==> forall k :: 0 <= k < |txns| && !Skipped(existing, txns[k]) ==> Draft(account, txns, ids, now, k).Ok?)
            && (r.Err? ==> r.error == InvalidAmount)
  {
    if txns != [] {
      var n := |txns| - 1;
      DraftsMappedWhen(existing, account, txns[..n], ids, now);
      assert forall k :: 0 <= k < n ==> Draft(account, txns[..n], ids, now, k) == Draft(account, txns, ids, now, k);
      assert Draft(account, txns, ids, now, n) == MapTransaction(txns[n], account, ids[n], now);
    }
  }

  lemma {:induction false} DraftsArePicked(existing: set<string>, account: Id, txns: seq<Transaction>, ids: seq<Id>, now: int)
    requires |txns| <= |ids| && ImportDrafts(existing, account, txns, ids, now).Ok?
    ensures var drafts := ImportDrafts(existing, account, txns, ids, now).value; var p := Picked(existing, txns);
            |drafts| == |p| && forall j :: 0 <= j < |p| ==> Ok(drafts[j]) == Draft(account, txns, ids, now, p[j])
  {
    if txns != [] {
      var n := |txns| - 1;
      DraftsArePicked(existing, account, txns[..n], ids, now);
      var p, q := Picked(existing, txns), Picked(existing, txns[..n]);
      var drafts := ImportDrafts(existing, account, txns, ids, now).value;
      var before := ImportDrafts(existing, account, txns[..n], ids, now).value;
      forall j | 0 <= j < |p| ensures Ok(drafts[j]) == Draft(account, txns, ids, now, p[j]) {
        if j < |q| {
          assert p[j] == q[j] && drafts[j] == before[j];
          assert Draft(account, txns[..n], ids, now, q[j]) == Draft(account, txns, ids, now, p[j]);
        }
      }
    }
  }

  predicate InRangeFile(txns: seq<Transaction>) {
    forall k :: 0 <= k < |txns| ==> InRange(txns[k].amount)
  }

  /** Only the one amount without an int64 opposite cannot be mapped. */
  lemma MapFailsOnlyAtMin(txn: Transaction, account: Id, id: Id, now: int)
    requires InRange(txn.amount) && txn.amount != 0
    ensures MapTransaction(txn, account, id, now).Ok? <==> txn.amount != MIN
    ensures txn.amount != MIN ==> MapTransaction(txn, account, id, now).value.Signed() == txn.amount
  {
    assert InRange(-txn.amount) <==> txn.amount != MIN;
  }

  /* ---------- When an import succeeds ---------- */

  /** The ids a run draws for its statements are new and pairwise distinct. */
  ghost predicate FreshIds(log: seq<Statement>, ids: seq<Id>) {
    && (forall i, j :: 0 <= i < j < |ids| ==> ids[i] != ids[j])
    && (forall i :: 0 <= i < |ids| ==> !HasStatement(log, ids[i]))
  }

  /** No two transactions that get imported carry the same FITID. */
  ghost predicate NoRepeats(existing: set<string>, txns: seq<Transaction>) {
    forall i, j :: 0 <= i < j < |txns| && !Skipped(existing, txns[i]) && !Skipped(existing, txns[j]) && txns[i].fitid != ""
      ==> txns[i].fitid != txns[j].fitid
  }

  ghost predicate Negatable(existing: set<string>, txns: seq<Transaction>) {
    forall k :: 0 <= k < |txns| && !Skipped(existing, txns[k]) ==> txns[k].amount != MIN
  }

  lemma SkippedIsHeld(log: seq<Statement>, account: Id, txns: seq<Transaction>, k: nat)
    requires k < |txns| && txns[k].fitid != ""
    ensures txns[k].fitid in ExistingIds(log, account, txns) <==> Holds(log, account, txns[k].fitid)
  {
  }

  lemma DraftsMapped(db: Db, req: Request)
    requires req.Import? && WellFormed(req) && InRangeFile(req.transactions)
    requires Authorize(db, req.account, req.user).Ok?
    ensures PrepareImport(Latest(db), req).Ok? <==> Negatable(Existing(db, req), req.transactions)
  {
    var e, txns := Existing(db, req), req.transactions;
    DraftsMappedWhen(e, req.account, txns, req.ids, req.now);
    forall k | 0 <= k < |txns| && !Skipped(e, txns[k])
      ensures Draft(req.account, txns, req.ids, req.now, k).Ok? <==> txns[k].amount != MIN
    {
      MapFailsOnlyAtMin(txns[k], req.account, req.ids[k], req.now);
    }
  }

  /** What the rows of an import look like: row i comes from position p[i] of the file. */
  ghost predicate Imported(req: Request, p: seq<nat>, rows: seq<Statement>)
    requires req.Import? && WellFormed(req)
  {
    && |rows| == |p|
    && (forall i, j :: 0 <= i < j < |p| ==> p[i] < p[j])
    && (forall i :: 0 <= i < |p| ==> p[i] < |req.transactions| && RowOfTransaction(req, p[i], rows[i]))
  }

  ghost predicate RowOfTransaction(req: Request, k: nat, row: Statement)
    requires req.Import? && WellFormed(req) && k < |req.transactions|
  {
    && row.id == req.ids[k]
    && row.account == req.account
    && row.amount > 0
    && (InRange(req.transactions[k].amount) ==> row.Signed() == req.transactions[k].amount)
    && row.external == (if req.transactions[k].fitid != "" then Some(req.transactions[k].fitid) else None)
    && row.reference.None? && row.category.None? && row.tags == {}
    && row.description == req.transactions[k].description
    && row.postedAt == req.transactions[k].postedAt && row.createdAt == req.now
  }

  lemma DraftsAreImported(db: Db, req: Request)
    requires req.Import? && WellFormed(req)
    requires PrepareImport(Latest(db), req).Ok?
    ensures Imported(req, Picked(Existing(db, req), req.transactions), PrepareImport(Latest(db), req).value)
  {
    var e, txns := Existing(db, req), req.transactions;
    DraftsArePicked(e, req.account, txns, req.ids, req.now);
    var p := Picked(e, txns);
    var drafts := PrepareImport(Latest(db), req).value;
    forall i | 0 <= i < |p| ensures RowOfTransaction(req, p[i], drafts[i]) {
      assert Ok(drafts[i]) == Draft(req.account, txns, req.ids, req.now, p[i]);
      if InRange(txns[p[i]].amount) { MapFailsOnlyAtMin(txns[p[i]], req.account, req.ids[p[i]], req.now); }
    }
  }

  lemma RowsAreImported(req: Request, p: seq<nat>, b: int, drafts: seq<Statement>)
    requires req.Import? && WellFormed(req) && Imported(req, p, drafts)
    ensures Imported(req, p, Rows(b, drafts))
  {
    var rows := Rows(b, drafts);
    forall i | 0 <= i < |p| ensures RowOfTransaction(req, p[i], rows[i]) {
      assert RowOfTransaction(req, p[i], drafts[i]);
    }
  }

  /** Every FITID that gets imported fits its column. */
  ghost predicate Storable(existing: set<string>, txns: seq<Transaction>) {
    forall k :: 0 <= k < |txns| && !Skipped(existing, txns[k]) ==> |txns[k].fitid| <= MAX_EXTERNAL
  }

  lemma ImportedRowsOk(db: Db, req: Request, p: seq<nat>, rows: seq<Statement>)
    requires req.Import? && WellFormed(req) && Imported(req, p, rows) && req.account in db.accounts
    requires p == Picked(Existing(db, req), req.transactions)
    ensures TagRowsOk(db, rows)
    ensures (forall r :: r in rows ==> RowOk(db, r)) <==> Storable(Existing(db, req), req.transactions)
  {
    hide Existing, Skipped, Picked;
    var e, txns := Existing(db, req), req.transactions;
    forall i | 0 <= i < |rows| ensures rows[i].tags == {} && (RowOk(db, rows[i]) <==> |txns[p[i]].fitid| <= MAX_EXTERNAL) {
      assert RowOfTransaction(req, p[i], rows[i]);
    }
    if forall r :: r in rows ==> RowOk(db, r) {
      forall k | 0 <= k < |txns| && !Skipped(e, txns[k]) ensures |txns[k].fitid| <= MAX_EXTERNAL {
        var i :| 0 <= i < |p| && p[i] == k;
        assert rows[i] in rows;
      }
    }
  }

  /** An imported row meets no committed row: its id is new and its FITID was looked up. */
  lemma ImportedIsNew(db: Db, req: Request, k: nat, row: Statement, i: nat)
    requires req.Import? && WellFormed(req) && FreshIds(db.log, req.ids) && k < |req.transactions|
    requires !Skipped(Existing(db, req), req.transactions[k]) && RowOfTransaction(req, k, row) && i < |db.log|
    ensures !Clash(db.log[i], row)
  {
    assert !HasStatement(db.log, req.ids[k]);
    var fitid := req.transactions[k].fitid;
    if fitid != "" {
      SkippedIsHeld(db.log, req.account, req.transactions, k);
      assert db.log[i].account == req.account && db.log[i].external == Some(fitid) ==> Holds(db.log, req.account, fitid);
    }
  }

  /** Two imported rows collide exactly when they carry the same FITID. */
  lemma ImportedClash(req: Request, k: nat, l: nat, a: Statement, b: Statement)
    requires req.Import? && WellFormed(req) && k < l < |req.transactions| && req.ids[k] != req.ids[l]
    requires RowOfTransaction(req, k, a) && RowOfTransaction(req, l, b)
    ensures Clash(a, b) <==> req.transactions[k].fitid != "" && req.transactions[k].fitid == req.transactions[l].fitid
  {
  }

  lemma NoRepeatsDistinct(db: Db, req: Request, p: seq<nat>, rows: seq<Statement>)
    requires req.Import? && WellFormed(req) && Distinct(db.log) && FreshIds(db.log, req.ids)
    requires p == Picked(Existing(db, req), req.transactions) && Imported(req, p, rows)
    requires NoRepeats(Existing(db, req), req.transactions)
    ensures Distinct(db.log + rows)
  {
    hide Existing, Skipped, Picked, Clash;
    var all, n := db.log + rows, |db.log|;
    forall i, j | 0 <= i < j < |all| ensures !Clash(all[i], all[j]) {
      if j < n {
        assert !Clash(db.log[i], db.log[j]);
      } else if i < n {
        ImportedIsNew(db, req, p[j - n], rows[j - n], i);
      } else {
        ImportedClash(req, p[i - n], p[j - n], rows[i - n], rows[j - n]);
      }
    }
  }

  lemma RowsApart(log: seq<Statement>, rows: seq<Statement>, a: nat, b: nat)
    requires Distinct(log + rows) && a < b < |rows|
    ensures !Clash(rows[a], rows[b])
  {
    assert !Clash((log + rows)[|log| + a], (log + rows)[|log| + b]);
  }

  lemma DistinctNoRepeats(db: Db, req: Request, p: seq<nat>, rows: seq<Statement>)
    requires req.Import? && WellFormed(req) && FreshIds(db.log, req.ids)
    requires p == Picked(Existing(db, req), req.transactions) && Imported(req, p, rows)
    requires Distinct(db.log + rows)
    ensures NoRepeats(Existing(db, req), req.transactions)
  {
    hide Existing, Skipped, Picked, Clash, Distinct;
    var e, txns := Existing(db, req), req.transactions;
    forall i, j | 0 <= i < j < |txns| && !Skipped(e, txns[i]) && !Skipped(e, txns[j]) && txns[i].fitid != ""
      ensures txns[i].fitid != txns[j].fitid
    {
      var a :| 0 <= a < |p| && p[a] == i;
      var b :| 0 <= b < |p| && p[b] == j;
      ImportedClash(req, i, j, rows[a], rows[b]);
      RowsApart(db.log, rows, a, b);
    }
  }

  /** How many transactions of a file get imported. */
  function CountPicked(existing: set<string>, txns: seq<Transaction>): nat {
    |Picked(existing, txns)|
  }

  /** With fresh ids an import fails only for a missing or foreign account, for an unskipped amount
      of -2^63 cents, for an unskipped FITID that the file itself repeats or that its column cannot hold,
      or for more new rows than one INSERT can bind; then it writes nothing. */
  lemma ImportSucceedsIff(db: Db, req: Request)
    requires req.Import? && WellFormed(req) && InRangeFile(req.transactions)
    requires Distinct(db.log) && FreshIds(db.log, req.ids)
    ensures ImportFile(db, req).result.Ok? <==>
            && Usable(db, req.account, req.user)
            && Negatable(Existing(db, req), req.transactions)
            && NoRepeats(Existing(db, req), req.transactions)
            && Storable(Existing(db, req), req.transactions)
            && CountPicked(Existing(db, req), req.transactions) <= MAX_BATCH
    ensures ImportFile(db, req).result.Err? ==> ImportFile(db, req).db == db
  {
    hide Negatable, NoRepeats, Storable, Existing, Picked, Imported, FreshIds, InRangeFile, RowOk, TagRowsOk, Wrap, Rows;
    AccountAnswer(db, req.account, req.user);
    if Authorize(db, req.account, req.user).Ok? { DraftsMapped(db, req); }
    if PrepareImport(Latest(db), req).Ok? {
      var p := Picked(Existing(db, req), req.transactions);
      var drafts := PrepareImport(Latest(db), req).value;
      var b := db.accounts[req.account].balance;
      DraftsAreImported(db, req);
      RowsAreImported(req, p, b, drafts);
      ImportedRowsOk(db, req, p, Rows(b, drafts));
      if NoRepeats(Existing(db, req), req.transactions) { NoRepeatsDistinct(db, req, p, Rows(b, drafts)); }
      if Distinct(db.log + Rows(b, drafts)) { DistinctNoRepeats(db, req, p, Rows(b, drafts)); }
      if drafts == [] { assert db.log + Rows(b, drafts) == db.log; }
    }
  }

  /* ---------- What an import leaves ---------- */

  /** What an account holds from bank files: FITID and signed amount. */
  function Held(log: seq<Statement>, account: Id): set<(string, int)> {
    if log == [] then {}
    else
      var last := log[|log| - 1];
      Held(log[..|log| - 1], account)
      + (if last.account == account && last.external.Some? then {(last.external.value, last.Signed())} else {})
  }

  ghost predicate IsHeld(log: seq<Statement>, account: Id, x: (string, int)) {
    exists i :: 0 <= i < |log| && log[i].account == account && log[i].external == Some(x.0) && log[i].Signed() == x.1
  }

  lemma {:induction false} HeldRows(log: seq<Statement>, account: Id, x: (string, int))
    ensures x in Held(log, account) <==> IsHeld(log, account, x)
  {
    if log != [] {
      var n := |log| - 1;
      HeldRows(log[..n], account, x);
      if IsHeld(log[..n], account, x) {
        var i :| 0 <= i < n && log[..n][i].account == account && log[..n][i].external == Some(x.0) && log[..n][i].Signed() == x.1;
        assert log[i] == log[..n][i];
      }
      if IsHeld(log, account, x) {
        var i :| 0 <= i < |log| && log[i].account == account && log[i].external == Some(x.0) && log[i].Signed() == x.1;
        assert i < n ==> log[..n][i] == log[i];
      }
    }
  }

  function Names(held: set<(string, int)>): set<string> {
    set p | p in held :: p.0
  }

  /** A file in which every transaction has its own FITID. */
  predicate Identified(txns: seq<Transaction>) {
    && (forall k :: 0 <= k < |txns| ==> txns[k].fitid != "")
    && (forall i, j :: 0 <= i < j < |txns| ==> txns[i].fitid != txns[j].fitid)
  }

  /** What a file adds to an account that holds these already. */
  function New(held: set<(string, int)>, txns: seq<Transaction>): set<(string, int)> {
    set k | 0 <= k < |txns| && txns[k].amount != 0 && txns[k].fitid !in Names(held) :: (txns[k].fitid, txns[k].amount)
  }

  ghost function Sum(s: set<(string, int)>): int {
    if s == {} then 0 else var x :| x in s; x.1 + Sum(s - {x})
  }

  lemma {:induction false} SumWithout(s: set<(string, int)>, y: (string, int))
    requires y in s
    ensures Sum(s) == y.1 + Sum(s - {y})
    decreases s
  {
    var x :| x in s && Sum(s) == x.1 + Sum(s - {x});
    if x != y {
      SumWithout(s - {x}, y);
      SumWithout(s - {y}, x);
      assert s - {x} - {y} == s - {y} - {x};
    }
  }

  lemma {:induction false} SumOfUnion(a: set<(string, int)>, b: set<(string, int)>)
    requires a !! b
    ensures Sum(a + b) == Sum(a) + Sum(b)
    decreases a
  {
    if a == {} {
      assert a + b == b;
    } else {
      var x :| x in a;
      SumWithout(a, x);
      SumWithout(a + b, x);
      assert a + b - {x} == (a - {x}) + b;
      SumOfUnion(a - {x}, b);
    }
  }

  function SignedSum(batch: seq<Statement>): int {
    if batch == [] then 0 else SignedSum(batch[..|batch| - 1]) + batch[|batch| - 1].Signed()
  }

  lemma {:induction false} FinalIsWrappedSum(b: int, batch: seq<Statement>)
    requires InRange(b)
    ensures Final(b, batch) == Wrap(b + SignedSum(batch))
  {
    if batch != [] {
      FinalIsWrappedSum(b, batch[..|batch| - 1]);
      WrapAbsorbs(b + SignedSum(batch[..|batch| - 1]), batch[|batch| - 1].Signed());
    }
  }

  lemma {:induction false} HeldSum(batch: seq<Statement>, account: Id)
    requires forall i :: 0 <= i < |batch| ==> batch[i].external.Some? && batch[i].account == account
    requires forall i, j :: 0 <= i < j < |batch| ==> batch[i].external != batch[j].external
    ensures Sum(Held(batch, account)) == SignedSum(batch) && |Held(batch, account)| == |batch|
  {
    if batch != [] {
      var n := |batch| - 1;
      var last := (batch[n].external.value, batch[n].Signed());
      var before := Held(batch[..n], account);
      HeldSum(batch[..n], account);
      HeldRows(batch[..n], account, last);
      assert forall i :: 0 <= i < n ==> batch[..n][i].external == batch[i].external != batch[n].external;
      SumWithout(before + {last}, last);
      assert before + {last} - {last} == before;
    }
  }

  /** A transaction with an FITID is skipped exactly when it is worth nothing or the account holds its FITID. */
  lemma SkippedMeansHeld(db: Db, req: Request, k: nat)
    requires req.Import? && k < |req.transactions| && req.transactions[k].fitid != ""
    ensures Skipped(Existing(db, req), req.transactions[k])
            <==> req.transactions[k].amount == 0 || req.transactions[k].fitid in Names(Held(db.log, req.account))
  {
    SkippedIsHeld(db.log, req.account, req.transactions, k);
    HeldNames(db.log, req.account, req.transactions[k].fitid);
  }

  lemma ImportedHolds(req: Request, p: seq<nat>, rows: seq<Statement>, x: (string, int))
    requires req.Import? && WellFormed(req) && InRangeFile(req.transactions) && Identified(req.transactions)
    requires Imported(req, p, rows)
    ensures x in Held(rows, req.account) <==> exists j :: 0 <= j < |p| && x == (req.transactions[p[j]].fitid, req.transactions[p[j]].amount)
  {
    HeldRows(rows, req.account, x);
    forall j | 0 <= j < |p|
      ensures rows[j].account == req.account && rows[j].external == Some(req.transactions[p[j]].fitid)
              && rows[j].Signed() == req.transactions[p[j]].amount
    {
      assert RowOfTransaction(req, p[j], rows[j]);
    }
  }

  /** The imported rows are the new transactions of the file, each once. */
  lemma ImportedContents(db: Db, req: Request, p: seq<nat>, rows: seq<Statement>)
    requires req.Import? && WellFormed(req) && InRangeFile(req.transactions) && Identified(req.transactions)
    requires p == Picked(Existing(db, req), req.transactions) && Imported(req, p, rows)
    ensures Held(rows, req.account) == New(Held(db.log, req.account), req.transactions)
  {
    hide Existing, Picked, Skipped, Imported, Held, Names;
    var e, txns := Existing(db, req), req.transactions;
    var held := Held(db.log, req.account);
    forall x ensures x in Held(rows, req.account) <==> x in New(held, txns) {
      ImportedHolds(req, p, rows, x);
      if x in Held(rows, req.account) {
        var j :| 0 <= j < |p| && x == (txns[p[j]].fitid, txns[p[j]].amount);
        SkippedMeansHeld(db, req, p[j]);
      }
      if x in New(held, txns) {
        var k :| 0 <= k < |txns| && txns[k].amount != 0 && txns[k].fitid !in Names(held) && x == (txns[k].fitid, txns[k].amount);
        SkippedMeansHeld(db, req, k);
        var j :| 0 <= j < |p| && p[j] == k;
      }
    }
  }

  lemma ImportedIdentified(req: Request, p: seq<nat>, rows: seq<Statement>)
    requires req.Import? && WellFormed(req) && Identified(req.transactions) && Imported(req, p, rows)
    ensures forall i :: 0 <= i < |rows| ==> rows[i].external.Some? && rows[i].account == req.account
    ensures forall i, j :: 0 <= i < j < |rows| ==> rows[i].external != rows[j].external
  {
    forall j | 0 <= j < |p| ensures rows[j].external == Some(req.transactions[p[j]].fitid) && rows[j].account == req.account {
      assert RowOfTransaction(req, p[j], rows[j]);
    }
  }

  lemma HeldNames(log: seq<Statement>, account: Id, fitid: string)
    ensures fitid in Names(Held(log, account)) <==> Holds(log, account, fitid)
  {
    if Holds(log, account, fitid) {
      var i :| 0 <= i < |log| && log[i].account == account && log[i].external == Some(fitid);
      HeldRows(log, account, (fitid, log[i].Signed()));
    }
    if fitid in Names(Held(log, account)) {
      var x :| x in Held(log, account) && x.0 == fitid;
      HeldRows(log, account, x);
    }
  }

  lemma {:induction false} HeldGrows(log: seq<Statement>, rows: seq<Statement>, account: Id)
    ensures Held(log + rows, account) == Held(log, account) + Held(rows, account)
  {
    if rows == [] {
      assert log + rows == log;
    } else {
      var n := |rows| - 1;
      HeldGrows(log, rows[..n], account);
      assert (log + rows)[..|log + rows| - 1] == log + rows[..n];
    }
  }

  lemma {:induction false} HeldIgnoresBalances(b: int, batch: seq<Statement>, account: Id)
    ensures Held(Rows(b, batch), account) == Held(batch, account)
  {
    if batch != [] {
      var n := |batch| - 1;
      HeldIgnoresBalances(b, batch[..n], account);
      assert Rows(b, batch)[..n] == Rows(b, batch[..n]);
    }
  }

  /** after holds exactly these bank transactions more than before. */
  ghost predicate Gained(before: Db, after: Db, account: Id, added: set<(string, int)>) {
    && account in before.accounts && account in after.accounts
    && Held(after.log, account) == Held(before.log, account) + added
    && after.accounts[account].balance == Wrap(before.accounts[account].balance + Sum(added))
    && |after.log| == |before.log| + |added|
  }

  lemma BalanceInRange(db: Db, account: Id)
    requires BooksHold(db) && account in db.accounts
    ensures InRange(db.accounts[account].balance)
  {
    LastIsWrappedTotal(db.log, account);
  }

  lemma FinalIs(b: int, batch: seq<Statement>, sum: int)
    requires InRange(b) && sum == SignedSum(batch)
    ensures Final(b, batch) == Wrap(b + sum)
  {
    FinalIsWrappedSum(b, batch);
  }

  lemma PostedState(db: Db, account: Id, batch: seq<Statement>, after: Db)
    requires account in db.accounts && Post(db, account, batch) == Ok(after)
    ensures account in after.accounts
    ensures after.accounts[account].balance == Final(db.accounts[account].balance, batch)
    ensures after.log == db.log + Rows(db.accounts[account].balance, batch)
  {
  }

  lemma PostGains(db: Db, account: Id, batch: seq<Statement>, after: Db)
    requires account in db.accounts && InRange(db.accounts[account].balance) && Post(db, account, batch) == Ok(after)
    requires forall i :: 0 <= i < |batch| ==> batch[i].external.Some? && batch[i].account == account
    requires forall i, j :: 0 <= i < j < |batch| ==> batch[i].external != batch[j].external
    ensures Gained(db, after, account, Held(batch, account)) && |Held(batch, account)| == |batch|
  {
    hide Wrap, Post, Rows, Final, Held, SignedSum, Sum;
    var b := db.accounts[account].balance;
    PostedState(db, account, batch, after);
    HeldSum(batch, account);
    FinalIs(b, batch, Sum(Held(batch, account)));
    HeldIgnoresBalances(b, batch, account);
    HeldGrows(db.log, Rows(b, batch), account);
  }

  /** A successful import adds exactly the new transactions of the file, the balance moves by their
      sum, and every transaction of the file is counted as created or as skipped. */
  lemma ImportEffect(db: Db, req: Request)
    requires BooksHold(db) && req.Import? && WellFormed(req)
    requires InRangeFile(req.transactions) && Identified(req.transactions)
    requires ImportFile(db, req).result.Ok?
    ensures var out := ImportFile(db, req); var added := New(Held(db.log, req.account), req.transactions);
            && Gained(db, out.db, req.account, added)
            && out.result.value.created == |added|
            && out.result.value.total == |req.transactions| == |added| + out.result.value.skipped
  {
    var drafts := PrepareImport(Latest(db), req).value;
    DraftsAreImported(db, req);
    var p := Picked(Existing(db, req), req.transactions);
    ImportedContents(db, req, p, drafts);
    ImportedIdentified(req, p, drafts);
    BalanceInRange(db, req.account);
    PostGains(db, req.account, drafts, ImportFile(db, req).db);
  }

  lemma ImportKeepsBooks(db: Db, req: Request)
    requires BooksHold(db) && Distinct(db.log) && req.Import? && WellFormed(req)
    ensures var out := ImportFile(db, req).db;
            && BooksHold(out) && Distinct(out.log)
            && (forall user :: Authorize(out, req.account, user) == Authorize(db, req.account, user))
            && (forall user :: Usable(out, req.account, user) == Usable(db, req.account, user))
  {
    if PrepareImport(Latest(db), req).Ok? {
      var drafts := PrepareImport(Latest(db), req).value;
      DraftsAreImported(db, req);
      forall d | d in drafts ensures d.account == req.account {
        var i :| 0 <= i < |drafts| && drafts[i] == d;
        assert RowOfTransaction(req, Picked(Existing(db, req), req.transactions)[i], d);
      }
      if drafts != [] && Post(db, req.account, drafts).Ok? { PostingKeepsBooks(db, req.account, drafts); }
    }
  }

  /* ---------- Repeating and swapping imports ---------- */

  lemma NewAfterAll(held: set<(string, int)>, txns: seq<Transaction>)
    ensures New(held + New(held, txns), txns) == {}
  {
    forall k | 0 <= k < |txns| && txns[k].amount != 0 ensures txns[k].fitid in Names(held + New(held, txns)) {
      if txns[k].fitid in Names(held) {
        var x :| x in held && x.0 == txns[k].fitid;
        assert x in held + New(held, txns);
      } else {
        assert (txns[k].fitid, txns[k].amount) in New(held, txns);
      }
    }
  }

  /** An import that finds nothing new succeeds. */
  lemma NothingNewSucceeds(db: Db, req: Request)
    requires req.Import? && WellFormed(req) && InRangeFile(req.transactions) && Identified(req.transactions)
    requires Authorize(db, req.account, req.user).Ok? && New(Held(db.log, req.account), req.transactions) == {}
    ensures ImportFile(db, req).result.Ok?
  {
    hide Existing, Held, Names, Skipped, RowsOk, TagRowsOk;
    var e, txns := Existing(db, req), req.transactions;
    forall k | 0 <= k < |txns| ensures Skipped(e, txns[k]) {
      SkippedMeansHeld(db, req, k);
      var t := txns[k];
      assert t.amount != 0 && t.fitid !in Names(Held(db.log, req.account)) ==> (t.fitid, t.amount) in New(Held(db.log, req.account), txns);
    }
    DraftsMapped(db, req);
    DraftsAreImported(db, req);
    AllSkipped(e, txns);
  }

  lemma {:induction false} AllSkipped(existing: set<string>, txns: seq<Transaction>)
    requires forall k :: 0 <= k < |txns| ==> Skipped(existing, txns[k])
    ensures Picked(existing, txns) == []
  {
    if txns != [] { AllSkipped(existing, txns[..|txns| - 1]); }
  }

  /** Importing a file a second time, even with other ids, at another time and by another user who may, succeeds,
      creates nothing and changes nothing. */
  lemma ReimportDoesNothing(db: Db, req: Request, again: Request)
    requires BooksHold(db) && Distinct(db.log)
    requires req.Import? && WellFormed(req) && again.Import? && WellFormed(again)
    requires again.account == req.account && again.transactions == req.transactions
    requires InRangeFile(req.transactions) && Identified(req.transactions)
    requires ImportFile(db, req).result.Ok? && Authorize(db, req.account, again.user).Ok?
    ensures var first := ImportFile(db, req).db;
            ImportFile(first, again) == Outcome(first, Ok(Summary(|req.transactions|, 0, |req.transactions|)))
  {
    hide Held, New, Names, Sum, BooksHold, Distinct, Authorize, Wrap, Skipped, CountSkipped;
    var first := ImportFile(db, req).db;
    ImportEffect(db, req);
    ImportKeepsBooks(db, req);
    NewAfterAll(Held(db.log, req.account), req.transactions);
    NothingNewSucceeds(first, again);
    ImportEffect(first, again);
  }

  /** Transactions that two files share have the same amount. */
  ghost predicate Agree(a: seq<Transaction>, b: seq<Transaction>) {
    forall i, j :: 0 <= i < |a| && 0 <= j < |b| && a[i].fitid == b[j].fitid ==> a[i].amount == b[j].amount
  }

  lemma NewOfBoth(held: set<(string, int)>, a: seq<Transaction>, b: seq<Transaction>)
    requires Agree(a, b)
    ensures New(held, a) + New(held + New(held, a), b) == New(held, a) + New(held, b)
    ensures New(held, a) !! New(held + New(held, a), b)
  {
    var first := New(held, a);
    var then' := held + first;
    assert forall n :: n in Names(held) ==> n in Names(then') by {
      forall n | n in Names(held) ensures n in Names(then') {
        var x :| x in held && x.0 == n;
        assert x in then';
      }
    }
    forall x | x in New(held, b) ensures x in first || x in New(then', b) {
      var j :| 0 <= j < |b| && b[j].amount != 0 && b[j].fitid !in Names(held) && x == (b[j].fitid, b[j].amount);
      if b[j].fitid in Names(then') {
        var y :| y in then' && y.0 == b[j].fitid;
        assert y !in held;
        var i :| 0 <= i < |a| && a[i].amount != 0 && y == (a[i].fitid, a[i].amount);
        assert a[i].amount == b[j].amount;
      }
    }
    forall x | x in first ensures x !in New(then', b) {
      assert x in then' && x.0 in Names(then');
    }
  }

  lemma GainTwice(db: Db, mid: Db, after: Db, account: Id, one: set<(string, int)>, two: set<(string, int)>)
    requires Gained(db, mid, account, one) && Gained(mid, after, account, two) && one !! two
    ensures Gained(db, after, account, one + two)
  {
    hide Wrap;
    AddTwice(Held(db.log, account), one, two);
    WrapTwice(db.accounts[account].balance, Sum(one), Sum(two), Sum(one + two));
  }

  lemma AddTwice(held: set<(string, int)>, one: set<(string, int)>, two: set<(string, int)>)
    requires one !! two
    ensures held + one + two == held + (one + two)
    ensures Sum(one + two) == Sum(one) + Sum(two) && |one + two| == |one| + |two|
  {
    SumOfUnion(one, two);
  }

  lemma Commute(one: set<(string, int)>, two: set<(string, int)>)
    ensures one + two == two + one
  {
  }

  lemma EffectOfTwo(db: Db, a: Request, b: Request)
    requires BooksHold(db) && Distinct(db.log)
    requires a.Import? && WellFormed(a) && b.Import? && WellFormed(b) && a.account == b.account
    requires InRangeFile(a.transactions) && Identified(a.transactions)
    requires InRangeFile(b.transactions) && Identified(b.transactions)
    requires Agree(a.transactions, b.transactions)
    requires ImportFile(db, a).result.Ok? && ImportFile(ImportFile(db, a).db, b).result.Ok?
    ensures var held := Held(db.log, a.account);
            Gained(db, ImportFile(ImportFile(db, a).db, b).db, a.account, New(held, a.transactions) + New(held, b.transactions))
  {
    var held := Held(db.log, a.account);
    var mid := ImportFile(db, a).db;
    ImportEffect(db, a);
    ImportKeepsBooks(db, a);
    ImportEffect(mid, b);
    NewOfBoth(held, a.transactions, b.transactions);
    GainTwice(db, mid, ImportFile(mid, b).db, a.account, New(held, a.transactions), New(held + New(held, a.transactions), b.transactions));
  }

  lemma GainsAgree(db: Db, x: Db, y: Db, account: Id, u: set<(string, int)>, v: set<(string, int)>)
    requires Gained(db, x, account, u) && Gained(db, y, account, v) && u == v
    ensures x.accounts[account].balance == y.accounts[account].balance
    ensures Held(x.log, account) == Held(y.log, account) && |x.log| == |y.log|
  {
  }

  /** Two imports of one account in either order leave the same balance and the same bank transactions. */
  lemma OrderDoesNotMatter(db: Db, a: Request, b: Request)
    requires BooksHold(db) && Distinct(db.log)
    requires a.Import? && WellFormed(a) && b.Import? && WellFormed(b) && a.account == b.account
    requires InRangeFile(a.transactions) && Identified(a.transactions)
    requires InRangeFile(b.transactions) && Identified(b.transactions)
    requires Agree(a.transactions, b.transactions)
    requires ImportFile(db, a).result.Ok? && ImportFile(ImportFile(db, a).db, b).result.Ok?
    requires ImportFile(db, b).result.Ok? && ImportFile(ImportFile(db, b).db, a).result.Ok?
    ensures var ab := ImportFile(ImportFile(db, a).db, b).db; var ba := ImportFile(ImportFile(db, b).db, a).db;
            && a.account in ab.accounts && a.account in ba.accounts
            && ab.accounts[a.account].balance == ba.accounts[a.account].balance
            && Held(ab.log, a.account) == Held(ba.log, a.account)
            && |ab.log| == |ba.log|
  {
    var held := Held(db.log, a.account);
    EffectOfTwo(db, a, b);
    assert Agree(b.transactions, a.transactions);
    EffectOfTwo(db, b, a);
    Commute(New(held, a.transactions), New(held, b.transactions));
    GainsAgree(db, ImportFile(ImportFile(db, a).db, b).db, ImportFile(ImportFile(db, b).db, a).db, a.account,
               New(held, a.transactions) + New(held, b.transactions), New(held, b.transactions) + New(held, a.transactions));
  }

  /** When a then b succeed, b then a succeed exactly if b alone, without the transactions it shares with a already
      there, still fits one INSERT. */
  lemma OrderDoesNotMatterForSuccess(db: Db, a: Request, b: Request)
    requires BooksHold(db) && Distinct(db.log)
    requires a.Import? && WellFormed(a) && b.Import? && WellFormed(b) && a.account == b.account
    requires InRangeFile(a.transactions) && Identified(a.transactions)
    requires InRangeFile(b.transactions) && Identified(b.transactions)
    requires Agree(a.transactions, b.transactions)
    requires FreshIds(db.log, a.ids + b.ids)
    requires ImportFile(db, a).result.Ok? && ImportFile(ImportFile(db, a).db, b).result.Ok?
    ensures ImportFile(db, b).result.Ok? && ImportFile(ImportFile(db, b).db, a).result.Ok?
            <==> CountPicked(Existing(db, b), b.transactions) <= MAX_BATCH
  {
    hide BooksHold, Distinct, Existing, Negatable, Storable, CountPicked, ImportFile, FreshIds, Agree, Authorize, Usable;
    IdsStayFresh(db, a, b);
    IdsStayFresh(db, b, a);
    ImportKeepsBooks(db, a);
    ImportKeepsBooks(db, b);
    ImportSucceedsIff(db, a);
    ImportSucceedsIff(ImportFile(db, a).db, b);
    ImportSucceedsIff(db, b);
    FineEitherWay(db, a, b);
    ImportSucceedsIff(ImportFile(db, b).db, a);
    FewerAfter(db, b, a);
    IdentifiedNeverRepeats(Existing(db, b), b.transactions);
    IdentifiedNeverRepeats(Existing(ImportFile(db, b).db, a), a.transactions);
  }

  lemma IdentifiedNeverRepeats(existing: set<string>, txns: seq<Transaction>)
    requires Identified(txns)
    ensures NoRepeats(existing, txns)
  {
  }

  lemma {:induction false} MoreSkipped(e: set<string>, f: set<string>, txns: seq<Transaction>)
    requires forall k :: 0 <= k < |txns| && Skipped(e, txns[k]) ==> Skipped(f, txns[k])
    ensures CountSkipped(e, txns) <= CountSkipped(f, txns)
  {
    if txns != [] { MoreSkipped(e, f, txns[..|txns| - 1]); }
  }

  /** After another import of the account a file brings no more than before, and nothing it did not bring before. */
  lemma FewerAfter(db: Db, first: Request, req: Request)
    requires first.Import? && WellFormed(first) && req.Import? && req.account == first.account
    ensures var e, f := Existing(db, req), Existing(ImportFile(db, first).db, req);
            && CountPicked(f, req.transactions) <= CountPicked(e, req.transactions)
            && (Negatable(e, req.transactions) ==> Negatable(f, req.transactions))
            && (Storable(e, req.transactions) ==> Storable(f, req.transactions))
  {
    hide ImportFile, Skipped;
    SkippedAfter(db, first, req.transactions);
    MoreSkipped(Existing(db, req), Existing(ImportFile(db, first).db, req), req.transactions);
  }

  /** What an account held before an import is skipped after it too. */
  lemma SkippedAfter(db: Db, req: Request, txns: seq<Transaction>)
    requires req.Import? && WellFormed(req)
    ensures var later := ImportFile(db, req).db;
            forall k :: 0 <= k < |txns| && Skipped(ExistingIds(db.log, req.account, txns), txns[k])
              ==> Skipped(ExistingIds(later.log, req.account, txns), txns[k])
  {
    var later := ImportFile(db, req).db;
    forall k | 0 <= k < |txns| && txns[k].fitid != "" && Holds(db.log, req.account, txns[k].fitid)
      ensures Holds(later.log, req.account, txns[k].fitid)
    {
      var i :| 0 <= i < |db.log| && db.log[i].account == req.account && db.log[i].external == Some(txns[k].fitid);
      assert later.log[i] == db.log[i];
    }
    forall k | 0 <= k < |txns| && txns[k].fitid != ""
      ensures txns[k].fitid in ExistingIds(db.log, req.account, txns) ==> txns[k].fitid in ExistingIds(later.log, req.account, txns)
    {
      SkippedIsHeld(db.log, req.account, txns, k);
      SkippedIsHeld(later.log, req.account, txns, k);
    }
  }

  lemma IdsStayFresh(db: Db, a: Request, b: Request)
    requires a.Import? && WellFormed(a) && b.Import?
    requires FreshIds(db.log, a.ids + b.ids) || FreshIds(db.log, b.ids + a.ids)
    ensures FreshIds(db.log, a.ids) && FreshIds(db.log, b.ids)
    ensures FreshIds(ImportFile(db, a).db.log, b.ids)
    ensures FreshIds(db.log, b.ids + a.ids) && FreshIds(db.log, a.ids + b.ids)
  {
    hide RowsOk, TagRowsOk, Picked, Existing, Wrap;
    var later := ImportFile(db, a).db.log;
    FreshParts(db.log, a.ids, b.ids);
    forall i, j | |db.log| <= i < |later| && 0 <= j < |b.ids| ensures later[i].id != b.ids[j] { ImportUsesItsIds(db, a, i); }
    forall j | 0 <= j < |b.ids| ensures !HasStatement(later, b.ids[j]) {
      assert !HasStatement(db.log, b.ids[j]);
      assert forall i :: 0 <= i < |db.log| ==> later[i] == db.log[i];
    }
  }

  lemma ImportUsesItsIds(db: Db, a: Request, i: nat)
    requires a.Import? && WellFormed(a) && |db.log| <= i < |ImportFile(db, a).db.log|
    ensures ImportFile(db, a).db.log[i].id in a.ids
  {
    hide RowsOk, TagRowsOk, Picked, Existing, Wrap;
    DraftsAreImported(db, a);
    var drafts := PrepareImport(Latest(db), a).value;
    var p := Picked(Existing(db, a), a.transactions);
    assert RowOfTransaction(a, p[i - |db.log|], drafts[i - |db.log|]);
  }

  lemma FreshParts(log: seq<Statement>, a: seq<Id>, b: seq<Id>)
    requires FreshIds(log, a + b) || FreshIds(log, b + a)
    ensures FreshIds(log, a) && FreshIds(log, b) && FreshIds(log, a + b) && FreshIds(log, b + a)
    ensures forall i, j :: 0 <= i < |a| && 0 <= j < |b| ==> a[i] != b[j]
  {
    var ab, ba := a + b, b + a;
    assert forall i :: 0 <= i < |a| ==> ab[i] == a[i] && ba[|b| + i] == a[i];
    assert forall i :: 0 <= i < |b| ==> ba[i] == b[i] && ab[|a| + i] == b[i];
  }

  /** A transaction of b that a's import makes skippable has the FITID and the amount of one that a brought. */
  lemma BroughtByOther(db: Db, a: Request, b: Request, k: nat)
    requires a.Import? && WellFormed(a) && b.Import? && a.account == b.account && k < |b.transactions|
    requires Agree(a.transactions, b.transactions) && InRangeFile(a.transactions) && Identified(a.transactions)
    requires Identified(b.transactions) && BooksHold(db) && ImportFile(db, a).result.Ok?
    requires !Skipped(Existing(db, b), b.transactions[k])
    requires Skipped(Existing(ImportFile(db, a).db, b), b.transactions[k])
    ensures exists i :: 0 <= i < |a.transactions| && !Skipped(Existing(db, a), a.transactions[i])
                        && a.transactions[i].fitid == b.transactions[k].fitid && a.transactions[i].amount == b.transactions[k].amount
  {
    hide Existing, Skipped, ImportFile, Held;
    var y := b.transactions[k];
    var later := ImportFile(db, a).db;
    SkippedMeansHeld(db, b, k);
    SkippedMeansHeld(later, b, k);
    ImportEffect(db, a);
    var x :| x in Held(later.log, b.account) && x.0 == y.fitid;
    assert x !in Held(db.log, a.account);
    var i :| 0 <= i < |a.transactions| && x == (a.transactions[i].fitid, a.transactions[i].amount)
             && a.transactions[i].amount != 0 && a.transactions[i].fitid !in Names(Held(db.log, a.account));
    SkippedMeansHeld(db, a, i);
  }

  /** What importing b after a does not trip over, importing b first does not either. */
  lemma FineEitherWay(db: Db, a: Request, b: Request)
    requires a.Import? && WellFormed(a) && b.Import? && WellFormed(b) && a.account == b.account
    requires Agree(a.transactions, b.transactions) && InRangeFile(a.transactions)
    requires Identified(a.transactions) && Identified(b.transactions)
    requires BooksHold(db) && ImportFile(db, a).result.Ok?
    requires Negatable(Existing(db, a), a.transactions) && Storable(Existing(db, a), a.transactions)
    requires var later := Existing(ImportFile(db, a).db, b);
             Negatable(later, b.transactions) && Storable(later, b.transactions)
    ensures Negatable(Existing(db, b), b.transactions) && Storable(Existing(db, b), b.transactions)
  {
    hide Existing, Skipped, ImportFile, BooksHold, Agree, InRangeFile, Identified;
    var y := b.transactions;
    forall k | 0 <= k < |y| && !Skipped(Existing(db, b), y[k]) ensures y[k].amount != MIN && |y[k].fitid| <= MAX_EXTERNAL {
      if Skipped(Existing(ImportFile(db, a).db, b), y[k]) { BroughtByOther(db, a, b, k); }
    }
  }
}
