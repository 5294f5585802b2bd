/** A whole run in which two overlapping tag replacements leave a tag that the later one did not ask for. */
module TagRace {
  import opened Int64
  import opened Wrappers
  import opened Ledger
  import opened UseCases
  import opened Consistency
  import opened Transactions
  import opened Guarantees

  const SEED: Db := Db(map[], [], map[
    ESTORNO_CREDIT := Category(None, Credit, "Estorno", true),
    ESTORNO_DEBIT := Category(None, Debit, "Estorno", true)], map[
    "a" := Tag(None, "recorrente", true),
    "c" := Tag(None, "pessoal", true)])

  const WITH_ACCOUNT: Db := SEED.(accounts := map["A" := Account("U", 0, true, "")])

  const TAGGED: Statement := Statement("S", "A", Credit, 5, "", None, None, 0, 0, 0, None, {"a"})

  const WITH_STATEMENT: Db := WITH_ACCOUNT.(accounts := map["A" := Account("U", 5, true, "")], log := [TAGGED.(balanceAfter := 5)])

  const CREATE: Request := Create("A", "", "credit", 5, "", None, None, ["a"], "S", 0)

  lemma Seed()
    ensures Initial(State(SEED, [SEED], [], map[], map[], false))
  {
    assert ESTORNO_CREDIT[25] != ESTORNO_DEBIT[25];
    forall typ ensures EstornoId(typ) in SEED.categories { }
  }

  lemma Granted(db: Db, tag: Id, owner: Id)
    requires db.tags == SEED.tags && tag in SEED.tags
    ensures ResolveTags(db, [tag], owner) == Ok({tag})
  {
    assert (set t | t in [tag]) == {tag};
    assert FindManyVisible(db, {tag}, owner) == {tag};
  }

  lemma Prepared()
    ensures var db := WITH_ACCOUNT;
            Prepare(Snapshots(db, db, db, db, db), CREATE) == Ok([TAGGED])
  {
    hide ResolveTags;
    Granted(WITH_ACCOUNT, "a", "U");
  }

  lemma RowsFit()
    ensures Rows(0, [TAGGED]) == [TAGGED.(balanceAfter := 5)] && Final(0, [TAGGED]) == 5
  {
    hide Wrap;
    assert [TAGGED][..0] == [];
  }

  lemma RowsPass()
    ensures var rows := [TAGGED.(balanceAfter := 5)]; RowsOk(WITH_ACCOUNT, rows) && TagRowsOk(WITH_ACCOUNT, rows)
  {
    assert WITH_ACCOUNT.log == [];
  }

  lemma PostsIt()
    ensures Post(WITH_ACCOUNT, "A", [TAGGED]) == Ok(WITH_STATEMENT)
  {
    RowsFit();
    RowsPass();
    hide Rows, Final, RowsOk, TagRowsOk;
    var rows := [TAGGED.(balanceAfter := 5)];
    assert WITH_ACCOUNT.log + rows == rows;
    assert Settle(WITH_ACCOUNT, "A", rows, 5).accounts == WITH_STATEMENT.accounts;
  }

  /** Service calls for the two tags, reading the newest state. */
  lemma Replaces(tag: Id)
    requires tag in SEED.tags
    ensures var db := WITH_STATEMENT;
            PrepareTags(Snapshots(db, db, db, db, db), "", "S", [tag]) == Ok({tag})
    ensures HasStatement(WITH_STATEMENT.log, "S") && TagsOf(WITH_STATEMENT.log, "S") == {"a"}
  {
    Granted(WITH_STATEMENT, tag, "U");
    assert WITH_STATEMENT.log[0].id == "S";
  }

  lemma Posted() returns (run: Run)
    ensures run.Valid() && |run.steps| == 7 && run.Last().db == WITH_STATEMENT && run.Last().tagCalls == map[]
  {
    hide Prepare, Post, Inv, PrepareTags;
    Seed();
    Prepared();
    PostsIt();
    var start := Run([State(SEED, [SEED], [], map[], map[], false)], []);
    var open := CreateAccount("A", "U", "");
    assert Apply(SEED, open) == Ok(WITH_ACCOUNT);
    ThenIsValid(start, Write(open));
    var opened' := Then(start, Write(open));
    RunSound(opened', 1);
    NewestIsCurrent(opened'.Last());
    run := UncontendedCommits(opened', 0, CREATE);
  }

  lemma NewestIsCurrent(s: State)
    requires Inv(s)
    ensures s.past != [] && See(s, Newest(s)) == Snapshots(s.db, s.db, s.db, s.db, s.db)
  {
  }

  const FIRST_IDS: seq<Id> := ["a"]
  const SECOND_IDS: seq<Id> := ["c"]

  lemma TheyAreRivals(s: State)
    requires Inv(s) && s.db == WITH_STATEMENT && s.tagCalls == map[]
    ensures s.past != []
    ensures var first, second := StartTags(1, "", "S", FIRST_IDS, Newest(s)), StartTags(2, "", "S", SECOND_IDS, Newest(s));
            Rivals(s, first, second) && Requested(s, first) == {"a"} && Requested(s, second) == {"c"}
  {
    hide PrepareTags, TagsOf, Apply, Inv;
    NewestIsCurrent(s);
    Replaces("a");
    Replaces("c");
  }

  /** The statement carries "a". One call replaces its tags by "a" again, an overlapping one by "c", and the later
      one leaves both. */
  lemma CommonTagSurvives() returns (run: Run)
    ensures run.Valid() && |run.steps| == 11 && run.states[7].past != []
    ensures TagsOf(run.states[7].db.log, "S") == {"a"}
    ensures run.steps[7] == StartTags(1, "", "S", FIRST_IDS, Newest(run.states[7]))
            && run.steps[8] == StartTags(2, "", "S", SECOND_IDS, Newest(run.states[7]))
            && run.steps[9] == CommitTags(1) && run.steps[10] == CommitTags(2)
    ensures TagsOf(run.Last().db.log, "S") == {"a", "c"}
  {
    hide Prepare, Post, Inv, PrepareTags, TagsOf, Do, Enabled, Rivals, Requested, Initial, Apply, Replay, Consistent;
    var posted := Posted();
    RunSound(posted, 7);
    var s := posted.Last();
    TheyAreRivals(s);
    Replaces("a");
    var first, second := StartTags(1, "", "S", FIRST_IDS, Newest(s)), StartTags(2, "", "S", SECOND_IDS, Newest(s));
    var both := OverlappingReplacementsUnite(posted, first, second);
    ThenIsValid(both, CommitTags(2));
    run := Then(both, CommitTags(2));
    assert run.states[7] == both.states[7] == posted.states[7];
    assert {"a"} + {"c"} == {"a", "c"};
  }
}
