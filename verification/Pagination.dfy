/**
 Listing statements by page number and by cursor. Rows are ordered by (posted_at, id),
 newest first; a cursor is the key of the last row of a full page.
 */
module Pagination {
  import opened Strings
  import opened Wrappers
  import opened Ledger
  import opened Consistency
  import opened Transactions
  import Guarantees

  /* ---------- The order of the rows ---------- */

  datatype Key = Key(postedAt: int, id: Id)

  /** Lexicographic order; on UUIDs in their canonical spelling it is the order of the uuid type. */
  predicate Less(a: string, b: string) {
    |b| > 0 && (|a| == 0 || a[0] < b[0] || (a[0] == b[0] && Less(a[1..], b[1..])))
  }

  /** (a.posted_at, a.id) < (b.posted_at, b.id) as PostgreSQL compares rows. */
  predicate Older(a: Key, b: Key) {
    a.postedAt < b.postedAt || (a.postedAt == b.postedAt && Less(a.id, b.id))
  }

  function KeyOf(s: Statement): Key {
    Key(s.postedAt, s.id)
  }

  lemma {:induction false} LessIsTotal(a: string, b: string)
    ensures Less(a, b) || Less(b, a) || a == b
    ensures !(Less(a, b) && Less(b, a)) && !Less(a, a)
  {
    if a != [] { LessIsTotal(a[1..], if b == [] then [] else b[1..]); }
    if a != [] && b != [] && a[0] == b[0] && a[1..] == b[1..] {
      assert a == [a[0]] + a[1..] && b == [b[0]] + b[1..];
    }
  }

  lemma {:induction false} LessTransitive(a: string, b: string, c: string)
    requires Less(a, b) && Less(b, c)
    ensures Less(a, c)
  {
    if a != [] && a[0] == b[0] == c[0] { LessTransitive(a[1..], b[1..], c[1..]); }
  }

  lemma OlderIsTotal(a: Key, b: Key)
    ensures Older(a, b) || Older(b, a) || a == b
    ensures !(Older(a, b) && Older(b, a)) && !Older(a, a)
  {
    LessIsTotal(a.id, b.id);
    LessIsTotal(a.id, a.id);
  }

  lemma OlderTransitive(a: Key, b: Key, c: Key)
    requires Older(a, b) && Older(b, c)
    ensures Older(a, c)
  {
    if a.postedAt == b.postedAt == c.postedAt { LessTransitive(a.id, b.id, c.id); }
  }

  ghost predicate Descending(rows: seq<Statement>) {
    forall i, j :: 0 <= i < j < |rows| ==> Older(KeyOf(rows[j]), KeyOf(rows[i]))
  }

  /* ---------- SELECT ... WHERE ... ORDER BY ---------- */

  datatype Filter = Filter(account: Id, typ: Option<StatementType>, from: Option<int>, to: Option<int>, category: Option<Id>, tagIds: set<Id>)
  {
    /** Looks at columns only that never change. */
    predicate Stable() {
      category.None? && tagIds == {}
    }

    predicate Matches(s: Statement) {
      && s.account == account
      && (typ.Some? ==> s.typ == typ.value)
      && (from.Some? ==> s.postedAt >= from.value)
      && (to.Some? ==> s.postedAt <= to.value)
      && (category.Some? ==> s.category == category)
      && (tagIds != {} ==> s.tags * tagIds != {})
    }
  }

  predicate Wanted(f: Filter, cursor: Option<Key>, s: Statement) {
    f.Matches(s) && (cursor.Some? ==> Older(KeyOf(s), cursor.value))
  }

  function Insert(s: Statement, rows: seq<Statement>): seq<Statement> {
    if rows == [] || Older(KeyOf(rows[0]), KeyOf(s)) then [s] + rows else [rows[0]] + Insert(s, rows[1..])
  }

  /** The matching rows, newest first. */
  function Listing(log: seq<Statement>, f: Filter, cursor: Option<Key>): seq<Statement> {
    if log == [] then []
    else
      var rest := Listing(log[..|log| - 1], f, cursor);
      if Wanted(f, cursor, log[|log| - 1]) then Insert(log[|log| - 1], rest) else rest
  }

  lemma {:induction false} InsertElements(s: Statement, rows: seq<Statement>)
    ensures forall r :: r in Insert(s, rows) <==> r == s || r in rows
    ensures |Insert(s, rows)| == |rows| + 1
  {
    if rows != [] && !Older(KeyOf(rows[0]), KeyOf(s)) {
      InsertElements(s, rows[1..]);
      assert forall r :: r in rows <==> r == rows[0] || r in rows[1..];
    }
  }

  lemma {:induction false} InsertDescending(s: Statement, rows: seq<Statement>)
    requires Descending(rows) && forall r :: r in rows ==> KeyOf(r) != KeyOf(s)
    ensures Descending(Insert(s, rows))
  {
    var all := Insert(s, rows);
    if rows == [] {
    } else if Older(KeyOf(rows[0]), KeyOf(s)) {
      forall j | 0 < j < |all| ensures Older(KeyOf(all[j]), KeyOf(s)) {
        if j > 1 { OlderTransitive(KeyOf(rows[j - 1]), KeyOf(rows[0]), KeyOf(s)); }
      }
    } else {
      OlderIsTotal(KeyOf(rows[0]), KeyOf(s));
      InsertDescending(s, rows[1..]);
      InsertElements(s, rows[1..]);
      forall j | 0 < j < |all| ensures Older(KeyOf(all[j]), KeyOf(all[0])) {
        assert all[j] in Insert(s, rows[1..]);
        assert forall r :: r in rows[1..] ==> Older(KeyOf(r), KeyOf(rows[0]));
      }
    }
  }

  /** A listing holds exactly the matching rows, each once, in strictly descending order. */
  lemma {:induction false} ListingIsExact(log: seq<Statement>, f: Filter, cursor: Option<Key>)
    requires Distinct(log)
    ensures Descending(Listing(log, f, cursor))
    ensures forall r :: r in Listing(log, f, cursor) <==> r in log && Wanted(f, cursor, r)
  {
    if log != [] {
      var n := |log| - 1;
      var rest := Listing(log[..n], f, cursor);
      ListingIsExact(log[..n], f, cursor);
      assert forall r :: r in log <==> r in log[..n] || r == log[n];
      InsertElements(log[n], rest);
      forall r | r in rest ensures KeyOf(r) != KeyOf(log[n]) {
        var i :| 0 <= i < n && log[i] == r;
        assert !Clash(log[i], log[n]);
      }
      InsertDescending(log[n], rest);
    }
  }

  lemma TailElements(a: seq<Statement>, r: Statement)
    requires Descending(a) && a != []
    ensures r in a[1..] <==> r in a && r != a[0]
  {
    OlderIsTotal(KeyOf(a[0]), KeyOf(a[0]));
    assert a == [a[0]] + a[1..];
    assert forall i :: 0 < i < |a| ==> Older(KeyOf(a[i]), KeyOf(a[0]));
  }

  lemma Inhabited(a: seq<Statement>)
    ensures a == [] || exists r :: r in a
  {
    if a != [] { assert a[0] in a; }
  }

  lemma NewestFirst(a: seq<Statement>, r: Statement)
    requires Descending(a) && r in a
    ensures r == a[0] || Older(KeyOf(r), KeyOf(a[0]))
  {
  }

  /** Two strictly descending lists of the same rows are the same list. */
  lemma {:induction false} DescendingUnique(a: seq<Statement>, b: seq<Statement>)
    requires Descending(a) && Descending(b) && forall r :: r in a <==> r in b
    ensures a == b
  {
    if a == [] || b == [] {
      Inhabited(a);
      Inhabited(b);
    } else {
      assert a[0] in b && b[0] in a;
      NewestFirst(a, b[0]);
      NewestFirst(b, a[0]);
      OlderIsTotal(KeyOf(a[0]), KeyOf(b[0]));
      assert a[0] == b[0];
      forall r ensures r in a[1..] <==> r in b[1..] {
        TailElements(a, r);
        TailElements(b, r);
      }
      DescendingUnique(a[1..], b[1..]);
      assert a == [a[0]] + a[1..] && b == [b[0]] + b[1..];
    }
  }

  /** The columns a row must have to be asked for: the account's own, of the type, in the period, of the category, and
      with one of the tags. */
  predicate AskedFor(f: Filter, r: Statement) {
    && r.account == f.account
    && (f.typ == None || f.typ == Some(r.typ))
    && (f.from == None || f.from.value <= r.postedAt)
    && (f.to == None || r.postedAt <= f.to.value)
    && (f.category == None || r.category == f.category)
    && (f.tagIds == {} || exists t :: t in f.tagIds && t in r.tags)
  }

  /** A listing holds exactly the rows asked for. */
  lemma ListingHolds(log: seq<Statement>, f: Filter, r: Statement)
    ensures r in Listing(log, f, None) <==> r in log && AskedFor(f, r)
  {
    InListing(log, f, None, r);
    if f.tagIds != {} {
      if t :| t in f.tagIds && t in r.tags { assert t in r.tags * f.tagIds; }
      if t :| t in r.tags * f.tagIds { assert t in f.tagIds && t in r.tags; }
    }
  }

  lemma {:induction false} InListing(log: seq<Statement>, f: Filter, cursor: Option<Key>, r: Statement)
    ensures r in Listing(log, f, cursor) <==> r in log && Wanted(f, cursor, r)
  {
    hide Wanted;
    if log != [] {
      var front, last := log[..|log| - 1], log[|log| - 1];
      InListing(front, f, cursor, r);
      InsertElements(last, Listing(front, f, cursor));
      assert log == front + [last];
    }
  }

  /** With a cursor, those of them that lie after it: posted earlier, or at the same instant with a smaller id. */
  lemma CursorHolds(log: seq<Statement>, f: Filter, cursor: Key, r: Statement)
    ensures r in Listing(log, f, Some(cursor))
            <==> r in Listing(log, f, None)
                 && (r.postedAt < cursor.postedAt || (r.postedAt == cursor.postedAt && SmallerText(r.id, cursor.id)))
  {
    InListing(log, f, None, r);
    InListing(log, f, Some(cursor), r);
    LessMeans(r.id, cursor.id);
  }

  /** At the first difference a comes before b. */
  ghost predicate SmallerText(a: string, b: string) {
    exists k :: 0 <= k <= |a| && k <= |b| && a[..k] == b[..k] && (if k == |a| then k < |b| else k < |b| && a[k] < b[k])
  }

  lemma {:induction false} LessMeans(a: string, b: string)
    ensures Less(a, b) <==> SmallerText(a, b)
    decreases |a|
  {
    if |a| == 0 || |b| == 0 || a[0] != b[0] {
      if Less(a, b) { assert a[..0] == b[..0]; }
    } else {
      LessMeans(a[1..], b[1..]);
      if SmallerText(a[1..], b[1..]) {
        var k :| 0 <= k <= |a[1..]| && k <= |b[1..]| && a[1..][..k] == b[1..][..k]
                 && (if k == |a[1..]| then k < |b[1..]| else k < |b[1..]| && a[1..][k] < b[1..][k]);
        assert a[..k + 1] == [a[0]] + a[1..][..k] && b[..k + 1] == [b[0]] + b[1..][..k];
      }
      if SmallerText(a, b) {
        var k :| 0 <= k <= |a| && k <= |b| && a[..k] == b[..k] && (if k == |a| then k < |b| else k < |b| && a[k] < b[k]);
        assert a[1..][..k - 1] == a[..k][1..] && b[1..][..k - 1] == b[..k][1..];
      }
    }
  }

  /** Newest first; rows of the same instant by descending id. */
  lemma NewestOnTop(log: seq<Statement>, f: Filter, cursor: Option<Key>, i: nat, j: nat)
    requires Distinct(log) && i < j < |Listing(log, f, cursor)|
    ensures var rows := Listing(log, f, cursor);
            rows[j].postedAt < rows[i].postedAt || (rows[j].postedAt == rows[i].postedAt && SmallerText(rows[j].id, rows[i].id))
  {
    ListingIsExact(log, f, cursor);
    LessMeans(Listing(log, f, cursor)[j].id, Listing(log, f, cursor)[i].id);
  }

  function CountAsked(log: seq<Statement>, f: Filter): nat {
    if log == [] then 0 else CountAsked(log[..|log| - 1], f) + (if AskedFor(f, log[|log| - 1]) then 1 else 0)
  }

  /** The list is as long as there are rows asked for. */
  lemma {:induction false} ListingCounts(log: seq<Statement>, f: Filter)
    ensures |Listing(log, f, None)| == CountAsked(log, f)
  {
    if log != [] {
      var front, last := log[..|log| - 1], log[|log| - 1];
      ListingCounts(front, f);
      InsertGrows(last, Listing(front, f, None));
      ListingHolds([last], f, last);
      InListing([last], f, None, last);
    }
  }

  lemma {:induction false} InsertGrows(s: Statement, rows: seq<Statement>)
    ensures |Insert(s, rows)| == |rows| + 1
  {
    if !(rows == [] || Older(KeyOf(rows[0]), KeyOf(s))) { InsertGrows(s, rows[1..]); }
  }

  /** Listings of two accounts share no row. */
  lemma AccountsShareNothing(log: seq<Statement>, f: Filter, g: Filter, r: Statement)
    requires f.account != g.account
    ensures !(r in Listing(log, f, None) && r in Listing(log, g, None))
  {
    ListingHolds(log, f, r);
    ListingHolds(log, g, r);
  }

  /** A cursor query is the part of the plain list that follows the cursor's row. */
  lemma CursorIsSuffix(log: seq<Statement>, f: Filter, k: nat)
    requires Distinct(log) && k < |Listing(log, f, None)|
    ensures Listing(log, f, Some(KeyOf(Listing(log, f, None)[k]))) == Listing(log, f, None)[k + 1..]
  {
    var all := Listing(log, f, None);
    var cursor := Some(KeyOf(all[k]));
    var after := Listing(log, f, cursor);
    ListingIsExact(log, f, None);
    ListingIsExact(log, f, cursor);
    forall r ensures r in after <==> r in all[k + 1..] {
      if r in all && Older(KeyOf(r), KeyOf(all[k])) {
        var i :| 0 <= i < |all| && all[i] == r;
        OlderIsTotal(KeyOf(all[i]), KeyOf(all[k]));
        assert i > k;
        assert all[k + 1..][i - k - 1] == r;
      }
      if r in all[k + 1..] {
        var i :| 0 <= i < |all[k + 1..]| && all[k + 1..][i] == r;
        assert all[k + 1 + i] == r;
      }
    }
    DescendingUnique(after, all[k + 1..]);
  }

  /* ---------- Pages ---------- */

  function Take(rows: seq<Statement>, n: nat): seq<Statement> {
    if |rows| <= n then rows else rows[..n]
  }

  function Drop(rows: seq<Statement>, n: nat): seq<Statement> {
    if |rows| <= n then [] else rows[n..]
  }

  /** The request parameters that Normalize repairs in place. */
  class ListFilter {
    var page: int
    var limit: int
    var cursor: Option<Key>

    constructor (page: int, limit: int, cursor: Option<Key>)
      ensures this.page == page && this.limit == limit && this.cursor == cursor
    {
      this.page, this.limit, this.cursor := page, limit, cursor;
    }

    /** Afterwards the page is at least 1 and the limit between 1 and 100; good values stay. */
    method Normalize()
      modifies this`page, this`limit
      ensures page >= 1 && 1 <= limit <= 100
      ensures old(page) >= 1 ==> page == old(page)
      ensures old(page) < 1 ==> page == 1
      ensures 1 <= old(limit) <= 100 ==> limit == old(limit)
      ensures old(limit) < 1 ==> limit == 20
      ensures old(limit) > 100 ==> limit == 100
    {
      if page < 1 { page := 1; }
      if limit < 1 { limit := 20; }
      if limit > 100 { limit := 100; }
    }

    /** COUNT on one snapshot, then LIMIT/OFFSET, or keyset when a cursor is given, on another: the transaction is
        read-only but not repeatable-read. */
    method List(counted: seq<Statement>, shown: seq<Statement>, f: Filter)
      returns (rows: seq<Statement>, total: nat, next: Option<Key>)
      requires page >= 1 && limit >= 1
      ensures total == |Listing(counted, f, None)|
      ensures rows == if cursor.Some? then CursorPage(shown, f, cursor, limit) else OffsetPage(shown, f, page, limit)
      ensures next == NextCursor(rows, limit)
      ensures total == CountAsked(counted, f)
      ensures Shows(rows, shown, f)
      ensures cursor.None? ==> Window(rows, Listing(shown, f, None), (page - 1) * limit, limit)
      ensures cursor.Some? ==> Window(rows, Listing(shown, f, cursor), 0, limit)
      ensures next == if |rows| == limit then Some(Key(rows[limit - 1].postedAt, rows[limit - 1].id)) else None
    {
      hide Listing, AskedFor, CountAsked, Take, Drop, Shows, Window;
      ListingCounts(counted, f);
      total := |Listing(counted, f, None)|;
      var offset: nat := (page - 1) * limit;
      ghost var all := Listing(shown, f, cursor);
      TakeDropIsWindow(all, offset, limit);
      ListingShows(shown, f, cursor);
      if cursor.Some? {
        rows := Take(Listing(shown, f, cursor), limit);
        WindowShows(rows, all, 0, limit, shown, f);
      } else {
        rows := Take(Drop(Listing(shown, f, None), offset), limit);
        WindowShows(rows, all, offset, limit, shown, f);
      }
      next := None;
      if |rows| == limit && |rows| > 0 { next := Some(KeyOf(rows[|rows| - 1])); }
    }
  }

  /** ORDER BY ... LIMIT limit OFFSET offset. */
  function PageFrom(log: seq<Statement>, f: Filter, offset: nat, limit: nat): seq<Statement> {
    Take(Drop(Listing(log, f, None), offset), limit)
  }

  function OffsetPage(log: seq<Statement>, f: Filter, page: nat, limit: nat): seq<Statement>
    requires page >= 1
  {
    PageFrom(log, f, (page - 1) * limit, limit)
  }

  function CursorPage(log: seq<Statement>, f: Filter, cursor: Option<Key>, limit: nat): seq<Statement> {
    Take(Listing(log, f, cursor), limit)
  }

  /** A full page may have a successor. */
  function NextCursor(rows: seq<Statement>, limit: nat): Option<Key> {
    if |rows| == limit && |rows| > 0 then Some(KeyOf(rows[|rows| - 1])) else None
  }

  /** rows are the entries of all from a place on, at most limit of them. */
  ghost predicate Window(rows: seq<Statement>, all: seq<Statement>, start: nat, limit: nat) {
    && |rows| == (if |all| <= start then 0 else if |all| - start < limit then |all| - start else limit)
    && forall i :: 0 <= i < |rows| ==> rows[i] == all[start + i]
  }

  lemma TakeDropIsWindow(all: seq<Statement>, start: nat, limit: nat)
    ensures Window(Take(Drop(all, start), limit), all, start, limit)
    ensures Window(Take(all, limit), all, 0, limit)
  {
  }

  ghost predicate Shows(rows: seq<Statement>, log: seq<Statement>, f: Filter) {
    forall r :: r in rows ==> r in log && AskedFor(f, r)
  }

  lemma ListingShows(log: seq<Statement>, f: Filter, cursor: Option<Key>)
    ensures Shows(Listing(log, f, cursor), log, f)
  {
    forall r | r in Listing(log, f, cursor) ensures r in log && AskedFor(f, r) {
      ListingHolds(log, f, r);
      InListing(log, f, cursor, r);
      InListing(log, f, None, r);
    }
  }

  lemma WindowShows(rows: seq<Statement>, all: seq<Statement>, start: nat, limit: nat, log: seq<Statement>, f: Filter)
    requires Window(rows, all, start, limit) && Shows(all, log, f)
    ensures Shows(rows, log, f)
  {
  }

  function TotalPages(total: nat, limit: nat): nat
    requires limit >= 1
  {
    (total + limit - 1) / limit
  }

  /** The page that the k-th request of a cursor walk gets, as long as there is a cursor to follow. */
  function WalkPage(log: seq<Statement>, f: Filter, limit: nat, k: nat): Option<seq<Statement>>
    requires k >= 1
  {
    if k == 1 then Some(CursorPage(log, f, None, limit))
    else
      var before := WalkPage(log, f, limit, k - 1);
      if before.None? then None
      else
        var cursor := NextCursor(before.value, limit);
        if cursor.None? then None else Some(CursorPage(log, f, cursor, limit))
  }

  lemma NextPageFrom(log: seq<Statement>, f: Filter, limit: nat, start: nat)
    requires Distinct(log) && limit >= 1 && start <= |Listing(log, f, None)|
    ensures NextCursor(PageFrom(log, f, start, limit), limit).Some? <==> start + limit <= |Listing(log, f, None)|
    ensures start + limit <= |Listing(log, f, None)| ==>
              CursorPage(log, f, NextCursor(PageFrom(log, f, start, limit), limit), limit) == PageFrom(log, f, start + limit, limit)
  {
    var all := Listing(log, f, None);
    var at := start + limit;
    assert Drop(all, start) == all[start..];
    if at <= |all| {
      assert PageFrom(log, f, start, limit) == all[start..at];
      CursorIsSuffix(log, f, at - 1);
      assert Drop(all, at) == all[at..];
    }
  }

  /** On a fixed ledger the k-th cursor page is the k-th offset page, and the walk makes exactly
      floor(N / L) + 1 requests. */
  lemma {:induction false} WalkIsPaging(log: seq<Statement>, f: Filter, limit: nat, k: nat)
    requires Distinct(log) && limit >= 1 && k >= 1
    ensures WalkPage(log, f, limit, k).Some? <==> k <= |Listing(log, f, None)| / limit + 1
    ensures WalkPage(log, f, limit, k).Some? ==> WalkPage(log, f, limit, k).value == OffsetPage(log, f, k, limit)
  {
    hide Distinct, Listing, PageFrom, CursorPage, NextCursor;
    if k > 1 {
      WalkIsPaging(log, f, limit, k - 1);
      var start := Offsets(|Listing(log, f, None)|, limit, k);
      if WalkPage(log, f, limit, k - 1).Some? { NextPageFrom(log, f, limit, start); }
    } else {
      FirstPage(log, f, limit);
    }
  }

  lemma FirstPage(log: seq<Statement>, f: Filter, limit: nat)
    ensures CursorPage(log, f, None, limit) == PageFrom(log, f, 0, limit)
  {
    assert Drop(Listing(log, f, None), 0) == Listing(log, f, None);
  }

  lemma MulMonotone(a: nat, b: nat, c: nat)
    requires a <= b
    ensures a * c <= b * c
  {
  }

  /** The k-th page starts inside or at the end of the list exactly for the first floor(n / limit) + 1 pages. */
  lemma PageStart(n: nat, limit: nat, k: nat)
    requires limit >= 1 && k >= 1
    ensures (k - 1) * limit <= n <==> k <= n / limit + 1
  {
    var q := n / limit;
    if k - 1 <= q {
      MulMonotone(k - 1, q, limit);
    } else {
      MulMonotone(q + 1, k - 1, limit);
      assert (q + 1) * limit == q * limit + limit;
    }
  }

  lemma Offsets(n: nat, limit: nat, k: nat) returns (start: nat)
    requires limit >= 1 && k >= 2
    ensures start == (k - 1 - 1) * limit && start + limit == (k - 1) * limit
    ensures start <= n <==> k - 1 <= n / limit + 1
    ensures start + limit <= n <==> k <= n / limit + 1
  {
    start := (k - 2) * limit;
    PageStart(n, limit, k - 1);
    PageStart(n, limit, k);
  }

  /** The first p offset pages one after the other. */
  function FirstPages(log: seq<Statement>, f: Filter, limit: nat, p: nat): seq<Statement> {
    if p == 0 then [] else FirstPages(log, f, limit, p - 1) + OffsetPage(log, f, p, limit)
  }

  lemma {:induction false} FirstPagesArePrefix(log: seq<Statement>, f: Filter, limit: nat, p: nat)
    ensures FirstPages(log, f, limit, p) == Take(Listing(log, f, None), p * limit)
  {
    if p > 0 {
      FirstPagesArePrefix(log, f, limit, p - 1);
      assert p * limit == (p - 1) * limit + limit;
    }
  }

  predicate ShowAll(log: seq<Statement>, f: Filter, limit: nat, p: nat) {
    FirstPages(log, f, limit, p) == Listing(log, f, None)
  }

  /** The announced number of pages is the least that shows the whole list. */
  lemma AllPagesShowAll(log: seq<Statement>, f: Filter, limit: nat, p: nat)
    requires limit >= 1
    ensures ShowAll(log, f, limit, p) <==> p >= TotalPages(|Listing(log, f, None)|, limit)
  {
    hide Listing, FirstPages;
    FirstPagesArePrefix(log, f, limit, p);
    EnoughPages(|Listing(log, f, None)|, limit, p);
  }

  lemma EnoughPages(n: nat, limit: nat, p: nat)
    requires limit >= 1
    ensures p * limit >= n <==> p >= TotalPages(n, limit)
  {
    var all := TotalPages(n, limit);
    CeilingCovers(n, limit, all);
    if p >= all { MulMonotone(all, p, limit); } else if n > 0 { MulMonotone(p, all - 1, limit); }
  }

  lemma CeilingCovers(n: nat, limit: nat, p: nat)
    requires limit >= 1 && p == (n + limit - 1) / limit
    ensures p * limit >= n && (p > 0 ==> (p - 1) * limit < n) && (n > 0 ==> p > 0)
  {
    var r := (n + limit - 1) % limit;
    assert n + limit - 1 == p * limit + r;
    assert (p - 1) * limit == p * limit - limit;
  }

  /* ---------- A walk over a growing ledger ---------- */

  /** Rows are only added; the accounting columns of the others stay. */
  ghost predicate Grows(before: seq<Statement>, after: seq<Statement>) {
    |before| <= |after| && SameBooks(before, after[..|before|])
  }

  /** A cursor walk in which request i sees logs[i] and gets pages[i]. */
  datatype Walk = Walk(filter: Filter, limit: nat, logs: seq<seq<Statement>>, pages: seq<seq<Statement>>)
  {
    ghost predicate PageAt(i: nat)
      requires i < |pages| == |logs|
    {
      && Distinct(logs[i])
      && (i == 0 ==> pages[0] == CursorPage(logs[0], filter, None, limit))
      && (i > 0 ==>
            && Grows(logs[i - 1], logs[i])
            && NextCursor(pages[i - 1], limit).Some?
            && pages[i] == CursorPage(logs[i], filter, NextCursor(pages[i - 1], limit), limit))
    }

    ghost predicate Valid() {
      && limit >= 1
      && |pages| == |logs| >= 1
      && filter.Stable()
      && forall i :: 0 <= i < |pages| ==> PageAt(i)
    }

    ghost predicate Completed()
      requires |pages| >= 1
    {
      NextCursor(pages[|pages| - 1], limit).None?
    }
  }

  /** What the snapshots of one run show, in the order they were taken, grows. */
  lemma RunGrows(run: Run, j: nat, k: nat)
    requires run.Valid() && j <= k < |run.states|
    ensures Distinct(run.states[j].db.log) && Distinct(run.states[k].db.log)
    ensures Grows(run.states[j].db.log, run.states[k].db.log)
  {
    RunSound(run, j);
    RunSound(run, k);
    Guarantees.AppendOnly(run, j, k);
  }

  lemma PageIsExact(w: Walk, i: nat)
    requires w.Valid() && i < |w.pages|
    ensures Descending(w.pages[i])
    ensures forall r :: r in w.pages[i] ==> r in w.logs[i] && w.filter.Matches(r)
    ensures i > 0 ==> |w.pages[i - 1]| > 0
    ensures i > 0 ==> forall r :: r in w.pages[i] ==> Older(KeyOf(r), KeyOf(w.pages[i - 1][|w.pages[i - 1]| - 1]))
  {
    assert w.PageAt(i);
    var cursor := if i == 0 then None else NextCursor(w.pages[i - 1], w.limit);
    ListingIsExact(w.logs[i], w.filter, cursor);
    var all := Listing(w.logs[i], w.filter, cursor);
    assert forall r :: r in w.pages[i] ==> r in all;
  }

  /** Everything on a later page is older than everything on an earlier one. */
  lemma {:induction false} PagesDescend(w: Walk, i: nat, a: nat, j: nat, b: nat)
    requires w.Valid() && i <= j < |w.pages| && a < |w.pages[i]| && b < |w.pages[j]| && (i < j || a < b)
    ensures Older(KeyOf(w.pages[j][b]), KeyOf(w.pages[i][a]))
    decreases j
  {
    PageIsExact(w, i);
    PageIsExact(w, j);
    if i < j {
      var last := |w.pages[j - 1]| - 1;
      assert w.pages[j][b] in w.pages[j];
      if i < j - 1 || a < last {
        PagesDescend(w, i, a, j - 1, last);
        OlderTransitive(KeyOf(w.pages[j][b]), KeyOf(w.pages[j - 1][last]), KeyOf(w.pages[i][a]));
      }
    }
  }

  /** Row x of the i-th snapshot, as a later one shows it. */
  lemma {:induction false} RowStays(w: Walk, i: nat, x: nat, j: nat)
    requires w.Valid() && i <= j < |w.logs| && x < |w.logs[i]|
    ensures x < |w.logs[j]| && SameAccounting(w.logs[i][x], w.logs[j][x])
    decreases j
  {
    if i < j {
      RowStays(w, i, x, j - 1);
      assert w.PageAt(j);
      assert SameAccounting(w.logs[j - 1][x], w.logs[j][..|w.logs[j - 1]|][x]);
    }
  }

  /** One statement has one key, whichever page shows it. */
  lemma SameStatementSameKey(w: Walk, i: nat, a: nat, j: nat, b: nat)
    requires w.Valid() && i <= j < |w.pages| && a < |w.pages[i]| && b < |w.pages[j]|
    requires w.pages[i][a].id == w.pages[j][b].id
    ensures KeyOf(w.pages[i][a]) == KeyOf(w.pages[j][b])
  {
    PageIsExact(w, i);
    PageIsExact(w, j);
    assert w.PageAt(j);
    assert w.pages[i][a] in w.pages[i] && w.pages[j][b] in w.pages[j];
    var x :| 0 <= x < |w.logs[i]| && w.logs[i][x] == w.pages[i][a];
    var y :| 0 <= y < |w.logs[j]| && w.logs[j][y] == w.pages[j][b];
    RowStays(w, i, x, j);
    UniqueById(w.logs[j], x, y);
  }

  /** However the ledger grows between the requests, no statement is shown twice. */
  lemma NothingTwice(w: Walk, i: nat, a: nat, j: nat, b: nat)
    requires w.Valid() && i < |w.pages| && j < |w.pages| && a < |w.pages[i]| && b < |w.pages[j]|
    requires w.pages[i][a].id == w.pages[j][b].id
    ensures i == j && a == b
  {
    if i <= j { SameStatementSameKey(w, i, a, j, b); } else { SameStatementSameKey(w, j, b, i, a); }
    OlderIsTotal(KeyOf(w.pages[i][a]), KeyOf(w.pages[i][a]));
    if i < j || (i == j && a < b) { PagesDescend(w, i, a, j, b); }
    if j < i || (i == j && b < a) { PagesDescend(w, j, b, i, a); }
  }

  ghost predicate ShownBy(w: Walk, x: nat, n: nat)
    requires |w.logs| >= 1 && x < |w.logs[0]| && n <= |w.pages|
  {
    exists i, a :: 0 <= i < n && 0 <= a < |w.pages[i]| && SameAccounting(w.logs[0][x], w.pages[i][a])
  }

  /** After n requests a matching row of the first snapshot was shown, or still lies after the last row shown. */
  lemma {:induction false} ShownOrAhead(w: Walk, x: nat, n: nat)
    requires w.Valid() && 1 <= n <= |w.pages| && x < |w.logs[0]| && w.filter.Matches(w.logs[0][x])
    ensures ShownBy(w, x, n)
            || (NextCursor(w.pages[n - 1], w.limit).Some? && Older(KeyOf(w.logs[0][x]), NextCursor(w.pages[n - 1], w.limit).value))
  {
    var i := n - 1;
    if i > 0 { ShownOrAhead(w, x, i); }
    assert w.PageAt(i);
    if i == 0 || !ShownBy(w, x, i) {
      var cursor := if i == 0 then None else NextCursor(w.pages[i - 1], w.limit);
      RowStays(w, 0, x, i);
      var row := w.logs[i][x];
      assert Wanted(w.filter, cursor, row);
      ListingIsExact(w.logs[i], w.filter, cursor);
      var all := Listing(w.logs[i], w.filter, cursor);
      assert row in all;
      var p :| 0 <= p < |all| && all[p] == row;
      if p < |w.pages[i]| {
        assert SameAccounting(w.logs[0][x], w.pages[i][p]);
      } else {
        assert w.pages[i] == all[..w.limit];
      }
    } else {
      var k, a :| 0 <= k < i && 0 <= a < |w.pages[k]| && SameAccounting(w.logs[0][x], w.pages[k][a]);
    }
  }

  /** A completed walk shows every matching statement that was there at its first page, exactly once. */
  lemma CompletedWalkShowsAll(w: Walk, x: nat)
    requires w.Valid() && w.Completed() && x < |w.logs[0]| && w.filter.Matches(w.logs[0][x])
    ensures exists i, a :: 0 <= i < |w.pages| && 0 <= a < |w.pages[i]| && SameAccounting(w.logs[0][x], w.pages[i][a])
    ensures forall i, a, j, b ::
              (0 <= i < |w.pages| && 0 <= a < |w.pages[i]| && SameAccounting(w.logs[0][x], w.pages[i][a])
               && 0 <= j < |w.pages| && 0 <= b < |w.pages[j]| && SameAccounting(w.logs[0][x], w.pages[j][b]))
              ==> i == j && a == b
  {
    ShownOrAhead(w, x, |w.pages|);
    assert ShownBy(w, x, |w.pages|);
    forall i, a, j, b | 0 <= i < |w.pages| && 0 <= a < |w.pages[i]| && SameAccounting(w.logs[0][x], w.pages[i][a])
                        && 0 <= j < |w.pages| && 0 <= b < |w.pages[j]| && SameAccounting(w.logs[0][x], w.pages[j][b])
      ensures i == j && a == b
    {
      NothingTwice(w, i, a, j, b);
    }
  }

  /* ---------- The cursor text ---------- */

  /** The encoders the code takes from its libraries. */
  datatype Codec = Codec(format: int -> string, parse: string -> Option<int>, encode: string -> string,
                         decode: string -> Option<string>, isId: string -> bool)
  {
    ghost predicate Sound() {
      && (forall t :: parse(format(t)) == Some(t) && '|' !in format(t))
      && (forall s :: decode(encode(s)) == Some(s))
    }
  }

  function EncodeCursor(c: Codec, key: Key): string {
    c.encode(c.format(key.postedAt) + "|" + key.id)
  }

  function DecodeCursor(c: Codec, cursor: string): Option<Key> {
    var raw := c.decode(cursor);
    if raw.None? then None
    else
      var bar := Find('|', raw.value);
      if bar == |raw.value| then None
      else
        var postedAt := c.parse(raw.value[..bar]);
        var id := raw.value[bar + 1..];
        if postedAt.None? || !c.isId(id) then None else Some(Key(postedAt.value, id))
  }

  /** Decoding the cursor of a page gives back the key of its last row. */
  lemma CursorRoundTrip(c: Codec, key: Key)
    requires c.Sound() && c.isId(key.id)
    ensures DecodeCursor(c, EncodeCursor(c, key)) == Some(key)
  {
    var text := c.format(key.postedAt);
    var raw := text + "|" + key.id;
    var bar := Find('|', raw);
    assert raw[|text|] == '|';
    assert forall j :: 0 <= j < |text| ==> raw[j] == text[j];
    FindIs('|', raw, |text|);
    assert raw[..bar] == text && raw[bar + 1..] == key.id;
  }
}
