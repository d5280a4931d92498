/** Periodic deletion of surplus delivery records. */
module DeliveryCleanup {
  import opened Common

  datatype Status = Success | Failed | Retrying | Resolved

  datatype Row = Row(id: string, createdAt: int, status: Status)

  // ----- The query -----

  // ORDER BY created_at DESC
  function Insert(r: Row, sorted: seq<Row>): seq<Row> {
    if sorted == [] || r.createdAt >= sorted[0].createdAt then [r] + sorted else [sorted[0]] + Insert(r, sorted[1..])
  }

  // The success rows, newest first.
  function Newest(rows: seq<Row>): seq<Row> {
    if rows == [] then []
    else if rows[0].status == Success then Insert(rows[0], Newest(rows[1..]))
    else Newest(rows[1..])
  }

  // OFFSET keep LIMIT batch
  function Page(s: seq<Row>, keep: nat, batch: nat): seq<Row> {
    var from := Min(keep, |s|);
    s[from..Min(from + batch, |s|)]
  }

  function Ids(rows: seq<Row>): set<string> {
    set r | r in rows :: r.id
  }

  // DELETE WHERE id IN (...)
  function Delete(rows: seq<Row>, ids: set<string>): seq<Row> {
    if rows == [] then [] else (if rows[0].id in ids then [] else [rows[0]]) + Delete(rows[1..], ids)
  }

  function Cleaned(rows: seq<Row>, keep: nat, batch: nat): seq<Row> {
    Delete(rows, Ids(Page(Newest(rows), keep, batch)))
  }

  class DeliveryRecordRepo {
    var rows: seq<Row>

    // Ids are the table's primary key.
    ghost predicate Valid()
      reads this
    {
      DistinctIds(rows)
    }

    // The success rows of ranks keep .. keep + batch - 1, newest first, are gone:
    // no other success row, no row of another status, and at most `batch` in all.
    method CleanupSuccess(keep: nat, batch: nat) returns (deleted: nat)
      requires Valid()
      modifies this
      ensures Valid() && rows == Cleaned(old(rows), keep, batch)
      ensures Newest(rows) == Cut(Newest(old(rows)), keep, batch)
      ensures Others(rows) == Others(old(rows))
      ensures deleted == Min(batch, Max(0, |Newest(old(rows))| - keep))
    {
      hide Newest, Delete, Others, Ids, Cut;
      CleanupCutsPage(rows, keep, batch);
      CleanupCounts(rows, keep, batch);
      var ids := Ids(Page(Newest(rows), keep, batch));
      var before := |rows|;
      rows := Delete(rows, ids);
      deleted := before - |rows|;
    }
  }

  // ----- Sorting and deleting commute -----

  ghost predicate Descending(s: seq<Row>) {
    forall i, j :: 0 <= i < j < |s| ==> s[i].createdAt >= s[j].createdAt
  }

  lemma {:induction false} InsertSorts(r: Row, s: seq<Row>)
    requires Descending(s)
    ensures Descending(Insert(r, s)) && |Insert(r, s)| == |s| + 1
    ensures forall x :: x in Insert(r, s) <==> x == r || x in s
  {
    if s != [] && r.createdAt < s[0].createdAt {
      InsertSorts(r, s[1..]);
      var t := Insert(r, s[1..]);
      assert s == [s[0]] + s[1..];
      forall j | 0 <= j < |t| ensures s[0].createdAt >= t[j].createdAt {
        assert t[j] in t;
        assert t[j] == r || t[j] in s[1..];
      }
    }
  }

  lemma {:induction false} NewestSorts(rows: seq<Row>)
    ensures Descending(Newest(rows))
    ensures forall x :: x in Newest(rows) <==> x in rows && x.status == Success
  {
    if rows != [] {
      NewestSorts(rows[1..]);
      assert rows == [rows[0]] + rows[1..];
      if rows[0].status == Success {
        InsertSorts(rows[0], Newest(rows[1..]));
      }
    }
  }

  lemma {:induction false} DeleteInsert(r: Row, s: seq<Row>, ids: set<string>)
    requires Descending(s)
    ensures Delete(Insert(r, s), ids) == if r.id in ids then Delete(s, ids) else Insert(r, Delete(s, ids))
  {
    hide Delete, Insert, Descending;
    if s == [] || r.createdAt >= s[0].createdAt {
      InsertFirst(r, s);
      DeleteCons(r, s, ids);
      NewestFirst(s, r.createdAt);
      DeleteBelow(s, ids, r.createdAt);
      InsertFirst(r, Delete(s, ids));
    } else {
      var first, rest := s[0], s[1..];
      assert s == [first] + rest;
      RestDescends(s);
      InsertLater(r, first, rest);
      DeleteCons(first, rest, ids);
      DeleteCons(first, Insert(r, rest), ids);
      DeleteInsert(r, rest, ids);
      InsertLater(r, first, Delete(rest, ids));
    }
  }

  lemma DeleteCons(r: Row, s: seq<Row>, ids: set<string>)
    ensures Delete([r] + s, ids) == if r.id in ids then Delete(s, ids) else [r] + Delete(s, ids)
  {
    assert ([r] + s)[1..] == s;
  }

  lemma InsertFirst(r: Row, s: seq<Row>)
    requires s == [] || r.createdAt >= s[0].createdAt
    ensures Insert(r, s) == [r] + s
  {
  }

  lemma InsertLater(r: Row, first: Row, rest: seq<Row>)
    requires r.createdAt < first.createdAt
    ensures Insert(r, [first] + rest) == [first] + Insert(r, rest)
  {
    assert ([first] + rest)[1..] == rest;
  }

  lemma RestDescends(s: seq<Row>)
    requires Descending(s) && s != []
    ensures Descending(s[1..])
  {
  }

  lemma NewestFirst(s: seq<Row>, at: int)
    requires Descending(s) && (s == [] || at >= s[0].createdAt)
    ensures forall i :: 0 <= i < |s| ==> at >= s[i].createdAt
  {
  }

  // Deleting from rows no newer than `at` leaves rows no newer than `at`.
  lemma {:induction false} DeleteBelow(s: seq<Row>, ids: set<string>, at: int)
    requires forall i :: 0 <= i < |s| ==> at >= s[i].createdAt
    ensures forall i :: 0 <= i < |Delete(s, ids)| ==> at >= Delete(s, ids)[i].createdAt
  {
    if s != [] {
      DeleteBelow(s[1..], ids, at);
    }
  }

  lemma {:induction false} NewestOfDelete(rows: seq<Row>, ids: set<string>)
    ensures Newest(Delete(rows, ids)) == Delete(Newest(rows), ids)
  {
    if rows != [] {
      NewestOfDelete(rows[1..], ids);
      var rest := Delete(rows[1..], ids);
      assert ([rows[0]] + rest)[1..] == rest;
      assert [] + rest == rest;
      if rows[0].status == Success {
        NewestSorts(rows[1..]);
        DeleteInsert(rows[0], Newest(rows[1..]), ids);
      }
    }
  }

  // ----- The page that is cut out -----

  ghost predicate DistinctIds(s: seq<Row>) {
    forall i, j :: 0 <= i < j < |s| ==> s[i].id != s[j].id
  }

  lemma {:induction false} InsertDistinct(r: Row, s: seq<Row>)
    requires DistinctIds(s) && forall i :: 0 <= i < |s| ==> s[i].id != r.id
    ensures DistinctIds(Insert(r, s))
    ensures forall x :: x in Insert(r, s) <==> x == r || x in s
  {
    if s != [] && r.createdAt < s[0].createdAt {
      InsertDistinct(r, s[1..]);
      var t := Insert(r, s[1..]);
      assert s == [s[0]] + s[1..];
      forall j | 0 <= j < |t| ensures s[0].id != t[j].id {
        assert t[j] in t;
        assert t[j] == r || t[j] in s[1..];
      }
    }
  }

  lemma {:induction false} NewestDistinct(rows: seq<Row>)
    requires DistinctIds(rows)
    ensures DistinctIds(Newest(rows))
  {
    if rows != [] {
      var rest := Newest(rows[1..]);
      NewestDistinct(rows[1..]);
      NewestSorts(rows[1..]);
      if rows[0].status == Success {
        forall i | 0 <= i < |rest| ensures rest[i].id != rows[0].id {
          assert rest[i] in rest;
          assert rest[i] in rows[1..];
        }
        InsertDistinct(rows[0], rest);
      }
    }
  }

  lemma {:induction false} DeleteConcat(a: seq<Row>, b: seq<Row>, ids: set<string>)
    ensures Delete(a + b, ids) == Delete(a, ids) + Delete(b, ids)
  {
    if a == [] {
      assert a + b == b;
    } else {
      assert (a + b)[1..] == a[1..] + b;
      DeleteConcat(a[1..], b, ids);
    }
  }

  lemma {:induction false} DeleteNone(s: seq<Row>, ids: set<string>)
    requires forall i :: 0 <= i < |s| ==> s[i].id !in ids
    ensures Delete(s, ids) == s
  {
    if s != [] {
      DeleteNone(s[1..], ids);
    }
  }

  lemma {:induction false} DeleteAll(s: seq<Row>, ids: set<string>)
    requires forall i :: 0 <= i < |s| ==> s[i].id in ids
    ensures Delete(s, ids) == []
  {
    if s != [] {
      DeleteAll(s[1..], ids);
    }
  }

  // Deleting the ids of a stretch of distinct rows removes exactly the stretch.
  lemma DeleteStretch(s: seq<Row>, from: nat, to: nat)
    requires from <= to <= |s| && DistinctIds(s)
    ensures Delete(s, Ids(s[from..to])) == s[..from] + s[to..]
  {
    hide Delete, Ids, DistinctIds;
    assert s == s[..from] + (s[from..to] + s[to..]);
    DeleteMiddle(s[..from], s[from..to], s[to..]);
  }

  lemma DeleteMiddle(a: seq<Row>, b: seq<Row>, c: seq<Row>)
    requires DistinctIds(a + (b + c))
    ensures Delete(a + (b + c), Ids(b)) == a + c
  {
    hide Delete, DistinctIds;
    OutsideIds(a, b, c);
    DeleteNone(a, Ids(b));
    DeleteAll(b, Ids(b));
    DeleteNone(c, Ids(b));
    DeleteConcat(a, b + c, Ids(b));
    DeleteConcat(b, c, Ids(b));
    assert [] + c == c;
  }

  lemma OutsideIds(a: seq<Row>, b: seq<Row>, c: seq<Row>)
    requires DistinctIds(a + (b + c))
    ensures forall i :: 0 <= i < |a| ==> a[i].id !in Ids(b)
    ensures forall i :: 0 <= i < |c| ==> c[i].id !in Ids(b)
  {
    var all := a + (b + c);
    forall i, k | 0 <= i < |a| && 0 <= k < |b| ensures a[i].id != b[k].id {
      assert all[i] == a[i] && all[|a| + k] == b[k];
    }
    forall i, k | 0 <= i < |c| && 0 <= k < |b| ensures c[i].id != b[k].id {
      assert all[|a| + |b| + i] == c[i] && all[|a| + k] == b[k];
    }
  }

  // The rows of any other status, in table order.
  function Others(rows: seq<Row>): seq<Row> {
    if rows == [] then [] else (if rows[0].status == Success then [] else [rows[0]]) + Others(rows[1..])
  }

  lemma {:induction false} OthersOfDelete(rows: seq<Row>, ids: set<string>)
    requires forall i :: 0 <= i < |rows| && rows[i].status != Success ==> rows[i].id !in ids
    ensures Others(Delete(rows, ids)) == Others(rows)
  {
    if rows != [] {
      OthersOfDelete(rows[1..], ids);
      var rest := Delete(rows[1..], ids);
      assert ([rows[0]] + rest)[1..] == rest;
      assert [] + rest == rest;
    }
  }

  lemma {:induction false} RowsSplit(rows: seq<Row>)
    ensures |rows| == |Newest(rows)| + |Others(rows)|
  {
    if rows != [] {
      RowsSplit(rows[1..]);
      if rows[0].status == Success {
        NewestSorts(rows[1..]);
        InsertSorts(rows[0], Newest(rows[1..]));
      }
    }
  }

  lemma {:induction false} DeleteKeepsDistinct(rows: seq<Row>, ids: set<string>)
    requires DistinctIds(rows)
    ensures DistinctIds(Delete(rows, ids))
    ensures forall x :: x in Delete(rows, ids) ==> x in rows
  {
    if rows != [] {
      DeleteKeepsDistinct(rows[1..], ids);
      var rest := Delete(rows[1..], ids);
      forall j | 0 <= j < |rest| ensures rest[j].id != rows[0].id {
        assert rest[j] in rest;
        assert rest[j] in rows[1..];
      }
    }
  }

  // The sorted success rows without ranks keep .. keep + batch - 1.
  function Cut(s: seq<Row>, keep: nat, batch: nat): seq<Row> {
    var from := Min(keep, |s|);
    s[..from] + s[Min(from + batch, |s|)..]
  }

  // One call removes the success rows of ranks keep .. keep + batch - 1 (newest
  // first), and leaves every other row alone.
  lemma CleanupCutsPage(rows: seq<Row>, keep: nat, batch: nat)
    requires DistinctIds(rows)
    ensures Newest(Cleaned(rows, keep, batch)) == Cut(Newest(rows), keep, batch)
    ensures Others(Cleaned(rows, keep, batch)) == Others(rows)
    ensures DistinctIds(Cleaned(rows, keep, batch))
  {
    hide Newest, Delete, Others, Ids;
    var s := Newest(rows);
    var from := Min(keep, |s|);
    var ids := Ids(Page(s, keep, batch));
    NewestDistinct(rows);
    NewestOfDelete(rows, ids);
    DeleteStretch(s, from, Min(from + batch, |s|));
    PageIsSuccess(rows, Page(s, keep, batch));
    OthersOfDelete(rows, ids);
    DeleteKeepsDistinct(rows, ids);
  }

  lemma PageIsSuccess(rows: seq<Row>, page: seq<Row>)
    requires DistinctIds(rows) && forall i :: 0 <= i < |page| ==> page[i] in Newest(rows)
    ensures forall i :: 0 <= i < |rows| && rows[i].status != Success ==> rows[i].id !in Ids(page)
  {
    hide Newest;
    NewestSorts(rows);
    forall i, k | 0 <= i < |rows| && rows[i].status != Success && 0 <= k < |page| ensures page[k].id != rows[i].id {
      var j :| 0 <= j < |rows| && rows[j] == page[k];
    }
  }

  // At most `batch` rows go, and none while there are at most `keep`.
  lemma CleanupCounts(rows: seq<Row>, keep: nat, batch: nat)
    requires DistinctIds(rows)
    ensures |rows| - |Cleaned(rows, keep, batch)| == Min(batch, Max(0, |Newest(rows)| - keep))
  {
    hide Newest, Cleaned, Others;
    CleanupCutsPage(rows, keep, batch);
    RowsSplit(rows);
    RowsSplit(Cleaned(rows, keep, batch));
  }

  // n calls in a row.
  function Repeated(rows: seq<Row>, keep: nat, batch: nat, n: nat): seq<Row> {
    if n == 0 then rows else Cleaned(Repeated(rows, keep, batch, n - 1), keep, batch)
  }

  lemma {:induction false} RepeatedCuts(rows: seq<Row>, keep: nat, batch: nat, n: nat)
    requires DistinctIds(rows)
    ensures var after := Repeated(rows, keep, batch, n);
            && Newest(after) == Cut(Newest(rows), keep, n * batch)
            && Others(after) == Others(rows)
            && DistinctIds(after)
  {
    hide Newest, Others, Cleaned, Cut;
    if n == 0 {
      CutNothing(Newest(rows), keep);
    } else {
      RepeatedCuts(rows, keep, batch, n - 1);
      CleanupCutsPage(Repeated(rows, keep, batch, n - 1), keep, batch);
      CutTwice(Newest(rows), keep, (n - 1) * batch, batch);
      assert n * batch == (n - 1) * batch + batch;
    }
  }

  lemma CutNothing(s: seq<Row>, keep: nat)
    ensures Cut(s, keep, 0) == s
  {
  }

  lemma CutTwice(s: seq<Row>, keep: nat, a: nat, b: nat)
    ensures Cut(Cut(s, keep, a), keep, b) == Cut(s, keep, a + b)
  {
    var from := Min(keep, |s|);
    var t := Cut(s, keep, a);
    assert t[..from] == s[..from];
  }

  // The table is down to exactly the `keep` newest success rows after n calls if
  // and only if n * batch covers the excess; all other rows are still there.
  lemma CleanupConverges(rows: seq<Row>, keep: nat, batch: nat, n: nat)
    requires DistinctIds(rows)
    ensures var s := Newest(rows);
            && (Newest(Repeated(rows, keep, batch, n)) == s[..Min(keep, |s|)] <==> n * batch >= |s| - keep)
            && Others(Repeated(rows, keep, batch, n)) == Others(rows)
  {
    hide Newest, Others, Repeated, Cut;
    RepeatedCuts(rows, keep, batch, n);
    CutAll(Newest(rows), keep, n * batch);
  }

  lemma CutAll(s: seq<Row>, keep: nat, count: nat)
    ensures Cut(s, keep, count) == s[..Min(keep, |s|)] <==> count >= |s| - keep
  {
    var from := Min(keep, |s|);
    var rest := s[Min(from + count, |s|)..];
    assert rest == [] ==> s[..from] + rest == s[..from];
    assert rest != [] ==> |s[..from] + rest| > from;
  }

  // Contrary to its description a call does not always delete the oldest rows: it
  // does exactly when one batch covers the excess (or nothing is deleted).
  lemma OldestGoFirst(rows: seq<Row>, keep: nat, batch: nat)
    requires DistinctIds(rows)
    ensures var s := Newest(rows);
            Newest(Cleaned(rows, keep, batch)) <= s <==> |s| <= keep + batch || batch == 0
  {
    hide Newest, Cleaned;
    CleanupCutsPage(rows, keep, batch);
    NewestDistinct(rows);
    var s := Newest(rows);
    var from := Min(keep, |s|);
    var to := Min(from + batch, |s|);
    if |s| > keep + batch && batch > 0 {
      assert (s[..from] + s[to..])[from] == s[to];
      assert s[from].id != s[to].id;
    } else if batch == 0 {
      assert s[..from] + s[to..] == s;
    } else {
      assert s[..from] + s[to..] == s[..from];
    }
  }
}
