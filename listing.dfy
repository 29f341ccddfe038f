/** The read side of `GET /leaves`: which rows a caller may see, the
    `ORDER BY created_at DESC` of the query, and the list comprehension that
    projects every row with `to_dict`. */
module Listing {
  import opened Results
  import opened Records

  /** A leave_requests row together with its id. */
  datatype Row = Row(id: nat, rec: LeaveRequest)

  /** The ownership filter: an admin sees every record, anyone else only the
      records whose user_id is their own id. */
  predicate Visible(l: LeaveRequest, viewer: nat, viewerRole: Role) {
    viewerRole == Admin || l.userId == viewer
  }

  /** The visible rows among the ids below `n`, in increasing id order. */
  function VisibleRows(leaves: map<nat, LeaveRequest>, viewer: nat, viewerRole: Role, n: nat): (rows: seq<Row>)
    ensures forall row :: row in rows <==>
      row.id < n && row.id in leaves && leaves[row.id] == row.rec && Visible(row.rec, viewer, viewerRole)
    ensures forall i, j | 0 <= i < j < |rows| :: rows[i].id < rows[j].id
  {
    if n == 0 then []
    else
      var rows := VisibleRows(leaves, viewer, viewerRole, n - 1);
      var id := n - 1;
      if id in leaves && Visible(leaves[id], viewer, viewerRole) then rows + [Row(id, leaves[id])]
      else rows
  }

  /** Ordered by creation time, newest first. */
  predicate NewestFirst(rows: seq<Row>) {
    forall i, j | 0 <= i < j < |rows| :: rows[i].rec.createdAt >= rows[j].rec.createdAt
  }

  predicate DistinctIds(rows: seq<Row>) {
    forall i, j | 0 <= i < j < |rows| :: rows[i].id != rows[j].id
  }

  /** Inserts `x` in front of the first row that is not newer than it. */
  function InsertNewest(x: Row, rows: seq<Row>): (r: seq<Row>)
    ensures |r| == |rows| + 1
  {
    if rows == [] || x.rec.createdAt >= rows[0].rec.createdAt then [x] + rows
    else [rows[0]] + InsertNewest(x, rows[1..])
  }

  lemma {:induction false} InsertNewestPermutes(x: Row, rows: seq<Row>)
    ensures multiset(InsertNewest(x, rows)) == multiset(rows) + multiset{x}
  {
    if rows != [] && x.rec.createdAt < rows[0].rec.createdAt {
      InsertNewestPermutes(x, rows[1..]);
      assert rows == [rows[0]] + rows[1..];
    }
  }

  /** Inserting a row no newer than `c` into rows no newer than `c` gives
      rows no newer than `c`. */
  lemma {:induction false} InsertNewestBounded(x: Row, rows: seq<Row>, c: int)
    requires x.rec.createdAt <= c
    requires forall k | 0 <= k < |rows| :: rows[k].rec.createdAt <= c
    ensures forall k | 0 <= k < |InsertNewest(x, rows)| :: InsertNewest(x, rows)[k].rec.createdAt <= c
  {
    if rows != [] && x.rec.createdAt < rows[0].rec.createdAt {
      InsertNewestBounded(x, rows[1..], c);
      var r, t := InsertNewest(x, rows), InsertNewest(x, rows[1..]);
      assert forall k | 1 <= k < |r| :: r[k] == t[k - 1];
    }
  }

  lemma {:induction false} InsertNewestKeepsOrder(x: Row, rows: seq<Row>)
    requires NewestFirst(rows)
    ensures NewestFirst(InsertNewest(x, rows))
  {
    if rows != [] && x.rec.createdAt < rows[0].rec.createdAt {
      var tail := InsertNewest(x, rows[1..]);
      InsertNewestKeepsOrder(x, rows[1..]);
      InsertNewestBounded(x, rows[1..], rows[0].rec.createdAt);
      var r := [rows[0]] + tail;
      assert r == InsertNewest(x, rows);
      forall i, j | 0 <= i < j < |r| ensures r[i].rec.createdAt >= r[j].rec.createdAt {
        if i == 0 { assert r[j] == tail[j - 1]; }
        else { assert r[i] == tail[i - 1] && r[j] == tail[j - 1]; }
      }
    }
  }

  /** The rows reordered newest first. Rows with equal timestamps may come
      in any order in SQL; this sort is one admissible order. */
  function SortNewestFirst(rows: seq<Row>): (r: seq<Row>)
    ensures |r| == |rows|
  {
    if rows == [] then [] else InsertNewest(rows[0], SortNewestFirst(rows[1..]))
  }

  /** The sort yields the same rows, newest first. */
  lemma {:induction false} SortNewestFirstSorts(rows: seq<Row>)
    ensures NewestFirst(SortNewestFirst(rows))
    ensures multiset(SortNewestFirst(rows)) == multiset(rows)
  {
    if rows != [] {
      var sorted := SortNewestFirst(rows[1..]);
      SortNewestFirstSorts(rows[1..]);
      InsertNewestKeepsOrder(rows[0], sorted);
      InsertNewestPermutes(rows[0], sorted);
      assert rows == [rows[0]] + rows[1..];
    }
  }

  lemma {:induction false} DistinctIdsCountOnce(a: seq<Row>, x: Row)
    requires DistinctIds(a)
    ensures multiset(a)[x] <= 1
  {
    if a != [] {
      assert a == [a[0]] + a[1..];
      DistinctIdsCountOnce(a[1..], x);
      if x == a[0] {
        forall k | 0 <= k < |a[1..]| ensures a[1..][k] != x {
          assert a[1..][k] == a[k + 1];
        }
      }
    }
  }

  /** Reordering rows whose ids are distinct keeps them distinct. */
  lemma PermutationKeepsDistinctIds(a: seq<Row>, b: seq<Row>)
    requires multiset(a) == multiset(b) && DistinctIds(a)
    ensures DistinctIds(b)
  {
    forall i, j | 0 <= i < j < |b| ensures b[i].id != b[j].id {
      assert b[i] in multiset(a) && b[j] in multiset(a);
      var p :| 0 <= p < |a| && a[p] == b[i];
      var q :| 0 <= q < |a| && a[q] == b[j];
      if p == q {
        assert b == b[..j] + [b[j]] + b[j + 1..];
        assert b[i] in b[..j];
        assert multiset(b)[b[j]] >= 2;
        DistinctIdsCountOnce(a, b[j]);
        assert false;
      }
    }
  }

  /** `[lr.to_dict() for lr in rows]`: None when some row's owner has no
      user row, because that element's projection raises. */
  function ToViews(rows: seq<Row>, users: map<nat, User>): (r: Option<seq<LeaveView>>)
    ensures r.Some? <==> forall row | row in rows :: row.rec.userId in users
    ensures r.Some? ==> |r.value| == |rows|
    ensures r.Some? ==> forall i | 0 <= i < |rows| ::
      LeaveToDict(rows[i].id, rows[i].rec, users) == Some(r.value[i])
  {
    if rows == [] then Some([])
    else
      match (LeaveToDict(rows[0].id, rows[0].rec, users), ToViews(rows[1..], users))
      case (Some(v), Some(vs)) => Some([v] + vs)
      case (None, _) => None
      case (_, None) =>
        assert exists row | row in rows[1..] :: row.rec.userId !in users;
        None
  }

  /** The body of `GET /leaves` after the caller's row is loaded: the visible
      records newest first, each projected with `to_dict`. None when one of
      them has an owner without a user row. */
  function VisibleViews(
    leaves: map<nat, LeaveRequest>, users: map<nat, User>,
    viewer: nat, viewerRole: Role, n: nat): (r: Option<seq<LeaveView>>)
    ensures r.Some? ==> |r.value| == |VisibleRows(leaves, viewer, viewerRole, n)|
  {
    ToViews(SortNewestFirst(VisibleRows(leaves, viewer, viewerRole, n)), users)
  }

  /** `rows` holds exactly the stored records the viewer may see. */
  predicate SelectsVisible(rows: seq<Row>, leaves: map<nat, LeaveRequest>, viewer: nat, viewerRole: Role) {
    && (forall row | row in rows ::
          row.id in leaves && leaves[row.id] == row.rec && Visible(row.rec, viewer, viewerRole))
    && (forall id | id in leaves && Visible(leaves[id], viewer, viewerRole) :: Row(id, leaves[id]) in rows)
  }

  /** For an admin the listing is every stored record, for anyone else
      exactly the records they own; each appears once, newest first, and the
      listing fails only when a visible record's owner has no user row. */
  lemma VisibleViewsSpec(
    leaves: map<nat, LeaveRequest>, users: map<nat, User>,
    viewer: nat, viewerRole: Role, n: nat)
    requires forall id | id in leaves :: id < n
    ensures var r := VisibleViews(leaves, users, viewer, viewerRole, n);
      && (r.Some? <==>
            forall id | id in leaves && Visible(leaves[id], viewer, viewerRole) :: leaves[id].userId in users)
      && (r.Some? ==> forall v | v in r.value ::
            v.id in leaves && Visible(leaves[v.id], viewer, viewerRole)
            && LeaveToDict(v.id, leaves[v.id], users) == Some(v))
      && (r.Some? ==> forall id | id in leaves && Visible(leaves[id], viewer, viewerRole) ::
            LeaveToDict(id, leaves[id], users).Some? && LeaveToDict(id, leaves[id], users).value in r.value)
      && (r.Some? ==> forall i, j | 0 <= i < j < |r.value| ::
            r.value[i].createdAt >= r.value[j].createdAt && r.value[i].id != r.value[j].id)
  {
    var sorted := SortNewestFirst(VisibleRows(leaves, viewer, viewerRole, n));
    SortedRowsFacts(leaves, viewer, viewerRole, n);
    ViewsDefined(sorted, leaves, users, viewer, viewerRole);
    ViewsSound(sorted, leaves, users, viewer, viewerRole);
    ViewsComplete(sorted, leaves, users, viewer, viewerRole);
    ViewsOrdered(sorted, users);
  }

  lemma ViewsDefined(
    rows: seq<Row>, leaves: map<nat, LeaveRequest>, users: map<nat, User>, viewer: nat, viewerRole: Role)
    requires SelectsVisible(rows, leaves, viewer, viewerRole)
    ensures ToViews(rows, users).Some? <==>
      forall id | id in leaves && Visible(leaves[id], viewer, viewerRole) :: leaves[id].userId in users
  {
    if ToViews(rows, users).Some? {
      forall id | id in leaves && Visible(leaves[id], viewer, viewerRole) ensures leaves[id].userId in users {
        assert Row(id, leaves[id]) in rows;
      }
    } else {
      var row :| row in rows && row.rec.userId !in users;
    }
  }

  lemma ViewsSound(
    rows: seq<Row>, leaves: map<nat, LeaveRequest>, users: map<nat, User>, viewer: nat, viewerRole: Role)
    requires SelectsVisible(rows, leaves, viewer, viewerRole)
    ensures var r := ToViews(rows, users);
      r.Some? ==> forall v | v in r.value ::
        v.id in leaves && Visible(leaves[v.id], viewer, viewerRole)
        && LeaveToDict(v.id, leaves[v.id], users) == Some(v)
  {
    var r := ToViews(rows, users);
    if r.Some? {
      forall v | v in r.value
        ensures v.id in leaves && Visible(leaves[v.id], viewer, viewerRole)
        ensures LeaveToDict(v.id, leaves[v.id], users) == Some(v)
      {
        var i :| 0 <= i < |r.value| && r.value[i] == v;
        assert rows[i] in rows;
      }
    }
  }

  lemma ViewsComplete(
    rows: seq<Row>, leaves: map<nat, LeaveRequest>, users: map<nat, User>, viewer: nat, viewerRole: Role)
    requires SelectsVisible(rows, leaves, viewer, viewerRole)
    ensures var r := ToViews(rows, users);
      r.Some? ==> forall id | id in leaves && Visible(leaves[id], viewer, viewerRole) ::
        LeaveToDict(id, leaves[id], users).Some? && LeaveToDict(id, leaves[id], users).value in r.value
  {
    var r := ToViews(rows, users);
    if r.Some? {
      forall id | id in leaves && Visible(leaves[id], viewer, viewerRole)
        ensures LeaveToDict(id, leaves[id], users).Some? && LeaveToDict(id, leaves[id], users).value in r.value
      {
        assert Row(id, leaves[id]) in rows;
        var i :| 0 <= i < |rows| && rows[i] == Row(id, leaves[id]);
        assert LeaveToDict(id, leaves[id], users) == Some(r.value[i]);
      }
    }
  }

  lemma ViewsOrdered(rows: seq<Row>, users: map<nat, User>)
    requires NewestFirst(rows) && DistinctIds(rows)
    ensures var r := ToViews(rows, users);
      r.Some? ==> forall i, j | 0 <= i < j < |r.value| ::
        r.value[i].createdAt >= r.value[j].createdAt && r.value[i].id != r.value[j].id
  {
    var r := ToViews(rows, users);
    if r.Some? {
      forall i, j | 0 <= i < j < |r.value|
        ensures r.value[i].createdAt >= r.value[j].createdAt && r.value[i].id != r.value[j].id
      {
        assert LeaveToDict(rows[i].id, rows[i].rec, users) == Some(r.value[i]);
        assert LeaveToDict(rows[j].id, rows[j].rec, users) == Some(r.value[j]);
      }
    }
  }

  lemma SortedRowsFacts(leaves: map<nat, LeaveRequest>, viewer: nat, viewerRole: Role, n: nat)
    requires forall id | id in leaves :: id < n
    ensures var sorted := SortNewestFirst(VisibleRows(leaves, viewer, viewerRole, n));
      SelectsVisible(sorted, leaves, viewer, viewerRole) && NewestFirst(sorted) && DistinctIds(sorted)
  {
    var rows := VisibleRows(leaves, viewer, viewerRole, n);
    var sorted := SortNewestFirst(rows);
    SortNewestFirstSorts(rows);
    PermutationKeepsDistinctIds(rows, sorted);
    forall row ensures row in sorted <==> row in rows {
      assert row in sorted <==> row in multiset(sorted);
      assert row in rows <==> row in multiset(rows);
    }
  }
}
