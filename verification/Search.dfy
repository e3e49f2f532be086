/** The scoped, filtered, ordered and paged booking search. */
module Search {
  import opened Slots
  import opened Text
  import opened Ids
  import opened Protocol
  import opened ProtocolInvariant
  import opened RunHistory
  import opened Executions

  datatype Scope = ADMIN | HOST(ownerId: Uuid) | USER(userId: Uuid)

  /** An absent or empty field is None. */
  datatype Filter = Filter(
    page: Option<int>, pageSize: Option<int>, roomId: Option<Uuid>, userId: Option<Uuid>,
    dateFrom: Option<int>, dateTo: Option<int>)

  /** A condition added to the query by `andWhere`; the owner is that of the left-joined room. */
  datatype Condition =
    | UserIs(user: Uuid) | OwnerIs(owner: Uuid) | RoomIs(room: Uuid) | StartsFrom(t: int) | EndsBy(t: int)

  datatype Reply = Reply(items: seq<Row>, page: int, pageSize: int, total: nat)

  function OwnerOf(rooms: map<Uuid, Room>, row: Row): Option<Uuid> {
    if row.room in rooms then rooms[row.room].owner else None
  }

  predicate Holds(rooms: map<Uuid, Room>, c: Condition, row: Row) {
    match c
    case UserIs(u) => row.user == u
    case OwnerIs(o) => OwnerOf(rooms, row) == Some(o)
    case RoomIs(r) => row.room == r
    case StartsFrom(t) => row.start >= t
    case EndsBy(t) => row.end <= t
  }

  predicate AllHold(rooms: map<Uuid, Room>, qb: seq<Condition>, row: Row) {
    forall i :: 0 <= i < |qb| ==> Holds(rooms, qb[i], row)
  }

  predicate InScope(rooms: map<Uuid, Room>, scope: Scope, row: Row) {
    match scope
    case ADMIN => true
    case HOST(o) => OwnerOf(rooms, row) == Some(o)
    case USER(u) => row.user == u
  }

  /** The filters every scope obeys. */
  predicate PassesCommon(f: Filter, row: Row) {
    && (f.roomId.Some? ==> row.room == f.roomId.value)
    && (f.dateFrom.Some? ==> row.start >= f.dateFrom.value)
    && (f.dateTo.Some? ==> row.end <= f.dateTo.value)
  }

  /** A row the search is about; only an ADMIN search obeys the user filter. */
  predicate Selected(rooms: map<Uuid, Room>, scope: Scope, f: Filter, row: Row) {
    && InScope(rooms, scope, row) && PassesCommon(f, row)
    && (scope.ADMIN? && f.userId.Some? ==> row.user == f.userId.value)
  }

  function Where(table: seq<Row>, p: Row -> bool): (rows: seq<Row>) {
    if table == [] then []
    else
      var row := table[|table| - 1];
      Where(table[..|table| - 1], p) + if p(row) then [row] else []
  }

  function Selects(rooms: map<Uuid, Room>, scope: Scope, f: Filter): Row -> bool {
    (row: Row) => Selected(rooms, scope, f, row)
  }

  function MeetsQuery(rooms: map<Uuid, Room>, qb: seq<Condition>): Row -> bool {
    (row: Row) => AllHold(rooms, qb, row)
  }

  function Matching(table: seq<Row>, rooms: map<Uuid, Room>, scope: Scope, f: Filter): seq<Row> {
    Where(table, Selects(rooms, scope, f))
  }

  lemma {:induction false} WhereAgrees(table: seq<Row>, p: Row -> bool, q: Row -> bool)
    requires forall row :: row in table ==> p(row) == q(row)
    ensures Where(table, p) == Where(table, q)
  {
    if table != [] {
      WhereAgrees(table[..|table| - 1], p, q);
    }
  }

  lemma {:induction false} WhereSelects(table: seq<Row>, p: Row -> bool)
    ensures forall row :: row in Where(table, p) <==> row in table && p(row)
  {
    if table != [] {
      WhereSelects(table[..|table| - 1], p);
      assert table == table[..|table| - 1] + [table[|table| - 1]];
    }
  }

  lemma {:induction false} WhereCounts(table: seq<Row>, p: Row -> bool, row: Row)
    ensures multiset(Where(table, p))[row] == if p(row) then multiset(table)[row] else 0
  {
    if table != [] {
      WhereCounts(table[..|table| - 1], p, row);
      assert table == table[..|table| - 1] + [table[|table| - 1]];
    }
  }

  /** What each scope and each filter asks of a row, by its own columns and the rooms table: a host sees the
      rows of the rooms he owns, a user those he booked, and an admin all, or those of one user. */
  lemma SelectionMeans(table: seq<Row>, rooms: map<Uuid, Room>, scope: Scope, f: Filter, row: Row)
    ensures multiset(Matching(table, rooms, scope, f))[row]
            == if && (scope.ADMIN? && f.userId.Some? ==> row.user == f.userId.value)
                  && (scope.HOST? ==> row.room in rooms && rooms[row.room].owner == Some(scope.ownerId))
                  && (scope.USER? ==> row.user == scope.userId)
                  && (f.roomId.Some? ==> row.room == f.roomId.value)
                  && (f.dateFrom.Some? ==> f.dateFrom.value <= row.start)
                  && (f.dateTo.Some? ==> row.end <= f.dateTo.value)
               then multiset(table)[row] else 0
  {
    WhereCounts(table, Selects(rooms, scope, f), row);
  }

  // ----- Order -----

  ghost predicate SortedDesc(rows: seq<Row>) {
    forall i, j :: 0 <= i < j < |rows| ==> rows[i].start >= rows[j].start
  }

  /** ORDER BY start_at DESC leaves the order of equal starts to the database: any of these. */
  ghost predicate IsAnswer(rows: seq<Row>, matching: seq<Row>) {
    SortedDesc(rows) && multiset(rows) == multiset(matching)
  }

  function InsertDesc(row: Row, rows: seq<Row>): (r: seq<Row>)
    ensures multiset(r) == multiset(rows) + multiset{row}
  {
    if rows == [] then [row]
    else if row.start > rows[0].start then [row] + rows
    else
      assert rows == [rows[0]] + rows[1..];
      [rows[0]] + InsertDesc(row, rows[1..])
  }

  lemma {:induction false} InsertDescSorts(row: Row, rows: seq<Row>)
    requires SortedDesc(rows)
    ensures SortedDesc(InsertDesc(row, rows))
  {
    if rows != [] && row.start <= rows[0].start {
      InsertDescSorts(row, rows[1..]);
      var rest := InsertDesc(row, rows[1..]);
      forall i | 0 <= i < |rest| ensures rows[0].start >= rest[i].start {
        assert rest[i] in multiset(rest);
        assert rest[i] == row || rest[i] in rows[1..];
      }
    }
  }

  /** One such answer: equal starts in table order. */
  function Ordered(rows: seq<Row>): (r: seq<Row>)
    ensures multiset(r) == multiset(rows)
  {
    if rows == [] then []
    else
      assert rows == rows[..|rows| - 1] + [rows[|rows| - 1]];
      InsertDesc(rows[|rows| - 1], Ordered(rows[..|rows| - 1]))
  }

  lemma {:induction false} OrderedIsAnswer(rows: seq<Row>)
    ensures IsAnswer(Ordered(rows), rows)
  {
    if rows != [] {
      OrderedIsAnswer(rows[..|rows| - 1]);
      InsertDescSorts(rows[|rows| - 1], Ordered(rows[..|rows| - 1]));
    }
  }

  // ----- The search -----

  function Clamp(low: int, high: int, n: int): int {
    if n < low then low else if n > high then high else n
  }

  function PageNumber(f: Filter): (page: int)
    ensures page >= 1
    ensures f.page.None? ==> page == 1
    ensures f.page.Some? && f.page.value >= 1 ==> page == f.page.value
    ensures f.page.Some? && f.page.value < 1 ==> page == 1
  {
    var n := if f.page.Some? then f.page.value else 1; if n < 1 then 1 else n
  }

  function PageSize(f: Filter): (size: int)
    ensures 1 <= size <= 100
    ensures f.pageSize.None? ==> size == 20
    ensures f.pageSize.Some? && 1 <= f.pageSize.value <= 100 ==> size == f.pageSize.value
    ensures f.pageSize.Some? && f.pageSize.value < 1 ==> size == 1
    ensures f.pageSize.Some? && f.pageSize.value > 100 ==> size == 100
  {
    Clamp(1, 100, if f.pageSize.Some? then f.pageSize.value else 20)
  }

  function AtMost(n: int, limit: nat): nat { if n > limit then limit else if n < 0 then 0 else n }

  /** OFFSET (page - 1) * size LIMIT size */
  function PageOf(rows: seq<Row>, page: int, size: int): seq<Row>
    requires size > 0
  {
    rows[AtMost((page - 1) * size, |rows|)..AtMost((page - 1) * size + size, |rows|)]
  }

  /** ORDER BY start_at DESC: sorted, with equal starts in any order. */
  method OrderByStart(rows: seq<Row>) returns (answer: seq<Row>)
    ensures IsAnswer(answer, rows)
  {
    answer := Ordered(rows);
    OrderedIsAnswer(rows);
  }

  /** The items are the asked page of some answer; which one, the database decides anew for each search.
      Without a page it is the first, without a size 20, and a size is between 1 and 100. */
  method SearchBookings(table: seq<Row>, rooms: map<Uuid, Room>, scope: Scope, f: Filter) returns (reply: Reply)
    ensures reply.page >= 1
    ensures reply.page == 1 <==> f.page.None? || f.page.value <= 1
    ensures f.page.Some? && f.page.value > 1 ==> reply.page == f.page.value
    ensures f.pageSize.None? ==> reply.pageSize == 20
    ensures f.pageSize.Some? && f.pageSize.value < 1 ==> reply.pageSize == 1
    ensures f.pageSize.Some? && f.pageSize.value > 100 ==> reply.pageSize == 100
    ensures f.pageSize.Some? && 1 <= f.pageSize.value <= 100 ==> reply.pageSize == f.pageSize.value
    ensures reply.page == PageNumber(f) && reply.pageSize == PageSize(f)
    ensures reply.total == |Matching(table, rooms, scope, f)|
    ensures exists answer :: IsAnswer(answer, Matching(table, rooms, scope, f))
                             && reply.items == PageOf(answer, PageNumber(f), PageSize(f))
  {
    var page := if f.page.Some? && f.page.value > 1 then f.page.value else 1;
    var asked := if f.pageSize.Some? then f.pageSize.value else 20;
    var pageSize := if asked < 1 then 1 else asked;
    pageSize := if pageSize > 100 then 100 else pageSize;
    var qb := BuildQuery(rooms, scope, f);
    var rows := Where(table, MeetsQuery(rooms, qb));
    WhereAgrees(table, MeetsQuery(rooms, qb), Selects(rooms, scope, f));
    var total := |rows|;
    var answer := OrderByStart(rows);
    reply := Reply(PageOf(answer, page, pageSize), page, pageSize, total);
  }

  /** The chain of ifs that adds conditions to the query selects what the scope and filters mean. */
  method BuildQuery(ghost rooms: map<Uuid, Room>, scope: Scope, f: Filter) returns (qb: seq<Condition>)
    ensures forall row :: AllHold(rooms, qb, row) <==> Selected(rooms, scope, f, row)
  {
    qb := [];
    if scope.USER? {
      qb := AndWhere(rooms, qb, UserIs(scope.userId));
    } else if scope.HOST? {
      qb := AndWhere(rooms, qb, OwnerIs(scope.ownerId));
    }
    assert forall row :: AllHold(rooms, qb, row) <==> InScope(rooms, scope, row);
    qb := AddFilters(rooms, scope, f, qb);
  }

  method AddFilters(ghost rooms: map<Uuid, Room>, scope: Scope, f: Filter, scoped: seq<Condition>)
    returns (qb: seq<Condition>)
    ensures forall row :: AllHold(rooms, qb, row) <==>
                            && AllHold(rooms, scoped, row) && PassesCommon(f, row)
                            && (scope.ADMIN? && f.userId.Some? ==> row.user == f.userId.value)
  {
    qb := scoped;
    if f.roomId.Some? {
      qb := AndWhere(rooms, qb, RoomIs(f.roomId.value));
    }
    if f.userId.Some? && scope.ADMIN? {
      qb := AndWhere(rooms, qb, UserIs(f.userId.value));
    }
    assert forall row :: AllHold(rooms, qb, row) <==>
                           && AllHold(rooms, scoped, row) && (f.roomId.Some? ==> row.room == f.roomId.value)
                           && (scope.ADMIN? && f.userId.Some? ==> row.user == f.userId.value);
    qb := AddDates(rooms, f, qb);
  }

  method AddDates(ghost rooms: map<Uuid, Room>, f: Filter, before: seq<Condition>) returns (qb: seq<Condition>)
    ensures forall row :: AllHold(rooms, qb, row) <==>
                            && AllHold(rooms, before, row)
                            && (f.dateFrom.Some? ==> row.start >= f.dateFrom.value)
                            && (f.dateTo.Some? ==> row.end <= f.dateTo.value)
  {
    qb := before;
    if f.dateFrom.Some? {
      qb := AndWhere(rooms, qb, StartsFrom(f.dateFrom.value));
    }
    if f.dateTo.Some? {
      qb := AndWhere(rooms, qb, EndsBy(f.dateTo.value));
    }
  }

  /** `qb.andWhere(...)` */
  method AndWhere(ghost rooms: map<Uuid, Room>, qb: seq<Condition>, c: Condition) returns (r: seq<Condition>)
    ensures forall row :: AllHold(rooms, r, row) <==> AllHold(rooms, qb, row) && Holds(rooms, c, row)
  {
    r := qb + [c];
    forall row ensures AllHold(rooms, r, row) <==> AllHold(rooms, qb, row) && Holds(rooms, c, row) {
      if AllHold(rooms, r, row) {
        assert Holds(rooms, r[|qb|], row);
        forall i | 0 <= i < |qb| ensures Holds(rooms, qb[i], row) { assert r[i] == qb[i]; }
      }
    }
  }

  // ----- Paging -----

  function PageCount(total: nat, size: int): nat
    requires size > 0
  {
    (total + size - 1) / size
  }

  function PagesUpTo(rows: seq<Row>, size: int, k: nat): seq<Row>
    requires size > 0
  {
    if k == 0 then [] else PagesUpTo(rows, size, k - 1) + PageOf(rows, k, size)
  }

  lemma OneMorePage(k: int, size: int)
    ensures k * size == (k - 1) * size + size
  {
  }

  lemma PageExtendsPrefix(rows: seq<Row>, off: int, size: int)
    requires size > 0
    ensures rows[..AtMost(off, |rows|)] + rows[AtMost(off, |rows|)..AtMost(off + size, |rows|)]
            == rows[..AtMost(off + size, |rows|)]
  {
  }

  lemma {:induction false} PagesAreAPrefix(rows: seq<Row>, size: int, k: nat)
    requires size > 0
    ensures 0 <= k * size
    ensures PagesUpTo(rows, size, k) == rows[..AtMost(k * size, |rows|)]
  {
    if k > 0 {
      PagesAreAPrefix(rows, size, k - 1);
      OneMorePage(k, size);
      PageExtendsPrefix(rows, (k - 1) * size, size);
    }
  }

  lemma EnoughPages(total: nat, size: int)
    requires size > 0
    ensures PageCount(total, size) * size >= total
  {
    var n := total + size - 1;
    assert n == n / size * size + n % size;
  }

  lemma NoPageTooMany(total: nat, size: int, k: nat)
    requires size > 0 && 1 <= k <= PageCount(total, size)
    ensures (k - 1) * size < total
  {
    var n := total + size - 1;
    assert n == n / size * size + n % size;
    OneMorePage(n / size, size);
    ProductsKeepOrder(k - 1, n / size - 1, size);
  }

  /** What is on a page: the rows from (page - 1) * size on, at most `size` of them, and no fewer while there
      are any. */
  lemma PageMeans(rows: seq<Row>, page: int, size: int, k: nat)
    requires page >= 1 && size > 0
    ensures var q := (page - 1) * size + k;
            && 0 <= (page - 1) * size
            && (k < |PageOf(rows, page, size)| <==> k < size && q < |rows|)
            && (k < size && q < |rows| ==> PageOf(rows, page, size)[k] == rows[q])
  {
    ProductsKeepOrder(0, page - 1, size);
  }

  /** Pages 1 to ceil(total / size), one after the other, are the whole ordered answer, and none is empty. */
  lemma PagesPartitionAnswer(rows: seq<Row>, size: int)
    requires size > 0
    ensures PagesUpTo(rows, size, PageCount(|rows|, size)) == rows
    ensures forall k :: 1 <= k <= PageCount(|rows|, size) ==> PageOf(rows, k, size) != []
  {
    forall k | 1 <= k <= PageCount(|rows|, size) ensures PageOf(rows, k, size) != [] {
      NoPageTooMany(|rows|, size, k);
      PageMeans(rows, k, size, 0);
    }
    PagesAreAPrefix(rows, size, PageCount(|rows|, size));
    EnoughPages(|rows|, size);
    assert rows[..|rows|] == rows;
  }

  predicate OnPage(q: int, page: int, size: int) { (page - 1) * size <= q < (page - 1) * size + size }

  /** Position q of the answer is on page q / size + 1 and no other. */
  lemma OnExactlyOnePage(q: nat, page: int, size: int)
    requires size > 0
    ensures OnPage(q, page, size) <==> page == q / size + 1
  {
    var k, r := q / size, q % size;
    assert q == k * size + r;
    if page - 1 < k {
      ProductsKeepOrder(page - 1, k, size);
    } else if k < page - 1 {
      ProductsKeepOrder(k, page - 1, size);
    }
  }

  // ----- Within one room the order is total -----

  ghost predicate DistinctStarts(rows: seq<Row>) {
    forall i, j :: 0 <= i < j < |rows| ==> rows[i].start != rows[j].start
  }

  lemma {:induction false} WhereOfOneRoom(table: seq<Row>, p: Row -> bool, room: Uuid)
    requires RowsDisjoint(table) && forall row :: row in table && p(row) ==> row.room == room
    ensures DistinctStarts(Where(table, p))
  {
    if table != [] {
      var rest, last := table[..|table| - 1], table[|table| - 1];
      WhereOfOneRoom(rest, p, room);
      WhereSelects(rest, p);
      if p(last) {
        assert last in table;
        forall i | 0 <= i < |Where(rest, p)| ensures Where(rest, p)[i].start != last.start {
          var row := Where(rest, p)[i];
          assert row in Where(rest, p);
          var k :| 0 <= k < |rest| && rest[k] == row;
          assert table[k] == row && row in table;
        }
      }
    }
  }

  lemma FirstIsLatest(a: seq<Row>, b: seq<Row>)
    requires a != [] && b != [] && SortedDesc(a) && SortedDesc(b) && multiset(a) == multiset(b)
    ensures a[0].start == b[0].start
  {
    assert a[0] in multiset(b) && b[0] in multiset(a);
    assert a[0] in b && b[0] in a;
    var i :| 0 <= i < |b| && b[i] == a[0];
    var j :| 0 <= j < |a| && a[j] == b[0];
  }

  /** Rows with the same start are the same row. */
  ghost predicate StartsIdentify(m: multiset<Row>) {
    forall x, y :: x in m && y in m && x.start == y.start ==> x == y
  }

  lemma SameFirst(a: seq<Row>, b: seq<Row>)
    requires a != [] && b != [] && SortedDesc(a) && SortedDesc(b) && multiset(a) == multiset(b)
    requires StartsIdentify(multiset(a))
    ensures a[0] == b[0]
  {
    FirstIsLatest(a, b);
    assert a[0] in multiset(a) && b[0] in multiset(b);
  }

  lemma SameRest(a: seq<Row>, b: seq<Row>)
    requires a != [] && b != [] && a[0] == b[0] && multiset(a) == multiset(b)
    ensures multiset(a[1..]) == multiset(b[1..])
    ensures StartsIdentify(multiset(a)) ==> StartsIdentify(multiset(a[1..]))
  {
    assert a == [a[0]] + a[1..] && b == [b[0]] + b[1..];
    assert multiset(a[1..]) == multiset(a) - multiset{a[0]};
    assert multiset(b[1..]) == multiset(b) - multiset{b[0]};
  }

  lemma SameLength(a: seq<Row>, b: seq<Row>)
    requires multiset(a) == multiset(b)
    ensures |a| == |b|
  {
    assert |multiset(a)| == |a| && |multiset(b)| == |b|;
  }

  lemma TailSorted(a: seq<Row>)
    requires a != [] && SortedDesc(a)
    ensures SortedDesc(a[1..])
  {
    var rest := a[1..];
    forall i, j | 0 <= i < j < |rest| ensures rest[i].start >= rest[j].start {
      assert rest[i] == a[i + 1] && rest[j] == a[j + 1];
    }
  }

  lemma SameHeadAndTail(a: seq<Row>, b: seq<Row>)
    requires a != [] && b != [] && a[0] == b[0] && a[1..] == b[1..]
    ensures a == b
  {
    assert a == [a[0]] + a[1..] && b == [b[0]] + b[1..];
  }

  lemma {:induction false} OneSortedOrder(a: seq<Row>, b: seq<Row>)
    requires SortedDesc(a) && SortedDesc(b) && multiset(a) == multiset(b) && StartsIdentify(multiset(a))
    ensures a == b
  {
    if a == [] {
      SameLength(b, a);
    } else {
      SameLength(a, b);
      SameFirst(a, b);
      SameRest(a, b);
      TailSorted(a);
      TailSorted(b);
      OneSortedOrder(a[1..], b[1..]);
      SameHeadAndTail(a, b);
    }
  }

  /** With a room filter, the exclusion constraint makes the order strict: every way the database may
      break ties gives the same answer, and so the same pages, in every state of every execution. */
  lemma RoomSearchIsDetermined(ttl: int, st: seq<State>, acts: seq<Action>, n: nat, scope: Scope, f: Filter,
                               answer: seq<Row>, page: int, size: int)
    requires IsRun(ttl, st, acts) && n < |st| && f.roomId.Some? && size > 0
    requires IsAnswer(answer, Matching(st[n].rows, st[n].rooms, scope, f))
    ensures answer == Ordered(Matching(st[n].rows, st[n].rooms, scope, f))
    ensures forall i, j :: 0 <= i < j < |answer| ==> answer[i].start > answer[j].start
    ensures PageOf(answer, page, size) == PageOf(Ordered(Matching(st[n].rows, st[n].rooms, scope, f)), page, size)
  {
    InvHolds(ttl, st, acts, n);
    var rows := Matching(st[n].rows, st[n].rooms, scope, f);
    WhereOfOneRoom(st[n].rows, Selects(st[n].rooms, scope, f), f.roomId.value);
    OrderedIsAnswer(rows);
    DistinctIdentify(rows);
    OneSortedOrder(answer, Ordered(rows));
    StrictlySorted(answer, rows);
  }

  lemma DistinctIdentify(rows: seq<Row>)
    requires DistinctStarts(rows)
    ensures StartsIdentify(multiset(rows))
  {
    forall x, y | x in multiset(rows) && y in multiset(rows) && x.start == y.start ensures x == y {
      assert x in rows && y in rows;
      var i :| 0 <= i < |rows| && rows[i] == x;
      var j :| 0 <= j < |rows| && rows[j] == y;
    }
  }

  lemma {:induction false} CountOnce(rows: seq<Row>, x: Row)
    requires DistinctStarts(rows)
    ensures multiset(rows)[x] <= 1
  {
    if rows != [] {
      var rest, last := rows[..|rows| - 1], rows[|rows| - 1];
      assert rows == rest + [last];
      CountOnce(rest, x);
      forall i | 0 <= i < |rest| ensures rest[i] != last {
        assert rows[i].start != rows[|rest|].start;
      }
      assert last !in rest;
    }
  }

  lemma StrictlySorted(answer: seq<Row>, rows: seq<Row>)
    requires IsAnswer(answer, rows) && DistinctStarts(rows)
    ensures forall i, j :: 0 <= i < j < |answer| ==> answer[i].start > answer[j].start
  {
    forall i, j | 0 <= i < j < |answer| ensures answer[i].start > answer[j].start {
      if answer[i].start == answer[j].start {
        DistinctIdentify(rows);
        assert answer[i] in multiset(rows) && answer[j] in multiset(rows);
        TwiceInMultiset(answer, i, j);
        CountOnce(rows, answer[i]);
        assert false;
      }
    }
  }

  lemma TwiceInMultiset(rows: seq<Row>, i: nat, j: nat)
    requires i < j < |rows| && rows[i] == rows[j]
    ensures multiset(rows)[rows[i]] >= 2
  {
    assert rows == rows[..j] + rows[j..];
    assert rows[..j][i] == rows[i] && rows[j..][0] == rows[i];
    assert rows[i] in rows[..j] && rows[i] in rows[j..];
  }

  // ----- When the pages are determined -----

  ghost predicate NoDuplicates(rows: seq<Row>) {
    forall i, j :: 0 <= i < j < |rows| ==> rows[i] != rows[j]
  }

  ghost predicate AnswerDetermined(m: seq<Row>) {
    forall a, b :: IsAnswer(a, m) && IsAnswer(b, m) ==> a == b
  }

  /** Two equal starts of an answer may as well stand the other way round. */
  function Swapped(rows: seq<Row>, p: nat, q: nat): seq<Row>
    requires p < q < |rows|
  {
    rows[p := rows[q]][q := rows[p]]
  }

  lemma SwappedIsAnswer(answer: seq<Row>, m: seq<Row>, p: nat, q: nat)
    requires IsAnswer(answer, m) && p < q < |answer| && answer[p].start == answer[q].start
    ensures IsAnswer(Swapped(answer, p, q), m)
  {
    var other := Swapped(answer, p, q);
    forall i | 0 <= i < |answer| ensures other[i].start == answer[i].start {
    }
    assert multiset(other) == multiset(answer);
  }

  lemma RowsFoundAgain(answer: seq<Row>, m: seq<Row>, i: nat, j: nat) returns (p: nat, q: nat)
    requires IsAnswer(answer, m) && i < j < |m| && m[i] != m[j] && m[i].start == m[j].start
    ensures p < q < |answer| && answer[p].start == answer[q].start && answer[p] != answer[q]
  {
    assert m[i] in multiset(answer) && m[j] in multiset(answer);
    var x :| 0 <= x < |answer| && answer[x] == m[i];
    var y :| 0 <= y < |answer| && answer[y] == m[j];
    p, q := if x < y then x else y, if x < y then y else x;
  }

  /** The answer is determined, however the database breaks ties, if and only if no two rows share a start. */
  lemma AnswerDeterminedExactly(m: seq<Row>)
    requires NoDuplicates(m)
    ensures AnswerDetermined(m) <==> DistinctStarts(m)
  {
    if DistinctStarts(m) {
      DistinctIdentify(m);
      forall a, b | IsAnswer(a, m) && IsAnswer(b, m) ensures a == b {
        OneSortedOrder(a, b);
      }
    } else {
      var i, j :| 0 <= i < j < |m| && m[i].start == m[j].start;
      OrderedIsAnswer(m);
      var p, q := RowsFoundAgain(Ordered(m), m, i, j);
      SwappedIsAnswer(Ordered(m), m, p, q);
      assert Swapped(Ordered(m), p, q)[p] != Ordered(m)[p];
    }
  }

  /** Whatever answers the searches for the single pages come from, each page is the same. */
  ghost predicate PagesDetermined(m: seq<Row>, size: int)
    requires size > 0
  {
    forall a, b, page :: IsAnswer(a, m) && IsAnswer(b, m) ==> PageOf(a, page, size) == PageOf(b, page, size)
  }

  lemma {:induction false} SamePagesSamePrefix(a: seq<Row>, b: seq<Row>, size: int, k: nat)
    requires size > 0 && forall page :: PageOf(a, page, size) == PageOf(b, page, size)
    ensures PagesUpTo(a, size, k) == PagesUpTo(b, size, k)
  {
    if k > 0 {
      SamePagesSamePrefix(a, b, size, k - 1);
    }
  }

  lemma PagesDeterminedExactly(m: seq<Row>, size: int)
    requires size > 0 && NoDuplicates(m)
    ensures PagesDetermined(m, size) <==> DistinctStarts(m)
  {
    AnswerDeterminedExactly(m);
    if PagesDetermined(m, size) {
      forall a, b | IsAnswer(a, m) && IsAnswer(b, m) ensures a == b {
        SameLength(a, b);
        SamePagesSamePrefix(a, b, size, PageCount(|a|, size));
        PagesPartitionAnswer(a, size);
        PagesPartitionAnswer(b, size);
      }
    }
  }

  lemma {:induction false} WhereKeepsNoDuplicates(table: seq<Row>, p: Row -> bool)
    requires NoDuplicates(table)
    ensures NoDuplicates(Where(table, p))
  {
    if table != [] {
      var rest, last := table[..|table| - 1], table[|table| - 1];
      WhereKeepsNoDuplicates(rest, p);
      WhereSelects(rest, p);
      forall i | 0 <= i < |Where(rest, p)| ensures Where(rest, p)[i] != last {
        assert Where(rest, p)[i] in Where(rest, p);
      }
    }
  }

  lemma DisjointRowsDiffer(rows: seq<Row>)
    requires RowsDisjoint(rows)
    ensures NoDuplicates(rows)
  {
  }

  /** In every state of every execution, the pages of a search do not depend on how the database breaks
      ties if and only if no two of the selected rows start together. */
  lemma SearchIsDeterminedExactly(ttl: int, st: seq<State>, acts: seq<Action>, n: nat, scope: Scope, f: Filter)
    requires IsRun(ttl, st, acts) && n < |st|
    ensures var m := Matching(st[n].rows, st[n].rooms, scope, f);
            PagesDetermined(m, PageSize(f)) <==> DistinctStarts(m)
  {
    InvHolds(ttl, st, acts, n);
    DisjointRowsDiffer(st[n].rows);
    WhereKeepsNoDuplicates(st[n].rows, Selects(st[n].rooms, scope, f));
    PagesDeterminedExactly(Matching(st[n].rows, st[n].rooms, scope, f), PageSize(f));
  }

  function TwoRooms(room: Uuid, other: Uuid): map<Uuid, Room> { map[room := Room(None, 60), other := Room(None, 60)] }

  function OwnBookings(page: int, size: int): Filter { Filter(Some(page), Some(size), None, None, None, None) }

  /** A user books two rooms for one start. */
  lemma TwoRoomsAtOnce(ttl: int, user: Uuid, room: Uuid, other: Uuid)
    returns (st: seq<State>, acts: seq<Action>, x: Row, y: Row)
    requires ttl > 0 && room != other
    ensures IsRun(ttl, st, acts) && |acts| == 11 && st[11].rows == [x, y]
    ensures x.user == user && y.user == user && x.start == y.start && x.room == other && y.room == room
  {
    var c, e := Claim(user, Canonical(room), 0, 60), Claim(user, Canonical(other), 0, 60);
    BothRoomsAsk(c, e);
    st, acts := TwoRoomsExecution(ttl, SameRooms(TwoRooms(room, other), c, e));
    x, y := RowFor(0, HoldOf(ttl, e, 1)), RowFor(1, HoldOf(ttl, c, 0));
  }

  lemma BothRoomsAsk(c: Claim, e: Claim)
    requires c.slotMin == 60 && e.slotMin == 60 && c.start == 0 && e.start == 0
    ensures Asks(Start(TwoRooms(c.room.id, e.room.id)), c) && Asks(Start(TwoRooms(c.room.id, e.room.id)), e)
  {
  }

  lemma OwnRowsMatch(rooms: map<Uuid, Room>, user: Uuid, x: Row, y: Row, f: Filter)
    requires x.user == user && y.user == user && f == OwnBookings(1, 1)
    ensures Matching([x, y], rooms, USER(user), f) == [x, y]
  {
    var p := Selects(rooms, USER(user), f);
    assert p(x) && p(y);
    assert [x, y][..1] == [x] && [x][..0] == [];
    assert Where([x], p) == [x];
  }

  lemma EitherOrder(x: Row, y: Row)
    requires x.start == y.start
    ensures IsAnswer([x, y], [x, y]) && IsAnswer([y, x], [x, y])
    ensures PageOf([x, y], 1, 1) == [x] == PageOf([y, x], 2, 1)
  {
    assert multiset([x, y]) == multiset([y, x]);
  }

  /** And then his own search, one booking a page, can show one of them on both pages and the other on none. */
  lemma UserSearchCanRepeatARow(ttl: int, user: Uuid, room: Uuid, other: Uuid)
    returns (st: seq<State>, acts: seq<Action>, a: seq<Row>, b: seq<Row>, x: Row, y: Row)
    requires ttl > 0 && room != other
    ensures IsRun(ttl, st, acts) && |st| == 12
    ensures var m := Matching(st[11].rows, st[11].rooms, USER(user), OwnBookings(1, 1));
            m == [x, y] && x != y && IsAnswer(a, m) && IsAnswer(b, m)
    ensures PageOf(a, 1, 1) == [x] == PageOf(b, 2, 1)
  {
    st, acts, x, y := TwoRoomsAtOnce(ttl, user, room, other);
    OwnRowsMatch(st[11].rooms, user, x, y, OwnBookings(1, 1));
    a, b := [x, y], [y, x];
    EitherOrder(x, y);
  }

  // ----- Pages of different states -----

  // One page is fetched in one state, the next in a later one: `a` is the answer at first, `b` the answer
  // later, and the pages fetched so far have taken the first `off` rows of `a`.

  ghost predicate StrictlyDesc(rows: seq<Row>) {
    forall i, j :: 0 <= i < j < |rows| ==> rows[i].start > rows[j].start
  }

  ghost predicate AllIn(a: seq<Row>, b: seq<Row>) {
    forall i :: 0 <= i < |a| ==> a[i] in b
  }

  lemma OrderOfPlaces(rows: seq<Row>, i: nat, j: nat)
    requires StrictlyDesc(rows) && i < |rows| && j < |rows|
    ensures rows[i].start > rows[j].start <==> i < j
    ensures rows[i] == rows[j] <==> i == j
  {
  }

  /** A row moves only back: its place in the later answer is no earlier. */
  lemma {:induction false} PlaceGrows(a: seq<Row>, b: seq<Row>, i: nat) returns (j: nat)
    requires StrictlyDesc(a) && StrictlyDesc(b) && AllIn(a, b) && i < |a|
    ensures i <= j < |b| && b[j] == a[i]
  {
    assert a[i] in b;
    j :| 0 <= j < |b| && b[j] == a[i];
    if i > 0 {
      var p := PlaceGrows(a, b, i - 1);
      OrderOfPlaces(a, i - 1, i);
      OrderOfPlaces(b, p, j);
    }
  }

  /** If the row at place `i` is still there, so are all rows before it. */
  lemma {:induction false} PlacesBeforeStay(a: seq<Row>, b: seq<Row>, i: nat, q: nat)
    requires StrictlyDesc(a) && StrictlyDesc(b) && AllIn(a, b) && q <= i < |a| && i < |b| && b[i] == a[i]
    ensures b[q] == a[q]
    decreases i - q
  {
    if q < i {
      var p := i - 1;
      var j := PlaceGrows(a, b, p);
      OrderOfPlaces(a, p, i);
      OrderOfPlaces(b, j, i);
      PlacesBeforeStay(a, b, p, q);
    }
  }

  /** Going forward skips nothing: no row still to come is among those that count as fetched. */
  lemma NothingSkipped(a: seq<Row>, b: seq<Row>, off: nat, i: nat)
    requires StrictlyDesc(a) && StrictlyDesc(b) && AllIn(a, b) && off <= i < |a| && off <= |b|
    ensures a[i] !in b[..off]
  {
    var j := PlaceGrows(a, b, i);
    forall q | 0 <= q < off ensures b[..off][q] != a[i] {
      OrderOfPlaces(b, q, j);
    }
  }

  /** A row already fetched comes again. */
  ghost predicate Repeats(a: seq<Row>, b: seq<Row>, off: nat)
    requires off <= |a| && off <= |b|
  {
    exists i, j :: 0 <= i < off <= j < |b| && a[i] == b[j]
  }

  /** A row that was not there at first is ahead of the offset. */
  ghost predicate NewAhead(a: seq<Row>, b: seq<Row>, off: nat)
    requires off <= |b|
  {
    exists q :: 0 <= q < off && b[q] !in a
  }

  lemma {:induction false} OldPrefixIsSame(a: seq<Row>, b: seq<Row>, off: nat, q: nat)
    requires StrictlyDesc(a) && StrictlyDesc(b) && AllIn(a, b) && off <= |a| && off <= |b| && !NewAhead(a, b, off)
             && q < off
    ensures a[q] == b[q]
  {
    assert b[q] in a;
    var i :| 0 <= i < |a| && a[i] == b[q];
    var j := PlaceGrows(a, b, i);
    OrderOfPlaces(b, j, q);
    OrderOfPlaces(b, i, q);
    if i < q {
      OldPrefixIsSame(a, b, off, i);
    }
  }

  lemma NewAheadRepeats(a: seq<Row>, b: seq<Row>, off: nat)
    requires StrictlyDesc(a) && StrictlyDesc(b) && AllIn(a, b) && off <= |a| && off <= |b| && NewAhead(a, b, off)
    ensures Repeats(a, b, off)
  {
    var q :| 0 <= q < off && b[q] !in a;
    var last: nat := off - 1;
    var j := PlaceGrows(a, b, last);
    if j == last {
      PlacesBeforeStay(a, b, last, q);
    }
  }

  /** Going forward repeats a row if and only if a row has come in ahead of the offset. */
  lemma RepeatsExactly(a: seq<Row>, b: seq<Row>, off: nat)
    requires StrictlyDesc(a) && StrictlyDesc(b) && AllIn(a, b) && off <= |a| && off <= |b|
    ensures Repeats(a, b, off) <==> NewAhead(a, b, off)
  {
    if NewAhead(a, b, off) {
      NewAheadRepeats(a, b, off);
    } else {
      forall i, j | 0 <= i < off <= j < |b| ensures a[i] != b[j] {
        OldPrefixIsSame(a, b, off, i);
        OrderOfPlaces(b, i, j);
      }
    }
  }

  lemma OwnersStay(ttl: int, s: State, a: Action, room: Uuid)
    ensures room in Step(ttl, s, a).rooms <==> room in s.rooms
    ensures room in s.rooms ==> Step(ttl, s, a).rooms[room].owner == s.rooms[room].owner
  {
    if !a.UpdateRoom? {
      StepKeepsRooms(ttl, s, a);
    }
  }

  lemma {:induction false} OwnersLast(ttl: int, st: seq<State>, acts: seq<Action>, m: nat, n: nat, row: Row)
    requires IsRun(ttl, st, acts) && m <= n < |st|
    ensures OwnerOf(st[m].rooms, row) == OwnerOf(st[n].rooms, row)
    decreases n - m
  {
    if m < n {
      var p := n - 1;
      OwnersLast(ttl, st, acts, m, p, row);
      OwnersStay(ttl, st[p], acts[p], row.room);
    }
  }

  /** What a search has selected it selects ever after. */
  lemma SelectionGrows(ttl: int, st: seq<State>, acts: seq<Action>, m: nat, n: nat, scope: Scope, f: Filter, row: Row)
    requires IsRun(ttl, st, acts) && m <= n < |st| && row in Matching(st[m].rows, st[m].rooms, scope, f)
    ensures row in Matching(st[n].rows, st[n].rooms, scope, f)
  {
    WhereSelects(st[m].rows, Selects(st[m].rooms, scope, f));
    WhereSelects(st[n].rows, Selects(st[n].rooms, scope, f));
    RowsGrow(ttl, st, acts, m, n);
    OwnersLast(ttl, st, acts, m, n, row);
    var i :| 0 <= i < |st[m].rows| && st[m].rows[i] == row;
    assert st[n].rows[i] == row;
  }

  lemma AnswerGrows(ttl: int, st: seq<State>, acts: seq<Action>, m: nat, n: nat, scope: Scope, f: Filter,
                    a: seq<Row>, b: seq<Row>)
    requires IsRun(ttl, st, acts) && m <= n < |st|
    requires IsAnswer(a, Matching(st[m].rows, st[m].rooms, scope, f))
    requires IsAnswer(b, Matching(st[n].rows, st[n].rooms, scope, f))
    ensures AllIn(a, b)
  {
    forall i | 0 <= i < |a| ensures a[i] in b {
      assert a[i] in multiset(a);
      SelectionGrows(ttl, st, acts, m, n, scope, f, a[i]);
      assert a[i] in multiset(b);
    }
  }

  lemma EarlierStartsDistinct(ttl: int, st: seq<State>, acts: seq<Action>, m: nat, n: nat, scope: Scope, f: Filter)
    requires IsRun(ttl, st, acts) && m <= n < |st| && DistinctStarts(Matching(st[n].rows, st[n].rooms, scope, f))
    ensures DistinctStarts(Matching(st[m].rows, st[m].rooms, scope, f))
  {
    var before := Matching(st[m].rows, st[m].rooms, scope, f);
    InvHolds(ttl, st, acts, m);
    DisjointRowsDiffer(st[m].rows);
    WhereKeepsNoDuplicates(st[m].rows, Selects(st[m].rooms, scope, f));
    DistinctIdentify(Matching(st[n].rows, st[n].rooms, scope, f));
    forall i, j | 0 <= i < j < |before| ensures before[i].start != before[j].start {
      SelectionGrows(ttl, st, acts, m, n, scope, f, before[i]);
      SelectionGrows(ttl, st, acts, m, n, scope, f, before[j]);
    }
  }

  /** Pages fetched in different states of one execution, of a search whose starts stay distinct: of the
      rows that were there at the first fetch, going forward skips none, and it repeats one if and only
      if a booking the search selects has come in ahead of the offset. */
  lemma PagingAcrossStates(ttl: int, st: seq<State>, acts: seq<Action>, m: nat, n: nat, scope: Scope, f: Filter,
                           a: seq<Row>, b: seq<Row>, page: nat)
    requires IsRun(ttl, st, acts) && m <= n < |st|
    requires IsAnswer(a, Matching(st[m].rows, st[m].rooms, scope, f)) && page * PageSize(f) <= |a|
    requires IsAnswer(b, Matching(st[n].rows, st[n].rooms, scope, f))
    requires DistinctStarts(Matching(st[n].rows, st[n].rooms, scope, f))
    ensures |a| <= |b| && 0 <= page * PageSize(f)
    ensures forall i :: page * PageSize(f) <= i < |a| ==> a[i] !in b[..page * PageSize(f)]
    ensures Repeats(a, b, page * PageSize(f)) <==> NewAhead(a, b, page * PageSize(f))
  {
    EarlierStartsDistinct(ttl, st, acts, m, n, scope, f);
    StrictlySorted(a, Matching(st[m].rows, st[m].rooms, scope, f));
    StrictlySorted(b, Matching(st[n].rows, st[n].rooms, scope, f));
    AnswerGrows(ttl, st, acts, m, n, scope, f, a, b);
    PagesAreAPrefix(a, PageSize(f), page);
    ForwardPages(a, b, page * PageSize(f));
  }

  lemma ForwardPages(a: seq<Row>, b: seq<Row>, off: nat)
    requires StrictlyDesc(a) && StrictlyDesc(b) && AllIn(a, b) && off <= |a|
    ensures |a| <= |b|
    ensures forall i :: off <= i < |a| ==> a[i] !in b[..off]
    ensures Repeats(a, b, off) <==> NewAhead(a, b, off)
  {
    if |a| > 0 {
      var j := PlaceGrows(a, b, |a| - 1);
    }
    forall i | off <= i < |a| ensures a[i] !in b[..off] {
      NothingSkipped(a, b, off, i);
    }
    RepeatsExactly(a, b, off);
  }

  // ----- Scopes -----

  /** An ADMIN search for one user is that user's own search, whatever user filter the latter carries. */
  lemma AdminForUserIsUser(table: seq<Row>, rooms: map<Uuid, Room>, f: Filter, u: Uuid)
    ensures Matching(table, rooms, ADMIN, f.(userId := Some(u))) == Matching(table, rooms, USER(u), f)
  {
    WhereAgrees(table, Selects(rooms, ADMIN, f.(userId := Some(u))), Selects(rooms, USER(u), f));
  }

  /** The results of the HOST searches of these owners, taken together. */
  function HostResults(table: seq<Row>, rooms: map<Uuid, Room>, f: Filter, owners: seq<Uuid>): multiset<Row> {
    if owners == [] then multiset{}
    else HostResults(table, rooms, f, owners[..|owners| - 1])
         + multiset(Matching(table, rooms, HOST(owners[|owners| - 1]), f))
  }

  /** The rows of rooms without an owner. */
  function Ownerless(table: seq<Row>, rooms: map<Uuid, Room>, f: Filter): seq<Row> {
    Where(table, IsOwnerless(rooms, f))
  }

  function IsOwnerless(rooms: map<Uuid, Room>, f: Filter): Row -> bool {
    (row: Row) => PassesCommon(f, row) && !(row.room in rooms && rooms[row.room].owner.Some?)
  }

  function OwnedBy(rooms: map<Uuid, Room>, f: Filter, owners: seq<Uuid>): Row -> bool {
    (row: Row) => PassesCommon(f, row) && OwnerOf(rooms, row).Some? && OwnerOf(rooms, row).value in owners
  }

  /** A disjoint split of a predicate splits the selected rows. */
  lemma {:induction false} WhereSplits(table: seq<Row>, p: Row -> bool, q: Row -> bool, r: Row -> bool)
    requires forall row :: row in table ==> p(row) == (q(row) || r(row)) && !(q(row) && r(row))
    ensures multiset(Where(table, p)) == multiset(Where(table, q)) + multiset(Where(table, r))
  {
    if table != [] {
      WhereSplits(table[..|table| - 1], p, q, r);
      assert table[|table| - 1] in table;
    }
  }

  lemma {:induction false} HostResultsAreOwned(table: seq<Row>, rooms: map<Uuid, Room>, f: Filter, owners: seq<Uuid>)
    requires forall i, j :: 0 <= i < j < |owners| ==> owners[i] != owners[j]
    ensures HostResults(table, rooms, f, owners) == multiset(Where(table, OwnedBy(rooms, f, owners)))
  {
    if owners == [] {
      NoneSelected(table, OwnedBy(rooms, f, owners));
    } else {
      var rest, o := owners[..|owners| - 1], owners[|owners| - 1];
      HostResultsAreOwned(table, rooms, f, rest);
      forall row
        ensures OwnedBy(rooms, f, owners)(row) == (OwnedBy(rooms, f, rest)(row) || Selects(rooms, HOST(o), f)(row))
        ensures !(OwnedBy(rooms, f, rest)(row) && Selects(rooms, HOST(o), f)(row))
      {
        OneMoreOwner(rooms, f, owners, row);
      }
      WhereSplits(table, OwnedBy(rooms, f, owners), OwnedBy(rooms, f, rest), Selects(rooms, HOST(o), f));
    }
  }

  lemma {:induction false} NoneSelected(table: seq<Row>, p: Row -> bool)
    requires forall row :: !p(row)
    ensures Where(table, p) == []
  {
    if table != [] {
      NoneSelected(table[..|table| - 1], p);
    }
  }

  lemma OneMoreOwner(rooms: map<Uuid, Room>, f: Filter, owners: seq<Uuid>, row: Row)
    requires owners != [] && forall i, j :: 0 <= i < j < |owners| ==> owners[i] != owners[j]
    ensures var (rest, o) := (owners[..|owners| - 1], owners[|owners| - 1]);
            && OwnedBy(rooms, f, owners)(row) == (OwnedBy(rooms, f, rest)(row) || Selects(rooms, HOST(o), f)(row))
            && !(OwnedBy(rooms, f, rest)(row) && Selects(rooms, HOST(o), f)(row))
  {
    var rest, o := owners[..|owners| - 1], owners[|owners| - 1];
    assert owners == rest + [o] && o !in rest;
  }

  /** Without a user filter, the HOST results of all owners and the rows of ownerless rooms are the
      ADMIN result, each row once. */
  lemma HostsPartitionAdmin(table: seq<Row>, rooms: map<Uuid, Room>, f: Filter, owners: seq<Uuid>)
    requires f.userId.None?
    requires forall i, j :: 0 <= i < j < |owners| ==> owners[i] != owners[j]
    requires forall row :: row in table && row.room in rooms && rooms[row.room].owner.Some?
                           ==> rooms[row.room].owner.value in owners
    ensures multiset(Matching(table, rooms, ADMIN, f))
            == HostResults(table, rooms, f, owners) + multiset(Ownerless(table, rooms, f))
  {
    HostResultsAreOwned(table, rooms, f, owners);
    WhereSplits(table, Selects(rooms, ADMIN, f), OwnedBy(rooms, f, owners), IsOwnerless(rooms, f));
  }
}
