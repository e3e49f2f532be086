/** How much of a window, and how many bookings, one room can take. */
module Packing {
  import opened Slots
  import opened Ids
  import opened Protocol
  import opened ProtocolInvariant
  import opened RunHistory

  function Max(a: int, b: int): int { if a < b then b else a }

  function Min(a: int, b: int): int { if a < b then a else b }

  /** The length of [s, e) inside [a, b). */
  function Overlap(s: int, e: int, a: int, b: int): int { Max(0, Min(e, b) - Max(s, a)) }

  /** The booked time of a room inside [a, b), row by row. */
  function BookedTime(rows: seq<Row>, room: Uuid, a: int, b: int): (t: int)
    ensures t >= 0
  {
    if rows == [] then 0
    else
      var r := rows[|rows| - 1];
      BookedTime(rows[..|rows| - 1], room, a, b) + if r.room == room then Overlap(r.start, r.end, a, b) else 0
  }

  predicate Books(r: Row, room: Uuid, t: int) { r.room == room && Covers(r, t) }

  function CoverCount(rows: seq<Row>, room: Uuid, t: int): (n: nat)
  {
    if rows == [] then 0
    else CoverCount(rows[..|rows| - 1], room, t) + if Books(rows[|rows| - 1], room, t) then 1 else 0
  }

  lemma {:induction false} CoveredAtMostOnce(rows: seq<Row>, room: Uuid, t: int)
    requires RowsDisjoint(rows)
    ensures CoverCount(rows, room, t) <= 1
    ensures CoverCount(rows, room, t) == 1 <==> exists i :: 0 <= i < |rows| && Books(rows[i], room, t)
  {
    if rows != [] {
      var rest, n := rows[..|rows| - 1], |rows| - 1;
      CoveredAtMostOnce(rest, room, t);
      forall i | 0 <= i < n ensures !(Books(rest[i], room, t) && Books(rows[n], room, t)) {
        assert rest[i] == rows[i];
      }
      if CoverCount(rest, room, t) == 1 {
        var i :| 0 <= i < n && Books(rest[i], room, t);
        assert Books(rows[i], room, t);
      }
    }
  }

  lemma {:induction false} OneMoreInstant(rows: seq<Row>, room: Uuid, a: int, b: int)
    requires a <= b && RowsDisjoint(rows)
    ensures BookedTime(rows, room, a, b + 1) == BookedTime(rows, room, a, b) + CoverCount(rows, room, b)
  {
    if rows != [] {
      OneMoreInstant(rows[..|rows| - 1], room, a, b);
    }
  }

  lemma {:induction false} NothingInEmptyWindow(rows: seq<Row>, room: Uuid, a: int)
    ensures BookedTime(rows, room, a, a) == 0
  {
    if rows != [] {
      NothingInEmptyWindow(rows[..|rows| - 1], room, a);
    }
  }

  /** Disjoint bookings cannot fill a window more than once. */
  lemma {:induction false} BookedTimeFits(rows: seq<Row>, room: Uuid, a: int, b: int)
    requires a <= b && RowsDisjoint(rows)
    ensures BookedTime(rows, room, a, b) <= b - a
    decreases b - a
  {
    if a == b {
      NothingInEmptyWindow(rows, room, a);
    } else {
      BookedTimeFits(rows, room, a, b - 1);
      OneMoreInstant(rows, room, a, b - 1);
      CoveredAtMostOnce(rows, room, b - 1);
    }
  }

  ghost predicate BookedAt(rows: seq<Row>, room: Uuid, t: int) {
    exists i :: 0 <= i < |rows| && Books(rows[i], room, t)
  }

  /** The instants of [a, b) at which the room is booked. */
  ghost function BookedInstants(rows: seq<Row>, room: Uuid, a: int, b: int): set<int> {
    set t | a <= t < b && BookedAt(rows, room, t)
  }

  /** Of disjoint bookings, the booked time counts each booked instant once. */
  lemma {:induction false} BookedTimeCounts(rows: seq<Row>, room: Uuid, a: int, b: int)
    requires a <= b && RowsDisjoint(rows)
    ensures BookedTime(rows, room, a, b) == |BookedInstants(rows, room, a, b)|
    decreases b - a
  {
    var t := b - 1;
    if a == b {
      NothingInEmptyWindow(rows, room, a);
    } else {
      BookedTimeCounts(rows, room, a, t);
      OneMoreInstant(rows, room, a, t);
      CoveredAtMostOnce(rows, room, t);
      assert BookedInstants(rows, room, a, b)
             == BookedInstants(rows, room, a, t) + if CoverCount(rows, room, t) == 1 then {t} else {};
    }
  }

  predicate Within(r: Row, room: Uuid, a: int, b: int) { r.room == room && a <= r.start && r.end <= b }

  /** The bookings of a room that lie wholly in [a, b). */
  function BookingsWithin(rows: seq<Row>, room: Uuid, a: int, b: int): nat {
    if rows == [] then 0
    else BookingsWithin(rows[..|rows| - 1], room, a, b) + if Within(rows[|rows| - 1], room, a, b) then 1 else 0
  }

  /** The places of those bookings. */
  ghost function PlacesWithin(rows: seq<Row>, room: Uuid, a: int, b: int): set<int> {
    set i | 0 <= i < |rows| && rows[i].room == room && a <= rows[i].start && rows[i].end <= b
  }

  lemma {:induction false} CountsPlaces(rows: seq<Row>, room: Uuid, a: int, b: int)
    ensures BookingsWithin(rows, room, a, b) == |PlacesWithin(rows, room, a, b)|
  {
    if rows != [] {
      var n := |rows| - 1;
      CountsPlaces(rows[..n], room, a, b);
      var before := PlacesWithin(rows[..n], room, a, b);
      assert forall i :: 0 <= i < n ==> rows[..n][i] == rows[i];
      assert PlacesWithin(rows, room, a, b) == before + if Within(rows[n], room, a, b) then {n} else {};
    }
  }

  /** Every booking of the room lasts at least `len`. */
  ghost predicate AtLeast(rows: seq<Row>, room: Uuid, len: int) {
    forall i :: 0 <= i < |rows| && rows[i].room == room ==> rows[i].end - rows[i].start >= len
  }

  lemma OneMoreProduct(n: int, len: int)
    ensures (n + 1) * len == n * len + len
  {
  }

  lemma BookingFillsItsLength(r: Row, room: Uuid, a: int, b: int, len: int)
    requires Within(r, room, a, b) && r.end - r.start >= len > 0
    ensures Overlap(r.start, r.end, a, b) >= len
  {
  }

  lemma {:induction false} CountedTime(rows: seq<Row>, room: Uuid, a: int, b: int, len: int)
    requires len > 0 && AtLeast(rows, room, len)
    ensures BookingsWithin(rows, room, a, b) * len <= BookedTime(rows, room, a, b)
  {
    if rows != [] {
      var rest, r := rows[..|rows| - 1], rows[|rows| - 1];
      CountedTime(rest, room, a, b, len);
      if Within(r, room, a, b) {
        BookingFillsItsLength(r, room, a, b, len);
        OneMoreProduct(BookingsWithin(rest, room, a, b), len);
      }
    }
  }

  lemma AtMostQuotient(k: int, len: int, w: int)
    requires len > 0 && k * len <= w
    ensures k <= w / len
  {
    if w / len < k {
      OneMoreProduct(w / len, len);
      ProductsKeepOrder(w / len + 1, k, len);
    }
  }

  /** The slot lengths with which the room takes requests are never below `m` minutes. */
  ghost predicate SlotsAtLeast(st: seq<State>, room: Uuid, m: int) {
    forall i :: 0 <= i < |st| && room in st[i].rooms && st[i].rooms[room].slotMin > 0 ==> st[i].rooms[room].slotMin >= m
  }

  lemma BookingsLastASlot(ttl: int, st: seq<State>, acts: seq<Action>, n: nat, room: Uuid, m: int)
    requires IsRun(ttl, st, acts) && n < |st| && SlotsAtLeast(st, room, m)
    ensures AtLeast(st[n].rows, room, m * MINUTE)
  {
    forall i | 0 <= i < |st[n].rows| && st[n].rows[i].room == room
      ensures st[n].rows[i].end - st[n].rows[i].start >= m * MINUTE
    {
      var rid, c, h, v, a, w, r, x := Provenance(ttl, st, acts, n, i);
      assert c.slotMin >= m;
    }
  }

  /** In every state of every execution, the booked time of a room inside any window is at most the
      window; and if the room never took requests for slots below `m` minutes, its bookings there are at
      most as many as such slots fit. */
  lemma PackingBound(ttl: int, st: seq<State>, acts: seq<Action>, n: nat, room: Uuid, a: int, b: int, m: int)
    requires IsRun(ttl, st, acts) && n < |st| && a <= b && m > 0
    ensures BookedTime(st[n].rows, room, a, b) == |BookedInstants(st[n].rows, room, a, b)| <= b - a
    ensures SlotsAtLeast(st, room, m) ==> |PlacesWithin(st[n].rows, room, a, b)| <= (b - a) / (m * MINUTE)
  {
    CountsPlaces(st[n].rows, room, a, b);
    InvHolds(ttl, st, acts, n);
    BookedTimeFits(st[n].rows, room, a, b);
    BookedTimeCounts(st[n].rows, room, a, b);
    if SlotsAtLeast(st, room, m) {
      BookingsLastASlot(ttl, st, acts, n, room, m);
      CountedTime(st[n].rows, room, a, b, m * MINUTE);
      AtMostQuotient(BookingsWithin(st[n].rows, room, a, b), m * MINUTE, b - a);
    }
  }
}
