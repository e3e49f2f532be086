/** The daily schedule of a room: the query over one snapshot of the table and the key store. */
module Schedule {
  import opened Slots
  import opened Calendar
  import opened IsoText
  import opened Text
  import opened Ids
  import opened Keys
  import opened Protocol

  datatype DayStatus = FREE | HELD | BOOKED

  /** A day of the answer; its `date` is the print of the day. */
  datatype DayEntry = DayEntry(day: int, status: DayStatus)

  function DateOf(entry: DayEntry): string
    requires Printable(entry.day)
  {
    IsoDate(entry.day)
  }

  /** What JSON.parse makes of a stored value: nothing, or an object with these two fields. */
  datatype Json = NotJson | Interval(startAt: string, endAt: string)

  /** One snapshot: the bookings table, the keys in scan order (a scan may repeat a key), and the
      values of the keys that still exist when they are fetched. */
  datatype Snapshot = Snapshot(table: seq<Row>, keys: seq<string>, values: map<string, Json>)

  type DateReader = string -> Option<int>

  type KeyDecoder = (string, int) -> Option<Range>

  predicate Touches(r: Range, from: int, to: int) { r.start < to && r.end > from }

  predicate TouchesDay(r: Range, day: int) { Touches(r, day * DAY, (day + 1) * DAY) }

  /** A range marks exactly the days from that of its first to that of its last instant. */
  lemma MarkedDaysAreContiguous(r: Range, day: int)
    ensures TouchesDay(r, day) <==> r.start / 86_400_000 <= day <= (r.end - 1) / 86_400_000
  {
  }

  lemma DayInsideWindow(r: Range, day: int, first: int, n: int)
    requires first <= day < first + n && TouchesDay(r, day)
    ensures Touches(r, first * DAY, (first + n) * DAY)
  {
  }

  // ----- The simple specification, day by day -----

  function RangeOf(row: Row): Range { Range(row.start, row.end) }

  ghost predicate BookedOn(table: seq<Row>, room: Uuid, day: int) {
    exists i :: 0 <= i < |table| && table[i].room == room && TouchesDay(RangeOf(table[i]), day)
  }

  function LockRange(key: string, room: RoomText, slotMin: int, decode: KeyDecoder): Option<Range> {
    if StartsWith(key, LockPrefix(room)) then decode(key, slotMin) else None
  }

  function HoldRange(key: string, values: map<string, Json>, room: RoomText, date: DateReader): Option<Range> {
    if StartsWith(key, HoldPrefix(room)) && key in values && values[key].Interval? then
      match (date(values[key].startAt), date(values[key].endAt))
      case (Some(s), Some(e)) => Some(Range(s, e))
      case _ => None
    else None
  }

  /** Some key of the room reads as a range that touches the day. */
  ghost predicate HeldOn(snap: Snapshot, room: RoomText, slotMin: int, date: DateReader, decode: KeyDecoder, day: int) {
    exists key :: key in snap.keys &&
                  (|| MarksDay(HoldRange(key, snap.values, room, date), day)
                   || MarksDay(LockRange(key, room, slotMin, decode), day))
  }

  predicate MarksDay(r: Option<Range>, day: int) { r.Some? && TouchesDay(r.value, day) }

  ghost function StatusOn(snap: Snapshot, room: RoomText, slotMin: int, date: DateReader, decode: KeyDecoder,
                          day: int): DayStatus {
    if BookedOn(snap.table, room.id, day) then BOOKED
    else if HeldOn(snap, room, slotMin, date, decode, day) then HELD
    else FREE
  }

  // The same in plain terms: the instants of a range fall on its days, a lock key of the room is read by the
  // decoder, and a hold key of the room has two texts that are read as dates.

  predicate FallsOn(start: int, end: int, day: int) { start / 86_400_000 <= day <= (end - 1) / 86_400_000 }

  ghost predicate SomeRowOn(table: seq<Row>, room: Uuid, day: int) {
    exists i :: 0 <= i < |table| && table[i].room == room && FallsOn(table[i].start, table[i].end, day)
  }

  ghost predicate LockKeyOn(key: string, room: RoomText, slotMin: int, decode: KeyDecoder, day: int) {
    && StartsWith(key, "lock:room:" + room.text + ":")
    && exists r :: decode(key, slotMin) == Some(r) && FallsOn(r.start, r.end, day)
  }

  ghost predicate HoldKeyOn(key: string, values: map<string, Json>, room: RoomText, date: DateReader, day: int) {
    && StartsWith(key, "hold:room:" + room.text + ":") && key in values
    && exists a, b, s, e :: values[key] == Interval(a, b) && date(a) == Some(s) && date(b) == Some(e)
                            && FallsOn(s, e, day)
  }

  lemma LockKeyMarks(key: string, room: RoomText, slotMin: int, decode: KeyDecoder, day: int)
    ensures MarksDay(LockRange(key, room, slotMin, decode), day) <==> LockKeyOn(key, room, slotMin, decode, day)
  {
    if decode(key, slotMin).Some? {
      MarkedDaysAreContiguous(decode(key, slotMin).value, day);
    }
  }

  lemma HoldKeyMarks(key: string, values: map<string, Json>, room: RoomText, date: DateReader, day: int)
    ensures MarksDay(HoldRange(key, values, room, date), day) <==> HoldKeyOn(key, values, room, date, day)
  {
    if key in values && values[key].Interval? {
      var Interval(a, b) := values[key];
      if date(a).Some? && date(b).Some? {
        MarkedDaysAreContiguous(Range(date(a).value, date(b).value), day);
      }
    }
  }

  /** Booked if a row of the room falls on the day; else held if a lock key or a hold key of the room does;
      else free. */
  lemma StatusMeans(snap: Snapshot, room: RoomText, slotMin: int, date: DateReader, decode: KeyDecoder, day: int)
    ensures var status := StatusOn(snap, room, slotMin, date, decode, day);
            && (status == BOOKED <==> SomeRowOn(snap.table, room.id, day))
            && (status == HELD <==>
                && !SomeRowOn(snap.table, room.id, day)
                && exists key :: key in snap.keys && (|| LockKeyOn(key, room, slotMin, decode, day)
                                                      || HoldKeyOn(key, snap.values, room, date, day)))
  {
    forall i | 0 <= i < |snap.table|
      ensures TouchesDay(RangeOf(snap.table[i]), day) <==> FallsOn(snap.table[i].start, snap.table[i].end, day)
    {
      MarkedDaysAreContiguous(RangeOf(snap.table[i]), day);
    }
    forall key
      ensures MarksDay(LockRange(key, room, slotMin, decode), day) <==> LockKeyOn(key, room, slotMin, decode, day)
      ensures MarksDay(HoldRange(key, snap.values, room, date), day)
              <==> HoldKeyOn(key, snap.values, room, date, day)
    {
      LockKeyMarks(key, room, slotMin, decode, day);
      HoldKeyMarks(key, snap.values, room, date, day);
    }
  }

  /** The entries of `n` days from day `first` on; a negative count gives none. */
  function Entries(status: int -> DayStatus, first: int, n: int): (days: seq<DayEntry>)
    ensures |days| == (if n < 0 then 0 else n)
    ensures forall i :: 0 <= i < n ==> days[i] == DayEntry(first + i, status(first + i))
  {
    if n <= 0 then [] else Entries(status, first, n - 1) + [DayEntry(first + n - 1, status(first + n - 1))]
  }

  ghost function Statuses(snap: Snapshot, room: RoomText, slotMin: int, date: DateReader, decode: KeyDecoder)
    : int -> DayStatus
  {
    (day: int) => StatusOn(snap, room, slotMin, date, decode, day)
  }

  ghost function DaysFrom(snap: Snapshot, room: RoomText, slotMin: int, date: DateReader, decode: KeyDecoder,
                          first: int, n: int)
    : (days: seq<DayEntry>)
    ensures |days| == (if n < 0 then 0 else n)
    ensures forall i :: 0 <= i < n
                        ==> days[i] == DayEntry(first + i, StatusOn(snap, room, slotMin, date, decode, first + i))
  {
    Entries(Statuses(snap, room, slotMin, date, decode), first, n)
  }

  /** The days of a + b are the days of a followed by the days of b, started a days later. */
  lemma DaysCompose(status: int -> DayStatus, first: int, a: nat, b: nat)
    ensures Entries(status, first, a + b) == Entries(status, first, a) + Entries(status, first + a, b)
  {
    var all, later := Entries(status, first, a + b), Entries(status, first + a, b);
    forall i | a <= i < a + b ensures all[i] == later[i - a] {
      var k := i - a;
      assert later[k] == DayEntry(first + a + k, status(first + a + k));
    }
  }

  /** The printed dates of an answer strictly increase, and create reads each back as the start of
      its day. */
  lemma DatesIncreaseAndReadBack(snap: Snapshot, room: RoomText, slotMin: int, date: DateReader, decode: KeyDecoder,
                                 first: int, days: seq<DayEntry>, i: nat, j: nat)
    requires i < j < |days| && days == DaysFrom(snap, room, slotMin, date, decode, first, |days|)
    ensures days[i].day == first + i
    ensures Printable(days[i].day) && Printable(days[j].day)
            ==> TextBefore(DateOf(days[i]), DateOf(days[j])) && ParseStart(DateOf(days[i])) == Some(days[i].day * DAY)
  {
    assert days[i].day == first + i && days[j].day == first + j;
    EntryDates(days[i], days[j]);
  }

  lemma EntryDates(x: DayEntry, y: DayEntry)
    requires x.day < y.day
    ensures Printable(x.day) && Printable(y.day)
            ==> TextBefore(DateOf(x), DateOf(y)) && ParseStart(DateOf(x)) == Some(x.day * DAY)
  {
    if Printable(x.day) && Printable(y.day) {
      PrintedDatesIncrease(x.day, y.day);
      PrintedDateStartsItsDay(x.day);
    }
  }

  // ----- The handler -----

  /** The query on the table: the room's bookings that touch the window. */
  function BookingsInWindow(table: seq<Row>, room: Uuid, from: int, to: int): (db: seq<Range>)
    ensures forall r :: r in db <==>
                          Touches(r, from, to)
                          && exists i :: 0 <= i < |table| && table[i].room == room && RangeOf(table[i]) == r
  {
    if table == [] then []
    else
      var row := table[|table| - 1];
      var rest := BookingsInWindow(table[..|table| - 1], room, from, to);
      if row.room == room && Touches(RangeOf(row), from, to) then rest + [RangeOf(row)] else rest
  }

  /** The first scan loop. */
  method ScanHolds(snap: Snapshot, room: RoomText, date: DateReader, from: int, to: int) returns (held: seq<Range>)
    ensures forall r :: r in held <==>
                          Touches(r, from, to)
                          && exists key :: key in snap.keys && HoldRange(key, snap.values, room, date) == Some(r)
  {
    held := [];
    for i := 0 to |snap.keys|
      invariant forall r :: r in held <==>
                              Touches(r, from, to)
                              && exists key :: key in snap.keys[..i]
                                               && HoldRange(key, snap.values, room, date) == Some(r)
    {
      var key := snap.keys[i];
      ghost var before := held;
      assert snap.keys[..i + 1] == snap.keys[..i] + [key];
      if StartsWith(key, HoldPrefix(room)) && key in snap.values {
        match snap.values[key]
        case NotJson =>
        case Interval(startAt, endAt) =>
          var s, e := date(startAt), date(endAt);
          if s.Some? && e.Some? && s.value < to && e.value > from {
            held := held + [Range(s.value, e.value)];
          }
      }
      assert held == match HoldRange(key, snap.values, room, date)
                     case Some(r) => if Touches(r, from, to) then before + [r] else before
                     case None => before;
    }
    assert snap.keys[..|snap.keys|] == snap.keys;
  }

  /** The second scan loop; `decode` is the reading of a key's tail. */
  method ScanLocks(snap: Snapshot, room: RoomText, slotMin: int, decode: KeyDecoder, from: int, to: int)
    returns (held: seq<Range>)
    ensures forall r :: r in held <==>
                          Touches(r, from, to)
                          && exists key :: key in snap.keys && LockRange(key, room, slotMin, decode) == Some(r)
  {
    held := [];
    for i := 0 to |snap.keys|
      invariant forall r :: r in held <==>
                              Touches(r, from, to)
                              && exists key :: key in snap.keys[..i] && LockRange(key, room, slotMin, decode) == Some(r)
    {
      var key := snap.keys[i];
      ghost var before := held;
      assert snap.keys[..i + 1] == snap.keys[..i] + [key];
      if StartsWith(key, LockPrefix(room)) {
        match decode(key, slotMin)
        case None =>
        case Some(r) =>
          if r.start < to && r.end > from {
            held := held + [r];
          }
      }
      assert held == match LockRange(key, room, slotMin, decode)
                     case Some(r) => if Touches(r, from, to) then before + [r] else before
                     case None => before;
    }
    assert snap.keys[..|snap.keys|] == snap.keys;
  }

  /** `ranges.some(r => r.start < to && r.end > from)` */
  method AnyTouches(ranges: seq<Range>, from: int, to: int) returns (found: bool)
    ensures found <==> exists r :: r in ranges && Touches(r, from, to)
  {
    found := false;
    for i := 0 to |ranges|
      invariant found <==> exists r :: r in ranges[..i] && Touches(r, from, to)
    {
      assert ranges[..i + 1] == ranges[..i] + [ranges[i]];
      if Touches(ranges[i], from, to) {
        found := true;
      }
    }
    assert ranges[..|ranges|] == ranges;
  }

  /** Filtering the bookings to the window first loses nothing on any of its days. */
  lemma WindowKeepsBookings(table: seq<Row>, room: Uuid, first: int, n: int, day: int)
    requires first <= day < first + n
    ensures (exists r :: r in BookingsInWindow(table, room, first * DAY, (first + n) * DAY) && TouchesDay(r, day))
            <==> BookedOn(table, room, day)
  {
    var db := BookingsInWindow(table, room, first * DAY, (first + n) * DAY);
    if BookedOn(table, room, day) {
      var i :| 0 <= i < |table| && table[i].room == room && TouchesDay(RangeOf(table[i]), day);
      DayInsideWindow(RangeOf(table[i]), day, first, n);
      assert RangeOf(table[i]) in db;
    }
  }

  /** These are the ranges of the snapshot's keys that touch the window. */
  ghost predicate CollectsHeld(snap: Snapshot, room: RoomText, slotMin: int, date: DateReader, decode: KeyDecoder,
                               from: int, to: int, held: seq<Range>) {
    forall r :: r in held <==>
                  Touches(r, from, to)
                  && exists key :: key in snap.keys && (HoldRange(key, snap.values, room, date) == Some(r)
                                                        || LockRange(key, room, slotMin, decode) == Some(r))
  }

  /** Nor does filtering the held ranges. */
  lemma WindowKeepsHeld(snap: Snapshot, room: RoomText, slotMin: int, date: DateReader, decode: KeyDecoder,
                        first: int, n: int, day: int, held: seq<Range>)
    requires first <= day < first + n
    requires CollectsHeld(snap, room, slotMin, date, decode, first * DAY, (first + n) * DAY, held)
    ensures (exists r :: r in held && TouchesDay(r, day)) <==> HeldOn(snap, room, slotMin, date, decode, day)
  {
    if HeldOn(snap, room, slotMin, date, decode, day) {
      var key :| key in snap.keys && (MarksDay(HoldRange(key, snap.values, room, date), day)
                                      || MarksDay(LockRange(key, room, slotMin, decode), day));
      var r := if MarksDay(HoldRange(key, snap.values, room, date), day)
               then HoldRange(key, snap.values, room, date).value
               else LockRange(key, room, slotMin, decode).value;
      DayInsideWindow(r, day, first, n);
      assert r in held;
    }
  }

  /** `new Date(from)` moved by `setUTCDate(getUTCDate() + days)` */
  method MovedByDays(from: int, days: int) returns (t: int)
    ensures t == from + days * DAY
  {
    t := SetUtcDate(from, UtcDate(from) + days);
    SetUtcDateAddsDays(from, days);
  }

  ghost function StatusFrom(db: seq<Range>, held: seq<Range>, day: int): DayStatus {
    if exists r :: r in db && TouchesDay(r, day) then BOOKED
    else if exists r :: r in held && TouchesDay(r, day) then HELD
    else FREE
  }

  /** One turn of the day loop. */
  method DayAt(db: seq<Range>, held: seq<Range>, from: int, i: int, ghost first: int) returns (entry: DayEntry)
    requires from == first * DAY
    ensures entry == DayEntry(first + i, StatusFrom(db, held, first + i))
  {
    var dayStart := MovedByDays(from, i);
    var dayEnd := MovedByDays(dayStart, 1);
    DayStartsAt(from, dayStart, dayEnd, first, i);
    var isBooked := AnyTouches(db, dayStart, dayEnd);
    var isHeld := AnyTouches(held, dayStart, dayEnd);
    var status := if isBooked then BOOKED else if isHeld then HELD else FREE;
    entry := DayEntry(dayStart / DAY, status);
  }

  /** The scans and the query, filtered to the window, decide each of its days as the whole snapshot does. */
  lemma WindowDecidesDay(snap: Snapshot, room: RoomText, slotMin: int, date: DateReader, decode: KeyDecoder,
                         first: int, n: int, day: int, held: seq<Range>)
    requires first <= day < first + n
    requires CollectsHeld(snap, room, slotMin, date, decode, first * DAY, (first + n) * DAY, held)
    ensures StatusFrom(BookingsInWindow(snap.table, room.id, first * DAY, (first + n) * DAY), held, day)
            == StatusOn(snap, room, slotMin, date, decode, day)
  {
    WindowKeepsBookings(snap.table, room.id, first, n, day);
    WindowKeepsHeld(snap, room, slotMin, date, decode, first, n, day, held);
  }

  /** The handler: window, scans, day loop. */
  method DailySchedule(snap: Snapshot, rooms: map<Uuid, Room>, room: RoomText, fromDate: int, n: int,
                       date: DateReader, decode: KeyDecoder)
    returns (days: seq<DayEntry>)
    ensures room.id !in rooms ==> days == []
    ensures room.id in rooms ==>
              days == DaysFrom(snap, room, rooms[room.id].slotMin, date, decode, StartDay(fromDate / DAY), n)
  {
    if room.id !in rooms {
      return [];
    }
    var from := StartOfDate(fromDate);
    days := DaysOfRoom(snap, room, rooms[room.id].slotMin, from, n, date, decode, StartDay(fromDate / DAY));
  }

  method DaysOfRoom(snap: Snapshot, room: RoomText, slotMin: int, from: int, n: int, date: DateReader,
                    decode: KeyDecoder, ghost first: int)
    returns (days: seq<DayEntry>)
    requires from == first * DAY
    ensures days == DaysFrom(snap, room, slotMin, date, decode, first, n)
  {
    var to := MovedByDays(from, n);
    var db := BookingsInWindow(snap.table, room.id, from, to);
    var holds := ScanHolds(snap, room, date, from, to);
    var locks := ScanLocks(snap, room, slotMin, decode, from, to);
    var held := holds + locks;
    WindowEnds(from, to, first, n);
    ScansTogether(snap, room, slotMin, date, decode, from, to, holds, locks);
    days := DayLoop(db, held, from, n, first);
    forall day | first <= day < first + n
      ensures StatusFrom(db, held, day) == StatusOn(snap, room, slotMin, date, decode, day)
    {
      WindowDecidesDay(snap, room, slotMin, date, decode, first, n, day, held);
    }
    SameStatusesSameDays(StatusesFrom(db, held), Statuses(snap, room, slotMin, date, decode), first, n);
  }

  lemma WindowEnds(from: int, to: int, first: int, n: int)
    requires from == first * DAY && to == from + n * DAY
    ensures to == (first + n) * DAY
  {
  }

  lemma ScansTogether(snap: Snapshot, room: RoomText, slotMin: int, date: DateReader, decode: KeyDecoder,
                      from: int, to: int, holds: seq<Range>, locks: seq<Range>)
    requires forall r :: r in holds <==>
                           Touches(r, from, to)
                           && exists key :: key in snap.keys && HoldRange(key, snap.values, room, date) == Some(r)
    requires forall r :: r in locks <==>
                           Touches(r, from, to)
                           && exists key :: key in snap.keys && LockRange(key, room, slotMin, decode) == Some(r)
    ensures CollectsHeld(snap, room, slotMin, date, decode, from, to, holds + locks)
  {
  }

  /** The day loop. */
  method DayLoop(db: seq<Range>, held: seq<Range>, from: int, n: int, ghost first: int) returns (days: seq<DayEntry>)
    requires from == first * DAY
    ensures days == Entries(StatusesFrom(db, held), first, n)
  {
    days := [];
    var i := 0;
    while i < n
      invariant 0 <= i && (i <= n || i == 0)
      invariant days == Entries(StatusesFrom(db, held), first, i)
    {
      var entry := DayAt(db, held, from, i, first);
      days := days + [entry];
      i := i + 1;
    }
  }

  ghost function StatusesFrom(db: seq<Range>, held: seq<Range>): int -> DayStatus {
    (day: int) => StatusFrom(db, held, day)
  }

  lemma {:induction false} SameStatusesSameDays(status: int -> DayStatus, other: int -> DayStatus, first: int, n: int)
    requires forall day :: first <= day < first + n ==> status(day) == other(day)
    ensures Entries(status, first, n) == Entries(other, first, n)
  {
    if n > 0 {
      SameStatusesSameDays(status, other, first, n - 1);
    }
  }

  lemma DayStartsAt(from: int, dayStart: int, dayEnd: int, first: int, i: int)
    requires from == first * DAY && dayStart == from + i * DAY && dayEnd == dayStart + 1 * DAY
    ensures dayStart == (first + i) * DAY && dayEnd == (first + i + 1) * DAY && dayStart / DAY == first + i
  {
  }

  /** The a + b days from `f` are the a days from `f` and then the b days from `g`. */
  ghost predicate Composes(snap: Snapshot, room: RoomText, slotMin: int, date: DateReader, decode: KeyDecoder,
                           f: int, g: int, a: nat, b: nat) {
    DaysFrom(snap, room, slotMin, date, decode, f, a + b)
    == DaysFrom(snap, room, slotMin, date, decode, f, a) + DaysFrom(snap, room, slotMin, date, decode, g, b)
  }

  /** On one snapshot, asking from `t` for a + b days is asking for a days and then, a days later, for b,
      if and only if nothing is asked the second time or both dates are read with the same shift: both
      outside the years 0 to 99, or both before 0000-03-01 or both after it in those years. */
  lemma ScheduleComposes(snap: Snapshot, room: RoomText, slotMin: int, date: DateReader, decode: KeyDecoder,
                         t: int, a: nat, b: nat, f: int, g: int)
    requires f == StartDay(t / DAY) && g == StartDay((t + a * DAY) / DAY)
    ensures Composes(snap, room, slotMin, date, decode, f, g, a, b) <==> b == 0 || Era(t / DAY) == Era(t / DAY + a)
  {
    StartsLater(t, a, f, g);
    StartsCompose(Statuses(snap, room, slotMin, date, decode), f, g, a, b);
  }

  lemma StartsLater(t: int, a: nat, f: int, g: int)
    requires f == StartDay(t / DAY) && g == StartDay((t + a * DAY) / DAY)
    ensures g == f + a <==> Era(t / DAY) == Era(t / DAY + a)
  {
    DaysLater(t, a);
    EraDecidesShift(t / DAY, t / DAY + a);
  }

  lemma StartsCompose(status: int -> DayStatus, f: int, g: int, a: nat, b: nat)
    ensures Entries(status, f, a + b) == Entries(status, f, a) + Entries(status, g, b) <==> b == 0 || g == f + a
  {
    DaysCompose(status, f, a, b);
    SameStartSameDays(status, f + a, g, b);
    SameRest(Entries(status, f, a + b), Entries(status, f, a), Entries(status, f + a, b), Entries(status, g, b));
  }

  lemma SameStartSameDays(status: int -> DayStatus, f: int, g: int, n: nat)
    ensures Entries(status, f, n) == Entries(status, g, n) <==> n == 0 || f == g
  {
    var days, others := Entries(status, f, n), Entries(status, g, n);
    if n > 0 {
      assert days[0].day == f && others[0].day == g;
    }
  }

  lemma SameRest(all: seq<DayEntry>, first: seq<DayEntry>, rest: seq<DayEntry>, other: seq<DayEntry>)
    requires all == first + rest
    ensures all == first + other <==> rest == other
  {
    assert (first + rest)[|first|..] == rest && (first + other)[|first|..] == other;
  }

  lemma DaysLater(t: int, a: int)
    ensures (t + a * DAY) / DAY == t / DAY + a
  {
  }
}
