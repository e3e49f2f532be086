/** The schedule evaluated on the states of an execution. */
module ScheduleRuns {
  import opened Slots
  import opened Calendar
  import opened IsoText
  import opened Text
  import opened Ids
  import opened Keys
  import opened Protocol
  import opened ProtocolInvariant
  import opened RunHistory
  import opened HoldGuarantee
  import opened Executions
  import opened SlotExactness
  import opened Schedule

  // ----- Reading a state -----

  /** A live lock under this spelling of its room covers part of the day, for the slot length `d`. */
  ghost predicate LockedOn(s: State, asked: RoomText, d: int, day: int) {
    exists k :: LockLive(s, k) && k.room == asked && TouchesDay(SlotRange(k.start, d), day)
  }

  /** What the schedule shows of a state when the room is asked for in this spelling. */
  ghost function ShownStatus(s: State, asked: RoomText, d: int, day: int): DayStatus {
    if BookedOn(s.rows, asked.id, day) then BOOKED
    else if LockedOn(s, asked, d, day) then HELD
    else FREE
  }

  /** A key of this state: of a live lock, or of a live hold. */
  ghost predicate LockKeyIn(s: State, key: string) {
    exists k :: LockLive(s, k) && Reads(k.room) && PrintableTime(k.start) && key == LockKeyText(k.room, k.start)
  }

  ghost predicate HoldKeyIn(s: State, key: string) {
    exists t :: HoldLive(s, t) && PrintableTime(t.start) && key == HoldKeyText(HoldToken(t.room, t.start, t.user))
  }

  /** The snapshot a query would take of this state, in any scan order and with any repetition. Every
      locked start prints with a four-digit year, and every locked room has a text that reads as its id. */
  ghost predicate SnapshotOf(s: State, snap: Snapshot) {
    && snap.table == s.rows
    && (forall k :: LockLive(s, k) ==>
                      Reads(k.room) && PrintableTime(k.start) && LockKeyText(k.room, k.start) in snap.keys)
    && (forall t :: HoldLive(s, t) ==>
                      PrintableTime(t.start) && HoldKeyText(HoldToken(t.room, t.start, t.user)) in snap.keys)
    && (forall key :: key in snap.keys ==> LockKeyIn(s, key) || HoldKeyIn(s, key))
  }

  lemma HoldsAreInvisible(s: State, snap: Snapshot, asked: RoomText, date: DateReader, key: string)
    requires SnapshotOf(s, snap) && key in snap.keys
    ensures HoldRange(key, snap.values, asked, date) == None
  {
    if LockKeyIn(s, key) {
      var k :| LockLive(s, k) && Reads(k.room) && PrintableTime(k.start) && key == LockKeyText(k.room, k.start);
      HoldScanSkipsLocks(asked, k.room, k.start);
    } else {
      var t :| HoldLive(s, t) && PrintableTime(t.start) && key == HoldKeyText(HoldToken(t.room, t.start, t.user));
      HoldScanFindsNothing(asked, HoldToken(t.room, t.start, t.user));
    }
  }

  function Rejoined(): KeyDecoder { (key, slotMin) => DecodeRejoined(key, slotMin) }

  function AsWritten(date: DateReader): KeyDecoder { (key, slotMin) => DecodeAsWritten(date, key, slotMin) }

  lemma LockKeyReads(asked: RoomText, k: LockKey, d: int)
    requires PrintableTime(k.start) && Reads(asked) && Reads(k.room)
    ensures LockRange(LockKeyText(k.room, k.start), asked, d, Rejoined())
            == if k.room == asked then Some(SlotRange(k.start, d)) else None
  {
    LockScanIsExact(asked, k.room, k.start);
    LockKeyRoundTrip(k.room, k.start, d);
  }

  /** With the tail rejoined, the keys of a state show exactly its live locks under the spelling asked
      for, and no hold. */
  lemma ScheduleReadsState(s: State, snap: Snapshot, asked: RoomText, d: int, date: DateReader, day: int)
    requires SnapshotOf(s, snap) && Reads(asked)
    ensures StatusOn(snap, asked, d, date, Rejoined(), day) == ShownStatus(s, asked, d, day)
  {
    if LockedOn(s, asked, d, day) {
      var k :| LockLive(s, k) && k.room == asked && TouchesDay(SlotRange(k.start, d), day);
      LockKeyReads(asked, k, d);
      assert MarksDay(LockRange(LockKeyText(k.room, k.start), asked, d, Rejoined()), day);
    }
    if HeldOn(snap, asked, d, date, Rejoined(), day) {
      HeldComesFromLock(s, snap, asked, d, date, day);
    }
  }

  lemma HoldKeyIsNotScanned(s: State, asked: RoomText, key: string)
    requires HoldKeyIn(s, key)
    ensures !StartsWith(key, LockPrefix(asked))
  {
    var t :| HoldLive(s, t) && PrintableTime(t.start) && key == HoldKeyText(HoldToken(t.room, t.start, t.user));
    assert key[0] == 'h' && LockPrefix(asked)[0] == 'l';
    DifferentAt(key, LockPrefix(asked), 0);
  }

  /** A key that the scan for the locks of a room meets is that of a live lock under that spelling. */
  lemma ScannedKey(s: State, snap: Snapshot, asked: RoomText, key: string) returns (k: LockKey)
    requires SnapshotOf(s, snap) && Reads(asked) && key in snap.keys && StartsWith(key, LockPrefix(asked))
    ensures LockLive(s, k) && k.room == asked && PrintableTime(k.start) && key == LockKeyText(asked, k.start)
  {
    if HoldKeyIn(s, key) {
      HoldKeyIsNotScanned(s, asked, key);
    }
    k :| LockLive(s, k) && Reads(k.room) && PrintableTime(k.start) && key == LockKeyText(k.room, k.start);
    LockScanIsExact(asked, k.room, k.start);
  }

  lemma HeldComesFromLock(s: State, snap: Snapshot, asked: RoomText, d: int, date: DateReader, day: int)
    requires SnapshotOf(s, snap) && Reads(asked) && HeldOn(snap, asked, d, date, Rejoined(), day)
    ensures LockedOn(s, asked, d, day)
  {
    var key :| key in snap.keys && (MarksDay(HoldRange(key, snap.values, asked, date), day)
                                    || MarksDay(LockRange(key, asked, d, Rejoined()), day));
    HoldsAreInvisible(s, snap, asked, date, key);
    var k := ScannedKey(s, snap, asked, key);
    LockKeyReads(asked, k, d);
  }

  // ----- The room as it is -----

  /** The status of the room itself, whatever the spelling of its locks. */
  ghost function RoomStatus(s: State, room: Uuid, d: int, day: int): DayStatus {
    if BookedOn(s.rows, room, day) then BOOKED
    else if RoomLockedOn(s, room, d, day) then HELD
    else FREE
  }

  ghost predicate RoomLockedOn(s: State, room: Uuid, d: int, day: int) {
    exists k :: LockLive(s, k) && k.room.id == room && TouchesDay(SlotRange(k.start, d), day)
  }

  /** In every state of every execution with these spellings, the schedule asked for in this one shows
      the room as it is. */
  ghost predicate ShowsRoom(ttl: int, spellings: set<RoomText>, asked: RoomText, d: int) {
    forall st: seq<State>, acts: seq<Action>, n: nat, day ::
      IsRun(ttl, st, acts) && Spelled(acts, asked.id, spellings) && n < |st|
      ==> ShownStatus(st[n], asked, d, day) == RoomStatus(st[n], asked.id, d, day)
  }

  lemma LockIsSpelled(ttl: int, st: seq<State>, acts: seq<Action>, spellings: set<RoomText>, n: nat, k: LockKey)
    requires IsRun(ttl, st, acts) && Spelled(acts, k.room.id, spellings) && n < |st| && k in st[n].locks
    ensures k.room in spellings
  {
    InvHolds(ttl, st, acts, n);
    assert LockOk(ttl, st[n].creates, k, st[n].locks[k]);
    ClaimIsSpelled(ttl, st, acts, spellings, n, st[n].locks[k].val);
  }

  lemma OneSpellingShowsRoom(ttl: int, st: seq<State>, acts: seq<Action>, asked: RoomText, n: nat, d: int, day: int)
    requires IsRun(ttl, st, acts) && Spelled(acts, asked.id, {asked}) && n < |st|
    ensures ShownStatus(st[n], asked, d, day) == RoomStatus(st[n], asked.id, d, day)
  {
    if RoomLockedOn(st[n], asked.id, d, day) {
      var k :| LockLive(st[n], k) && k.room.id == asked.id && TouchesDay(SlotRange(k.start, d), day);
      LockIsSpelled(ttl, st, acts, {asked}, n, k);
    }
  }

  /** A lock under another spelling is not shown. */
  lemma OtherSpellingIsHidden(ttl: int, spellings: set<RoomText>, asked: RoomText, d: int, r: RoomText)
    requires ttl > 0 && d > 0 && r in spellings && r.id == asked.id && r != asked
    ensures !ShowsRoom(ttl, spellings, asked, d)
  {
    MidnightsAreAligned(d);
    var st, acts, p := HeldAt(ttl, r, d, 0);
    FewerSpellings(acts, asked.id, {r}, spellings);
    assert LockLive(st[3], LockKey(r, 0)) && TouchesDay(SlotRange(0, d), 0);
    assert RoomStatus(st[3], asked.id, d, 0) == HELD && ShownStatus(st[3], asked, d, 0) == FREE;
  }

  lemma MidnightsAreAligned(d: int)
    requires d > 0
    ensures Aligned(0, d) && Aligned(HOUR, d) && Aligned(DAY, d) && Aligned(DAY + HOUR, d)
  {
    MinuteIsAligned(0, d, 0);
    MinuteIsAligned(60, d, 0);
    MinuteIsAligned(1440, d, 0);
    MinuteIsAligned(1500, d, 0);
  }

  /** An execution in which one slot of a room is held in state 3, and nothing else is in the stores. */
  lemma HeldAt(ttl: int, room: RoomText, d: int, start: nat) returns (st: seq<State>, acts: seq<Action>, p: Pair)
    requires ttl > 0 && d > 0 && Aligned(start, d) && Aligned(start + HOUR, d)
    ensures IsRun(ttl, st, acts) && |st| == 12 && FixedSlot(st, room.id, d) && Spelled(acts, room.id, {room})
    ensures st[3] == OneHeld(ttl, p) && p.c == Claim(1, room, start, d)
  {
    var c, e := Claim(1, room, start, d), Claim(2, room, start + HOUR, d);
    BothAsk(room.id, d, c, e);
    p := SameRooms(OneRoom(room.id, d), c, e);
    st, acts := TwoBookingsExecution(ttl, p);
  }

  lemma OtherSpelling(spellings: set<RoomText>, asked: RoomText) returns (r: RoomText)
    requires spellings != {} && spellings != {asked}
    ensures r in spellings && r != asked
  {
    r :| r in spellings;
    if r == asked {
      assert spellings == {asked} + (spellings - {asked});
      r :| r in spellings - {asked};
    }
  }

  /** The schedule shows the room as it is, in every state of every execution, if and only if it is
      asked for in the one spelling that all requests use. */
  lemma ShowsRoomExactly(ttl: int, spellings: set<RoomText>, asked: RoomText, d: int)
    requires ttl > 0 && d > 0 && SpellingsOf(asked.id, spellings)
    ensures ShowsRoom(ttl, spellings, asked, d) <==> spellings == {asked}
  {
    if spellings == {asked} {
      forall st: seq<State>, acts: seq<Action>, n: nat, day |
        IsRun(ttl, st, acts) && Spelled(acts, asked.id, spellings) && n < |st|
        ensures ShownStatus(st[n], asked, d, day) == RoomStatus(st[n], asked.id, d, day)
      {
        OneSpellingShowsRoom(ttl, st, acts, asked, n, d, day);
      }
    } else {
      var r := OtherSpelling(spellings, asked);
      OtherSpellingIsHidden(ttl, spellings, asked, d, r);
    }
  }

  // ----- The decoder as written -----

  /** What the schedule shows of a state, as written. */
  ghost function WrittenStatus(s: State, asked: RoomText, date: DateReader, day: int): DayStatus {
    if BookedOn(s.rows, asked.id, day) then BOOKED
    else if WrittenOn(s, asked, date, day) then HELD
    else FREE
  }

  ghost predicate WrittenOn(s: State, asked: RoomText, date: DateReader, day: int) {
    exists k :: LockLive(s, k) && k.room == asked && MarksDay(WrittenRange(date, k.start), day)
  }

  lemma LockKeyWritten(asked: RoomText, k: LockKey, d: int, date: DateReader)
    requires PrintableTime(k.start) && Reads(asked) && Reads(k.room)
    ensures LockRange(LockKeyText(k.room, k.start), asked, d, AsWritten(date))
            == if k.room == asked then WrittenRange(date, k.start) else None
  {
    LockScanIsExact(asked, k.room, k.start);
    AsWrittenDecodes(date, k.room, k.start, d);
  }

  lemma WrittenComesFromLock(s: State, snap: Snapshot, asked: RoomText, d: int, date: DateReader, day: int)
    requires SnapshotOf(s, snap) && Reads(asked) && HeldOn(snap, asked, d, date, AsWritten(date), day)
    ensures WrittenOn(s, asked, date, day)
  {
    var key :| key in snap.keys && (MarksDay(HoldRange(key, snap.values, asked, date), day)
                                    || MarksDay(LockRange(key, asked, d, AsWritten(date)), day));
    HoldsAreInvisible(s, snap, asked, date, key);
    var k := ScannedKey(s, snap, asked, key);
    LockKeyWritten(asked, k, d, date);
  }

  /** As written, the keys of a state show its live locks at what the Date constructor makes of the
      minutes and the seconds of their starts. */
  lemma AsWrittenReadsState(s: State, snap: Snapshot, asked: RoomText, d: int, date: DateReader, day: int)
    requires SnapshotOf(s, snap) && Reads(asked)
    ensures StatusOn(snap, asked, d, date, AsWritten(date), day) == WrittenStatus(s, asked, date, day)
  {
    if WrittenOn(s, asked, date, day) {
      var k :| LockLive(s, k) && k.room == asked && MarksDay(WrittenRange(date, k.start), day);
      LockKeyWritten(asked, k, d, date);
      assert MarksDay(LockRange(LockKeyText(k.room, k.start), asked, d, AsWritten(date)), day);
    }
    if HeldOn(snap, asked, d, date, AsWritten(date), day) {
      WrittenComesFromLock(s, snap, asked, d, date, day);
    }
  }

  lemma LockStartHasNoSeconds(ttl: int, st: seq<State>, acts: seq<Action>, n: nat, k: LockKey)
    requires IsRun(ttl, st, acts) && n < |st| && k in st[n].locks
    ensures SecondText(k.start) == NO_SECONDS
  {
    InvHolds(ttl, st, acts, n);
    assert LockOk(ttl, st[n].creates, k, st[n].locks[k]);
    var r := st[n].creates[st[n].locks[k].val];
    assert CreateOk(st[n].now, r);
    AcceptedStartHasNoSeconds(k.start, r.claim.slotMin);
  }

  /** If the Date constructor refuses the text of no seconds, the schedule as written shows no state's
      locks at all: on a day it is right if and only if the day is not held. */
  lemma RefusedSecondsShowNoLock(ttl: int, st: seq<State>, acts: seq<Action>, n: nat, snap: Snapshot,
                                 asked: RoomText, d: int, date: DateReader, day: int)
    requires IsRun(ttl, st, acts) && n < |st| && SnapshotOf(st[n], snap) && Reads(asked) && date(NO_SECONDS) == None
    ensures StatusOn(snap, asked, d, date, AsWritten(date), day) == ShownStatus(st[n], asked, d, day)
            <==> ShownStatus(st[n], asked, d, day) != HELD
  {
    AsWrittenReadsState(st[n], snap, asked, d, date, day);
    if WrittenOn(st[n], asked, date, day) {
      var k :| LockLive(st[n], k) && k.room == asked && MarksDay(WrittenRange(date, k.start), day);
      LockStartHasNoSeconds(ttl, st, acts, n, k);
    }
  }

  /** In general it is right on a day if and only if the day is booked, or touched by a live lock's slot
      exactly if it is touched by what is read of a live lock. */
  lemma AsWrittenIsRightWhen(s: State, snap: Snapshot, asked: RoomText, d: int, date: DateReader, day: int)
    requires SnapshotOf(s, snap) && Reads(asked)
    ensures StatusOn(snap, asked, d, date, AsWritten(date), day) == ShownStatus(s, asked, d, day)
            <==> BookedOn(s.rows, asked.id, day) || (WrittenOn(s, asked, date, day) <==> LockedOn(s, asked, d, day))
  {
    AsWrittenReadsState(s, snap, asked, d, date, day);
  }

  lemma EpochPrints()
    ensures PrintableTime(0) && PrintableTime(DAY)
  {
    YearIsUnique(0, 1970);
    YearIsUnique(1, 1970);
    assert DAY / DAY == 1 && 0 / DAY == 0;
  }

  lemma MidnightTexts()
    ensures MinuteText(0) == MinuteText(DAY) && SecondText(0) == SecondText(DAY)
  {
    assert 0 % DAY == 0 && DAY % DAY == 0;
  }

  /** The snapshot of a state with one lock and one hold. */
  function OneHeldSnapshot(room: RoomText, start: int): Snapshot
    requires PrintableTime(start)
  {
    Snapshot([], [LockKeyText(room, start), HoldKeyText(HoldToken(room, start, 1))], map[])
  }

  lemma OneHeldKeys(ttl: int, p: Pair, s: State)
    requires ttl > 0 && s == OneHeld(ttl, p)
    ensures forall k :: LockLive(s, k) <==> k == KeyOf(p.c)
    ensures forall t :: HoldLive(s, t) <==> t == Token(p.c.room, p.c.start, p.c.user)
  {
  }

  lemma OneHeldIsSnapshot(ttl: int, p: Pair, s: State)
    requires ttl > 0 && s == OneHeld(ttl, p) && p.c.user == 1 && Reads(p.c.room) && PrintableTime(p.c.start)
    ensures SnapshotOf(s, OneHeldSnapshot(p.c.room, p.c.start))
  {
    OneHeldKeys(ttl, p, s);
    TwoKeysAreSnapshot(s, p.c.room, p.c.start);
  }

  lemma TwoKeysAreSnapshot(s: State, room: RoomText, start: int)
    requires Reads(room) && PrintableTime(start) && s.rows == []
    requires forall k :: LockLive(s, k) <==> k == LockKey(room, start)
    requires forall t :: HoldLive(s, t) <==> t == Token(room, start, 1)
    ensures SnapshotOf(s, OneHeldSnapshot(room, start))
  {
    var snap := OneHeldSnapshot(room, start);
    assert LockLive(s, LockKey(room, start)) && HoldLive(s, Token(room, start, 1));
    assert snap.keys[0] in snap.keys && snap.keys[1] in snap.keys;
    forall key | key in snap.keys ensures LockKeyIn(s, key) || HoldKeyIn(s, key) {
      assert key == snap.keys[0] || key == snap.keys[1];
    }
  }

  lemma OneHeldStatus(ttl: int, p: Pair, s: State, asked: RoomText, d: int, date: DateReader, day: int)
    requires ttl > 0 && s == OneHeld(ttl, p) && p.c.room == asked
    ensures ShownStatus(s, asked, d, day) == if TouchesDay(SlotRange(p.c.start, d), day) then HELD else FREE
    ensures WrittenStatus(s, asked, date, day) == if MarksDay(WrittenRange(date, p.c.start), day) then HELD else FREE
  {
    assert LockLive(s, KeyOf(p.c));
  }

  /** As written, the schedule is wrong in some execution, whatever the Date constructor does, for every
      room and slot length: one midnight slot is held, on the epoch day if that is not shown there, and
      else on the next day, where the same pieces of its key show it on the epoch day. */
  lemma AsWrittenIsWrong(ttl: int, date: DateReader, asked: RoomText, d: int)
    returns (st: seq<State>, acts: seq<Action>, snap: Snapshot)
    requires ttl > 0 && d > 0 && Reads(asked)
    ensures IsRun(ttl, st, acts) && FixedSlot(st, asked.id, d) && Spelled(acts, asked.id, {asked}) && |st| == 12
    ensures SnapshotOf(st[3], snap)
    ensures StatusOn(snap, asked, d, date, AsWritten(date), 0) != ShownStatus(st[3], asked, d, 0)
  {
    EpochPrints();
    MidnightTexts();
    MidnightsAreAligned(d);
    var start := if MarksDay(WrittenRange(date, 0), 0) then DAY else 0;
    var p;
    st, acts, p := HeldAt(ttl, asked, d, start);
    snap := OneHeldSnapshot(asked, start);
    OneHeldIsSnapshot(ttl, p, st[3]);
    AsWrittenReadsState(st[3], snap, asked, d, date, 0);
    OneHeldStatus(ttl, p, st[3], asked, d, date, 0);
  }

  /** While the slot length is unchanged, the interval decoded from a hold's lock key is the hold's own. */
  lemma DecodedKeyIsHoldInterval(ttl: int, st: seq<State>, acts: seq<Action>, n: nat, t: Token, d: int)
    requires IsRun(ttl, st, acts) && n < |st| && t in st[n].holds && FixedSlot(st, t.room.id, d)
    requires PrintableTime(t.start) && Reads(t.room)
    ensures DecodeRejoined(LockKeyText(t.room, t.start), d) == Some(Range(st[n].holds[t].start, st[n].holds[t].end))
  {
    InvHolds(ttl, st, acts, n);
    FixedHold(ttl, st, acts, d, n, st[n].holds[t]);
    LockKeyRoundTrip(t.room, t.start, d);
  }

  // ----- No free gap -----

  lemma BookedStays(rows: seq<Row>, rows': seq<Row>, room: Uuid, day: int)
    requires rows <= rows' && BookedOn(rows, room, day)
    ensures BookedOn(rows', room, day)
  {
    var i :| 0 <= i < |rows| && rows[i].room == room && TouchesDay(RangeOf(rows[i]), day);
    assert rows'[i] == rows[i];
  }

  /** A booked day stays booked for the rest of the execution, whatever else happens. */
  lemma BookedForGood(ttl: int, st: seq<State>, acts: seq<Action>, m: nat, n: nat, room: RoomText, d: int, d': int,
                      day: int)
    requires IsRun(ttl, st, acts) && m <= n < |st| && ShownStatus(st[m], room, d, day) == BOOKED
    ensures ShownStatus(st[n], room, d', day) == BOOKED
  {
    RowsGrow(ttl, st, acts, m, n);
    BookedStays(st[m].rows, st[n].rows, room.id, day);
  }

  /** A live lock goes away only by time, or by the confirm that deletes it. */
  lemma LockLeaves(ttl: int, s: State, a: Action, k: LockKey)
    requires ttl > 0 && LockLive(s, k) && !LockLive(Step(ttl, s, a), k)
    ensures a.Tick? || (a.DeleteLock? && a.cid in s.confirms && s.confirms[a.cid].HoldDeleted?
                        && LockOf(s.confirms[a.cid].hold) == k)
  {
    match a
    case Tick(_) =>
    case UpdateRoom(_, _, _) =>
    case Validate(_, _, _, _) =>
    case Acquire(_) =>
    case WriteHold(_) =>
    case ReadHold(_, _, _) =>
    case Insert(_) =>
    case DeleteHold(_) =>
    case DeleteLock(_) =>
  }

  /** The lock a confirm deletes marks only days its row has booked. */
  lemma DeletedLockIsBooked(ttl: int, st: seq<State>, acts: seq<Action>, n: nat, k: LockKey, d: int, day: int)
    requires IsRun(ttl, st, acts) && n < |acts| && FixedSlot(st, k.room.id, d) && DeletesLockAt(st, acts, n, k)
    requires TouchesDay(SlotRange(k.start, d), day)
    ensures BookedOn(st[n].rows, k.room.id, day)
  {
    var z := LockDeletedAfterBooking(ttl, st, acts, n, k);
    var i :| 0 <= i < |st[n].rows| && st[n].rows[i].room == k.room.id && st[n].rows[i].start == k.start;
    FixedRow(ttl, st, acts, d, n, i);
    assert RangeOf(st[n].rows[i]) == SlotRange(k.start, d);
  }

  /** No free gap: with an unchanged slot length, a held day becomes free in one step only when time
      passes and a lock that marked it expires. No step of create or confirm frees it: the row is in
      before the lock is out. */
  lemma HeldFreedOnlyByExpiry(ttl: int, st: seq<State>, acts: seq<Action>, n: nat, room: RoomText, d: int, day: int)
    requires IsRun(ttl, st, acts) && n < |acts| && FixedSlot(st, room.id, d)
    requires ShownStatus(st[n], room, d, day) == HELD && ShownStatus(st[n + 1], room, d, day) == FREE
    ensures acts[n].Tick?
    ensures exists k: LockKey :: k.room == room && TouchesDay(SlotRange(k.start, d), day)
                        && LockLive(st[n], k) && k in st[n + 1].locks && !LockLive(st[n + 1], k)
  {
    var k :| LockLive(st[n], k) && k.room == room && TouchesDay(SlotRange(k.start, d), day);
    assert !LockLive(st[n + 1], k);
    LockLeaves(ttl, st[n], acts[n], k);
    if acts[n].DeleteLock? {
      DeletedLockIsBooked(ttl, st, acts, n, k, d, day);
      assert false;
    }
  }

  /** A confirmed slot passes from held to booked: once its row is in, all its days are booked, and
      stay so through the deletions of the hold and the lock. */
  lemma ConfirmedDaysAreBooked(ttl: int, st: seq<State>, acts: seq<Action>, n: nat, cid: nat, d: int, day: int)
    requires IsRun(ttl, st, acts) && n < |st| && cid in st[n].confirms && HasRow(st[n].confirms[cid])
    requires FixedSlot(st, st[n].confirms[cid].hold.room.id, d)
    requires TouchesDay(SlotRange(st[n].confirms[cid].hold.start, d), day)
    ensures ShownStatus(st[n], st[n].confirms[cid].hold.room, d, day) == BOOKED
  {
    var h := st[n].confirms[cid].hold;
    InvHolds(ttl, st, acts, n);
    var i :| 0 <= i < |st[n].rows| && st[n].rows[i] == RowFor(cid, h);
    FixedRow(ttl, st, acts, d, n, i);
    assert RangeOf(st[n].rows[i]) == SlotRange(h.start, d);
  }
}
