/** What every interleaving of create, confirm, update and the clock keeps. */
module ProtocolInvariant {
  import opened Slots
  import opened Text
  import opened Ids
  import opened Protocol

  predicate HasLock(r: CreateRun) { r.Locked? || r.Held? }

  predicate HasClaim(r: CreateRun) { r.Validated? || HasLock(r) }

  /** The confirm has inserted its row. */
  predicate HasRow(r: ConfirmRun) { r.Inserted? || r.HoldDeleted? || r.Confirmed? }

  predicate HasHold(r: ConfirmRun) { r.HoldRead? || HasRow(r) }

  predicate ClaimOk(c: Claim) { c.slotMin > 0 && Aligned(c.start, c.slotMin) }

  predicate CreateOk(now: int, r: CreateRun) {
    && (HasClaim(r) ==> ClaimOk(r.claim))
    && (HasLock(r) ==> r.at <= now)
    && (r.Held? ==> r.at <= r.heldAt <= now)
  }

  ghost predicate CreatesOk(now: int, creates: map<nat, CreateRun>) {
    forall rid :: rid in creates ==> CreateOk(now, creates[rid])
  }

  /** The hold is the one its run wrote, for the interval of that run's claim. */
  predicate HoldOk(ttl: int, creates: map<nat, CreateRun>, h: Hold) {
    && h.origin in creates && creates[h.origin].Held?
    && h == HoldFor(creates[h.origin].claim, creates[h.origin].heldAt + ttl, h.origin)
  }

  ghost predicate HoldsOk(ttl: int, creates: map<nat, CreateRun>, holds: map<Token, Hold>) {
    forall t :: t in holds ==> TokenOf(holds[t]) == t && HoldOk(ttl, creates, holds[t])
  }

  predicate ConfirmOk(ttl: int, now: int, creates: map<nat, CreateRun>, r: ConfirmRun) {
    && (HasHold(r) ==> HoldOk(ttl, creates, r.hold) && TokenOf(r.hold) == r.token)
    && (r.HoldRead? ==> r.at <= now && r.at < r.hold.expiry)
  }

  ghost predicate ConfirmsOk(ttl: int, now: int, creates: map<nat, CreateRun>, confirms: map<nat, ConfirmRun>) {
    forall cid :: cid in confirms ==> ConfirmOk(ttl, now, creates, confirms[cid])
  }

  /** Every row was inserted by a confirm, from the hold that confirm read. */
  ghost predicate RowsLogged(rows: seq<Row>, confirms: map<nat, ConfirmRun>) {
    forall i :: 0 <= i < |rows| ==> RowLogged(rows[i], confirms)
  }

  predicate RowLogged(row: Row, confirms: map<nat, ConfirmRun>) {
    row.id in confirms && HasRow(confirms[row.id]) && row == RowFor(row.id, confirms[row.id].hold)
  }

  ghost predicate InsertsKept(rows: seq<Row>, confirms: map<nat, ConfirmRun>) {
    forall cid :: cid in confirms && HasRow(confirms[cid]) ==> RowFor(cid, confirms[cid].hold) in rows
  }

  /** No instant of a room is booked twice. */
  ghost predicate RowsDisjoint(rows: seq<Row>) {
    && (forall i :: 0 <= i < |rows| ==> rows[i].start < rows[i].end)
    && (forall i, j :: 0 <= i < j < |rows| && rows[i].room == rows[j].room
                       ==> Disjoint(rows[i].start, rows[i].end, rows[j].start, rows[j].end))
  }

  /** A lock is that of the run named in its value, and expires a TTL after that run took it. */
  predicate LockOk(ttl: int, creates: map<nat, CreateRun>, k: LockKey, l: Lock) {
    && l.val in creates && HasLock(creates[l.val])
    && KeyOf(creates[l.val].claim) == k && l.expiry == creates[l.val].at + ttl
  }

  ghost predicate LocksOk(ttl: int, creates: map<nat, CreateRun>, locks: map<LockKey, Lock>) {
    forall k :: k in locks ==> LockOk(ttl, creates, k, locks[k])
  }

  /** The slot has no row. */
  ghost predicate Free(rows: seq<Row>, slot: Slot) {
    forall i :: 0 <= i < |rows| ==> !(rows[i].room == slot.room && rows[i].start == slot.start)
  }

  /** While a slot has no row, the entry of each of its keys is the latest acquisition of that key. */
  ghost predicate LatestLockKept(ttl: int, rows: seq<Row>, locks: map<LockKey, Lock>, creates: map<nat, CreateRun>) {
    forall rid :: rid in creates && HasLock(creates[rid]) ==> LatestFor(ttl, rows, locks, creates[rid])
  }

  ghost predicate LatestFor(ttl: int, rows: seq<Row>, locks: map<LockKey, Lock>, r: CreateRun)
    requires HasLock(r)
  {
    var k := KeyOf(r.claim);
    Free(rows, SlotOf(k)) ==> k in locks && r.at + ttl <= locks[k].expiry
  }

  /** While a slot has no row, any two acquisitions of one of its keys lie a whole TTL apart. */
  ghost predicate AcquisitionsApart(ttl: int, rows: seq<Row>, creates: map<nat, CreateRun>) {
    forall r1, r2 :: r1 in creates && r2 in creates && r1 != r2 && HasLock(creates[r1]) && HasLock(creates[r2])
                     ==> Apart(ttl, rows, creates[r1], creates[r2])
  }

  ghost predicate Apart(ttl: int, rows: seq<Row>, a: CreateRun, b: CreateRun)
    requires HasLock(a) && HasLock(b)
  {
    KeyOf(a.claim) == KeyOf(b.claim) && Free(rows, SlotOf(KeyOf(a.claim))) ==> a.at + ttl <= b.at || b.at + ttl <= a.at
  }

  ghost predicate RunsInv(ttl: int, s: State) {
    && CreatesOk(s.now, s.creates) && HoldsOk(ttl, s.creates, s.holds)
    && ConfirmsOk(ttl, s.now, s.creates, s.confirms)
  }

  ghost predicate RowsInv(s: State) {
    RowsLogged(s.rows, s.confirms) && InsertsKept(s.rows, s.confirms) && RowsDisjoint(s.rows)
  }

  ghost predicate LocksInv(ttl: int, s: State) {
    && LocksOk(ttl, s.creates, s.locks) && LatestLockKept(ttl, s.rows, s.locks, s.creates)
    && AcquisitionsApart(ttl, s.rows, s.creates)
  }

  ghost predicate Inv(ttl: int, s: State) { RunsInv(ttl, s) && RowsInv(s) && LocksInv(ttl, s) }

  // ----- Time and rooms -----

  lemma TickKeeps(ttl: int, s: State, ms: nat)
    requires Inv(ttl, s)
    ensures Inv(ttl, s.(now := s.now + ms))
  {
    forall rid | rid in s.creates ensures CreateOk(s.now + ms, s.creates[rid]) {
      assert CreateOk(s.now, s.creates[rid]);
    }
    forall cid | cid in s.confirms ensures ConfirmOk(ttl, s.now + ms, s.creates, s.confirms[cid]) {
      assert ConfirmOk(ttl, s.now, s.creates, s.confirms[cid]);
    }
  }

  lemma UpdateRoomKeeps(ttl: int, s: State, room: Uuid, user: Uuid, slotMin: Option<int>)
    requires Inv(ttl, s)
    ensures Inv(ttl, UpdateRoomStep(s, room, user, slotMin))
  {
  }

  // ----- One create run moves on -----

  /** `b` is the same acquisition as `a`, and the same hold if `a` has one. */
  predicate SameLock(a: CreateRun, b: CreateRun)
    requires HasLock(a)
  {
    HasLock(b) && b.claim == a.claim && b.at == a.at && (a.Held? ==> b == a)
  }

  /** Run `rid` may go to `r`: no lock comes or goes. */
  predicate MovesTo(creates: map<nat, CreateRun>, rid: nat, r: CreateRun) {
    if rid in creates && HasLock(creates[rid]) then SameLock(creates[rid], r) else !HasLock(r)
  }

  lemma HoldOkStays(ttl: int, creates: map<nat, CreateRun>, rid: nat, r: CreateRun, h: Hold)
    requires HoldOk(ttl, creates, h) && (rid in creates && creates[rid].Held? ==> r == creates[rid])
    ensures HoldOk(ttl, creates[rid := r], h)
  {
  }

  lemma RecordsKeepHolds(ttl: int, s: State, rid: nat, r: CreateRun)
    requires RunsInv(ttl, s) && CreateOk(s.now, r) && (rid in s.creates && s.creates[rid].Held? ==> r == s.creates[rid])
    ensures RunsInv(ttl, s.(creates := s.creates[rid := r]))
  {
    forall t | t in s.holds ensures HoldOk(ttl, s.creates[rid := r], s.holds[t]) {
      HoldOkStays(ttl, s.creates, rid, r, s.holds[t]);
    }
    forall cid | cid in s.confirms ensures ConfirmOk(ttl, s.now, s.creates[rid := r], s.confirms[cid]) {
      assert ConfirmOk(ttl, s.now, s.creates, s.confirms[cid]);
      if HasHold(s.confirms[cid]) {
        HoldOkStays(ttl, s.creates, rid, r, s.confirms[cid].hold);
      }
    }
  }

  lemma MoveKeepsLocksOk(ttl: int, s: State, rid: nat, r: CreateRun)
    requires LocksOk(ttl, s.creates, s.locks) && MovesTo(s.creates, rid, r)
    ensures LocksOk(ttl, s.creates[rid := r], s.locks)
  {
    forall k | k in s.locks ensures LockOk(ttl, s.creates[rid := r], k, s.locks[k]) {
      assert LockOk(ttl, s.creates, k, s.locks[k]);
    }
  }

  lemma MoveKeepsLatest(ttl: int, s: State, rid: nat, r: CreateRun)
    requires LatestLockKept(ttl, s.rows, s.locks, s.creates) && MovesTo(s.creates, rid, r)
    ensures LatestLockKept(ttl, s.rows, s.locks, s.creates[rid := r])
  {
    var creates := s.creates[rid := r];
    forall q | q in creates && HasLock(creates[q]) ensures LatestFor(ttl, s.rows, s.locks, creates[q]) {
      assert LatestFor(ttl, s.rows, s.locks, s.creates[q]);
    }
  }

  lemma MoveKeepsApart(ttl: int, s: State, rid: nat, r: CreateRun)
    requires AcquisitionsApart(ttl, s.rows, s.creates) && MovesTo(s.creates, rid, r)
    ensures AcquisitionsApart(ttl, s.rows, s.creates[rid := r])
  {
    var creates := s.creates[rid := r];
    forall p, q | p in creates && q in creates && p != q && HasLock(creates[p]) && HasLock(creates[q])
      ensures Apart(ttl, s.rows, creates[p], creates[q])
    {
      assert Apart(ttl, s.rows, s.creates[p], s.creates[q]);
    }
  }

  lemma MoveKeeps(ttl: int, s: State, rid: nat, r: CreateRun)
    requires Inv(ttl, s) && CreateOk(s.now, r) && MovesTo(s.creates, rid, r)
    ensures Inv(ttl, s.(creates := s.creates[rid := r]))
  {
    RecordsKeepHolds(ttl, s, rid, r);
    MoveKeepsLocksOk(ttl, s, rid, r);
    MoveKeepsLatest(ttl, s, rid, r);
    MoveKeepsApart(ttl, s, rid, r);
  }

  lemma ValidateKeeps(ttl: int, s: State, rid: nat, user: Uuid, room: RoomText, start: Option<int>)
    requires Inv(ttl, s)
    ensures Inv(ttl, ValidateStep(s, rid, user, room, start))
  {
    if rid !in s.creates {
      MoveKeeps(ttl, s, rid, ValidateRequest(s.now, s.rooms, user, room, start));
    }
  }

  // ----- The lock -----

  /** When a key is free to take, every earlier acquisition of it for a slot without a row is a TTL old. */
  lemma EarlierAcquisitionsExpired(ttl: int, s: State, r: nat)
    requires LatestLockKept(ttl, s.rows, s.locks, s.creates) && r in s.creates && HasLock(s.creates[r])
    requires Free(s.rows, SlotOf(KeyOf(s.creates[r].claim))) && !LockLive(s, KeyOf(s.creates[r].claim))
    ensures s.creates[r].at + ttl <= s.now
  {
    assert LatestFor(ttl, s.rows, s.locks, s.creates[r]);
  }

  /** Run `rid`, validated with claim `c`, finds the key free. */
  predicate CanTake(s: State, rid: nat, c: Claim) {
    rid in s.creates && s.creates[rid] == Validated(c) && !LockLive(s, KeyOf(c))
  }

  function Taken(ttl: int, s: State, rid: nat, c: Claim): State {
    s.(locks := s.locks[KeyOf(c) := Lock(rid, s.now + ttl)], creates := s.creates[rid := Locked(c, s.now)])
  }

  lemma TakeKeepsLatest(ttl: int, s: State, rid: nat, c: Claim)
    requires LatestLockKept(ttl, s.rows, s.locks, s.creates) && CreatesOk(s.now, s.creates) && CanTake(s, rid, c)
    ensures LatestLockKept(ttl, s.rows, Taken(ttl, s, rid, c).locks, Taken(ttl, s, rid, c).creates)
  {
    var s' := Taken(ttl, s, rid, c);
    forall q | q in s'.creates && HasLock(s'.creates[q]) ensures LatestFor(ttl, s.rows, s'.locks, s'.creates[q]) {
      if q != rid {
        assert LatestFor(ttl, s.rows, s.locks, s.creates[q]) && CreateOk(s.now, s.creates[q]);
      }
    }
  }

  lemma TakenApart(ttl: int, s: State, rid: nat, c: Claim, q: nat)
    requires LatestLockKept(ttl, s.rows, s.locks, s.creates) && CanTake(s, rid, c)
    requires q in s.creates && HasLock(s.creates[q])
    ensures Apart(ttl, s.rows, s.creates[q], Locked(c, s.now)) && Apart(ttl, s.rows, Locked(c, s.now), s.creates[q])
  {
    if KeyOf(s.creates[q].claim) == KeyOf(c) && Free(s.rows, SlotOf(KeyOf(c))) {
      EarlierAcquisitionsExpired(ttl, s, q);
    }
  }

  /** While a slot has no row, acquisitions of a key stay a whole TTL apart. */
  lemma TakeKeepsApart(ttl: int, s: State, rid: nat, c: Claim)
    requires LatestLockKept(ttl, s.rows, s.locks, s.creates) && AcquisitionsApart(ttl, s.rows, s.creates)
             && CanTake(s, rid, c)
    ensures AcquisitionsApart(ttl, s.rows, Taken(ttl, s, rid, c).creates)
  {
    var creates := Taken(ttl, s, rid, c).creates;
    forall p, q | p in creates && q in creates && p != q && HasLock(creates[p]) && HasLock(creates[q])
      ensures Apart(ttl, s.rows, creates[p], creates[q])
    {
      if p == rid {
        TakenApart(ttl, s, rid, c, q);
      } else if q == rid {
        TakenApart(ttl, s, rid, c, p);
      }
    }
  }

  lemma TakeKeepsLocksOk(ttl: int, s: State, rid: nat, c: Claim)
    requires LocksOk(ttl, s.creates, s.locks) && CanTake(s, rid, c)
    ensures LocksOk(ttl, Taken(ttl, s, rid, c).creates, Taken(ttl, s, rid, c).locks)
  {
    var s' := Taken(ttl, s, rid, c);
    forall k | k in s'.locks ensures LockOk(ttl, s'.creates, k, s'.locks[k]) {
      if k != KeyOf(c) {
        assert LockOk(ttl, s.creates, k, s.locks[k]);
      }
    }
  }

  lemma AcquireKeeps(ttl: int, s: State, rid: nat)
    requires Inv(ttl, s) && ttl > 0
    ensures Inv(ttl, AcquireStep(ttl, s, rid))
  {
    if rid in s.creates && s.creates[rid].Validated? {
      var c := s.creates[rid].claim;
      assert CreateOk(s.now, s.creates[rid]);
      if LockLive(s, KeyOf(c)) {
        MoveKeeps(ttl, s, rid, CreateFailed(SlotTaken));
      } else {
        RecordsKeepHolds(ttl, s, rid, Locked(c, s.now));
        TakeKeepsLocksOk(ttl, s, rid, c);
        TakeKeepsLatest(ttl, s, rid, c);
        TakeKeepsApart(ttl, s, rid, c);
      }
    }
  }

  // ----- The hold -----

  lemma HoldAdded(ttl: int, s: State, h: Hold)
    requires Inv(ttl, s) && HoldOk(ttl, s.creates, h)
    ensures Inv(ttl, s.(holds := s.holds[TokenOf(h) := h]))
  {
  }

  lemma HoldWritten(ttl: int, s: State, rid: nat, c: Claim, at: int)
    requires Inv(ttl, s) && rid in s.creates && s.creates[rid] == Locked(c, at)
    ensures var h := HoldFor(c, s.now + ttl, rid);
            Inv(ttl, s.(holds := s.holds[TokenOf(h) := h], creates := s.creates[rid := Held(c, at, s.now)]))
  {
    var s' := s.(creates := s.creates[rid := Held(c, at, s.now)]);
    assert CreateOk(s.now, s.creates[rid]);
    MoveKeeps(ttl, s, rid, Held(c, at, s.now));
    assert s'.creates[rid] == Held(c, at, s.now);
    HoldAdded(ttl, s', HoldFor(c, s.now + ttl, rid));
  }

  lemma WriteHoldKeeps(ttl: int, s: State, rid: nat)
    requires Inv(ttl, s)
    ensures Inv(ttl, WriteHoldStep(ttl, s, rid))
  {
    if rid in s.creates && s.creates[rid].Locked? {
      var Locked(c, at) := s.creates[rid];
      WriteHoldOf(ttl, s, rid, c, at);
      HoldWritten(ttl, s, rid, c, at);
    }
  }

  // ----- One confirm run moves on -----

  predicate SameRow(a: ConfirmRun, b: ConfirmRun)
    requires HasRow(a)
  {
    HasRow(b) && b.token == a.token && b.hold == a.hold && (a.Confirmed? ==> b == a)
  }

  /** Confirm `cid` may go to `r`: no row comes or goes. */
  predicate ConfirmMovesTo(confirms: map<nat, ConfirmRun>, cid: nat, r: ConfirmRun) {
    if cid in confirms && HasRow(confirms[cid]) then SameRow(confirms[cid], r) else !HasRow(r)
  }

  lemma ConfirmMoveKeeps(ttl: int, s: State, cid: nat, r: ConfirmRun)
    requires Inv(ttl, s) && ConfirmOk(ttl, s.now, s.creates, r) && ConfirmMovesTo(s.confirms, cid, r)
    ensures Inv(ttl, s.(confirms := s.confirms[cid := r]))
  {
    var confirms := s.confirms[cid := r];
    forall i | 0 <= i < |s.rows| ensures RowLogged(s.rows[i], confirms) {
      assert RowLogged(s.rows[i], s.confirms);
    }
    forall c | c in confirms && HasRow(confirms[c]) ensures RowFor(c, confirms[c].hold) in s.rows {
      assert RowFor(c, s.confirms[c].hold) in s.rows;
    }
  }

  lemma ReadRequestOk(ttl: int, s: State, user: Uuid, token: Option<Token>)
    requires HoldsOk(ttl, s.creates, s.holds)
    ensures ConfirmOk(ttl, s.now, s.creates, ReadRequest(s, user, token)) && !HasRow(ReadRequest(s, user, token))
  {
  }

  lemma ReadHoldKeeps(ttl: int, s: State, cid: nat, user: Uuid, token: Option<Token>)
    requires Inv(ttl, s)
    ensures Inv(ttl, ReadHoldStep(s, cid, user, token))
  {
    if cid !in s.confirms {
      ReadRequestOk(ttl, s, user, token);
      ConfirmMoveKeeps(ttl, s, cid, ReadRequest(s, user, token));
    }
  }

  // ----- The row -----

  lemma InAppended(rows: seq<Row>, r: Row, x: Row)
    requires x in rows || x == r
    ensures x in rows + [r]
  {
  }

  /** The exclusion constraint at work. */
  lemma RowsStayDisjoint(rows: seq<Row>, r: Row)
    requires RowsDisjoint(rows) && r.start < r.end && InsertAllowed(rows, r)
    ensures RowsDisjoint(rows + [r])
  {
    forall i | 0 <= i < |rows| && rows[i].room == r.room
      ensures Disjoint(rows[i].start, rows[i].end, r.start, r.end)
    {
      assert !Conflict(rows[i], r);
    }
  }

  /** A slot free of rows was free before the insert. */
  lemma FreeBefore(rows: seq<Row>, r: Row, slot: Slot)
    requires Free(rows + [r], slot)
    ensures Free(rows, slot)
  {
    forall i | 0 <= i < |rows| ensures !(rows[i].room == slot.room && rows[i].start == slot.start) {
      assert (rows + [r])[i] == rows[i];
    }
  }

  lemma RowKeepsLocks(ttl: int, s: State, r: Row)
    requires LocksInv(ttl, s)
    ensures LocksInv(ttl, s.(rows := s.rows + [r]))
  {
    var rows := s.rows + [r];
    forall rid | rid in s.creates && HasLock(s.creates[rid]) ensures LatestFor(ttl, rows, s.locks, s.creates[rid]) {
      assert LatestFor(ttl, s.rows, s.locks, s.creates[rid]);
      if Free(rows, SlotOf(KeyOf(s.creates[rid].claim))) {
        FreeBefore(s.rows, r, SlotOf(KeyOf(s.creates[rid].claim)));
      }
    }
    forall p, q | p in s.creates && q in s.creates && p != q && HasLock(s.creates[p]) && HasLock(s.creates[q])
      ensures Apart(ttl, rows, s.creates[p], s.creates[q])
    {
      assert Apart(ttl, s.rows, s.creates[p], s.creates[q]);
      if Free(rows, SlotOf(KeyOf(s.creates[p].claim))) {
        FreeBefore(s.rows, r, SlotOf(KeyOf(s.creates[p].claim)));
      }
    }
  }

  lemma RowKeepsLog(rows: seq<Row>, confirms: map<nat, ConfirmRun>, cid: nat, r: ConfirmRun)
    requires RowsLogged(rows, confirms) && InsertsKept(rows, confirms) && HasRow(r)
             && !(cid in confirms && HasRow(confirms[cid]))
    ensures RowsLogged(rows + [RowFor(cid, r.hold)], confirms[cid := r])
    ensures InsertsKept(rows + [RowFor(cid, r.hold)], confirms[cid := r])
  {
    var rows', confirms' := rows + [RowFor(cid, r.hold)], confirms[cid := r];
    forall i | 0 <= i < |rows'| ensures RowLogged(rows'[i], confirms') {
      if i < |rows| {
        assert rows'[i] == rows[i] && RowLogged(rows[i], confirms);
      }
    }
    forall c | c in confirms' && HasRow(confirms'[c]) ensures RowFor(c, confirms'[c].hold) in rows' {
      InAppended(rows, RowFor(cid, r.hold), RowFor(c, confirms'[c].hold));
    }
  }

  lemma RowAdded(ttl: int, s: State, cid: nat, t: Token, h: Hold, at: int)
    requires Inv(ttl, s) && cid in s.confirms && s.confirms[cid] == HoldRead(t, h, at)
             && InsertAllowed(s.rows, RowFor(cid, h))
    ensures Inv(ttl, s.(rows := s.rows + [RowFor(cid, h)], confirms := s.confirms[cid := Inserted(t, h)]))
  {
    assert ConfirmOk(ttl, s.now, s.creates, s.confirms[cid]);
    assert CreateOk(s.now, s.creates[h.origin]);
    RowKeepsLocks(ttl, s, RowFor(cid, h));
    RowsStayDisjoint(s.rows, RowFor(cid, h));
    RowKeepsLog(s.rows, s.confirms, cid, Inserted(t, h));
  }

  lemma InsertKeeps(ttl: int, s: State, cid: nat)
    requires Inv(ttl, s)
    ensures Inv(ttl, InsertStep(s, cid))
  {
    if cid in s.confirms && s.confirms[cid].HoldRead? {
      var HoldRead(t, h, at) := s.confirms[cid];
      InsertOf(s, cid, t, h, at);
      if InsertAllowed(s.rows, RowFor(cid, h)) {
        RowAdded(ttl, s, cid, t, h, at);
      } else {
        ConfirmMoveKeeps(ttl, s, cid, ConfirmFailed(SlotTaken));
      }
    }
  }

  // ----- The deletions -----

  lemma DeleteHoldKeeps(ttl: int, s: State, cid: nat)
    requires Inv(ttl, s)
    ensures Inv(ttl, DeleteHoldStep(s, cid))
  {
    if cid in s.confirms && s.confirms[cid].Inserted? {
      var Inserted(t, h) := s.confirms[cid];
      assert ConfirmOk(ttl, s.now, s.creates, s.confirms[cid]);
      ConfirmMoveKeeps(ttl, s, cid, HoldDeleted(t, h));
      HoldRemoved(ttl, s.(confirms := s.confirms[cid := HoldDeleted(t, h)]), t);
    }
  }

  lemma HoldRemoved(ttl: int, s: State, t: Token)
    requires Inv(ttl, s)
    ensures Inv(ttl, s.(holds := s.holds - {t}))
  {
  }

  /** The lock goes only where a row has come. */
  lemma LockRemoved(ttl: int, s: State, k: LockKey)
    requires Inv(ttl, s) && !Free(s.rows, SlotOf(k))
    ensures Inv(ttl, s.(locks := s.locks - {k}))
  {
    var locks := s.locks - {k};
    forall rid | rid in s.creates && HasLock(s.creates[rid]) ensures LatestFor(ttl, s.rows, locks, s.creates[rid]) {
      assert LatestFor(ttl, s.rows, s.locks, s.creates[rid]);
    }
  }

  lemma BookedSlotIsNotFree(rows: seq<Row>, cid: nat, h: Hold)
    requires RowFor(cid, h) in rows
    ensures !Free(rows, SlotOf(LockOf(h)))
  {
  }

  lemma DeleteLockKeeps(ttl: int, s: State, cid: nat)
    requires Inv(ttl, s)
    ensures Inv(ttl, DeleteLockStep(s, cid))
  {
    if cid in s.confirms && s.confirms[cid].HoldDeleted? {
      var HoldDeleted(t, h) := s.confirms[cid];
      assert ConfirmOk(ttl, s.now, s.creates, s.confirms[cid]);
      ConfirmMoveKeeps(ttl, s, cid, Confirmed(t, h));
      BookedSlotIsNotFree(s.rows, cid, h);
      LockRemoved(ttl, s.(confirms := s.confirms[cid := Confirmed(t, h)]), LockOf(h));
    }
  }

  // ----- Every step, every execution -----

  lemma StepKeeps(ttl: int, s: State, a: Action)
    requires ttl > 0 && Inv(ttl, s)
    ensures Inv(ttl, Step(ttl, s, a))
  {
    match a
    case Tick(ms) => TickKeeps(ttl, s, ms);
    case UpdateRoom(room, user, slotMin) => UpdateRoomKeeps(ttl, s, room, user, slotMin);
    case Validate(rid, user, room, start) => ValidateKeeps(ttl, s, rid, user, room, start);
    case Acquire(rid) => AcquireKeeps(ttl, s, rid);
    case WriteHold(rid) => WriteHoldKeeps(ttl, s, rid);
    case ReadHold(cid, user, token) => ReadHoldKeeps(ttl, s, cid, user, token);
    case Insert(cid) => InsertKeeps(ttl, s, cid);
    case DeleteHold(cid) => DeleteHoldKeeps(ttl, s, cid);
    case DeleteLock(cid) => DeleteLockKeeps(ttl, s, cid);
  }

  /** Every state of every execution satisfies the invariant. */
  lemma {:induction false} InvHolds(ttl: int, st: seq<State>, acts: seq<Action>, n: nat)
    requires IsRun(ttl, st, acts) && n < |st|
    ensures Inv(ttl, st[n])
  {
    if n > 0 {
      var p := n - 1;
      InvHolds(ttl, st, acts, p);
      StepKeeps(ttl, st[p], acts[p]);
    }
  }
}
