/** Who can have a live hold on a slot, and whose confirm takes it. */
module HoldGuarantee {
  import opened Slots
  import opened Ids
  import opened Protocol
  import opened ProtocolInvariant
  import opened RunHistory

  // ----- What the clients and the network do -----

  /** Every hold is written at most `delta` after its lock. Slower runs take no further step. */
  ghost predicate PromptHolds(st: seq<State>, acts: seq<Action>, delta: int)
    requires |st| == |acts| + 1
  {
    forall i :: 0 <= i < |acts| ==> PromptHold(st[i], acts[i], delta)
  }

  predicate PromptHold(s: State, a: Action, delta: int) {
    a.WriteHold? && a.rid in s.creates && s.creates[a.rid].Locked? ==> s.now <= s.creates[a.rid].at + delta
  }

  /** Every row is inserted at most `rho` after its hold was read. */
  ghost predicate PromptInserts(st: seq<State>, acts: seq<Action>, rho: int)
    requires |st| == |acts| + 1
  {
    forall i :: 0 <= i < |acts| ==> PromptInsert(st[i], acts[i], rho)
  }

  predicate PromptInsert(s: State, a: Action, rho: int) {
    a.Insert? && a.cid in s.confirms && s.confirms[a.cid].HoldRead? ==> s.now <= s.confirms[a.cid].at + rho
  }

  ghost predicate Timely(st: seq<State>, acts: seq<Action>, delta: int, rho: int)
    requires |st| == |acts| + 1
  {
    PromptHolds(st, acts, delta) && PromptInserts(st, acts, rho)
  }

  /** The requests for the room spell its id in these ways only. */
  ghost predicate Spelled(acts: seq<Action>, room: Uuid, spellings: set<RoomText>) {
    forall i :: 0 <= i < |acts| && acts[i].Validate? && acts[i].room.id == room ==> acts[i].room in spellings
  }

  lemma ClaimIsSpelled(ttl: int, st: seq<State>, acts: seq<Action>, spellings: set<RoomText>, n: nat, rid: nat)
    requires IsRun(ttl, st, acts) && n < |st| && rid in st[n].creates && HasClaim(st[n].creates[rid])
    requires Spelled(acts, st[n].creates[rid].claim.room.id, spellings)
    ensures st[n].creates[rid].claim.room in spellings
  {
    var v := ClaimHistory(ttl, st, acts, n, rid);
  }

  lemma HoldsAreTimely(ttl: int, st: seq<State>, acts: seq<Action>, delta: int, n: nat, rid: nat)
    requires IsRun(ttl, st, acts) && PromptHolds(st, acts, delta) && n < |st|
    requires rid in st[n].creates && st[n].creates[rid].Held?
    ensures st[n].creates[rid].heldAt <= st[n].creates[rid].at + delta
  {
    var w := HoldHistory(ttl, st, acts, n, rid);
    assert PromptHold(st[w], acts[w], delta);
  }

  // ----- The skew bound -----

  function WrittenAt(ttl: int, h: Hold): int { h.expiry - ttl }

  predicate HoldOn(s: State, t: Token, slot: Slot) { HoldLive(s, t) && t.room.id == slot.room && t.start == slot.start }

  /** The run that wrote the live hold of `t`. */
  function Writer(ttl: int, s: State, t: Token): (r: CreateRun)
    requires Inv(ttl, s) && HoldLive(s, t)
    ensures r.Held? && r.claim.user == t.user && KeyOf(r.claim) == LockKey(t.room, t.start)
    ensures WrittenAt(ttl, s.holds[t]) == r.heldAt && r.at <= r.heldAt <= s.now < r.heldAt + ttl
  {
    assert HoldOk(ttl, s.creates, s.holds[t]);
    assert CreateOk(s.now, s.creates[s.holds[t].origin]);
    s.creates[s.holds[t].origin]
  }

  /** The acquisitions behind two users' holds on a slot without a row lie a TTL apart, if both users
      spell the room the same. */
  lemma HoldersAreApart(ttl: int, s: State, t1: Token, t2: Token, slot: Slot)
    requires Inv(ttl, s) && Free(s.rows, slot) && HoldOn(s, t1, slot) && HoldOn(s, t2, slot)
    requires t1.room == t2.room && t1.user != t2.user
    ensures var (a1, a2) := (Writer(ttl, s, t1).at, Writer(ttl, s, t2).at); a1 + ttl <= a2 || a2 + ttl <= a1
  {
    assert Apart(ttl, s.rows, Writer(ttl, s, t1), Writer(ttl, s, t2));
  }

  lemma WriterIsTimely(ttl: int, st: seq<State>, acts: seq<Action>, delta: int, n: nat, t: Token)
    requires IsRun(ttl, st, acts) && PromptHolds(st, acts, delta) && n < |st| && Inv(ttl, st[n]) && HoldLive(st[n], t)
    ensures Writer(ttl, st[n], t).heldAt <= Writer(ttl, st[n], t).at + delta
  {
    HoldsAreTimely(ttl, st, acts, delta, n, st[n].holds[t].origin);
  }

  /** Two users who spell the room the same hold a slot without a row together for at most `delta`. */
  lemma HoldersCoexistBriefly(ttl: int, st: seq<State>, acts: seq<Action>, delta: int, n: nat, t1: Token, t2: Token,
                              slot: Slot)
    requires IsRun(ttl, st, acts) && PromptHolds(st, acts, delta) && n < |st| && Free(st[n].rows, slot)
    requires HoldOn(st[n], t1, slot) && HoldOn(st[n], t2, slot) && t1.room == t2.room && t1.user != t2.user
    ensures st[n].holds[t1].expiry - WrittenAt(ttl, st[n].holds[t2]) <= delta
         || st[n].holds[t2].expiry - WrittenAt(ttl, st[n].holds[t1]) <= delta
  {
    InvHolds(ttl, st, acts, n);
    HoldersAreApart(ttl, st[n], t1, t2, slot);
    WriterIsTimely(ttl, st, acts, delta, n, t1);
    WriterIsTimely(ttl, st, acts, delta, n, t2);
  }

  /** With the hold written in the instant of its lock, a slot without a row has one holder per
      spelling of its room at most. */
  lemma OneHolder(ttl: int, st: seq<State>, acts: seq<Action>, n: nat, t1: Token, t2: Token, slot: Slot)
    requires IsRun(ttl, st, acts) && PromptHolds(st, acts, 0) && n < |st| && Free(st[n].rows, slot)
    requires HoldOn(st[n], t1, slot) && HoldOn(st[n], t2, slot) && t1.room == t2.room
    ensures t1 == t2
  {
    if t1.user != t2.user {
      HoldersCoexistBriefly(ttl, st, acts, 0, n, t1, t2, slot);
      InvHolds(ttl, st, acts, n);
      var r1, r2 := Writer(ttl, st[n], t1), Writer(ttl, st[n], t2);
      assert false;
    }
  }

  /** With any delay up to the TTL, it has two at most. */
  lemma TwoHoldersAtMost(ttl: int, st: seq<State>, acts: seq<Action>, delta: int, n: nat,
                         t1: Token, t2: Token, t3: Token, slot: Slot)
    requires IsRun(ttl, st, acts) && PromptHolds(st, acts, delta) && delta <= ttl && n < |st| && Free(st[n].rows, slot)
    requires HoldOn(st[n], t1, slot) && HoldOn(st[n], t2, slot) && HoldOn(st[n], t3, slot)
    requires t1.room == t2.room == t3.room
    ensures t1 == t2 || t2 == t3 || t1 == t3
  {
    InvHolds(ttl, st, acts, n);
    WriterIsTimely(ttl, st, acts, delta, n, t1);
    WriterIsTimely(ttl, st, acts, delta, n, t2);
    WriterIsTimely(ttl, st, acts, delta, n, t3);
    if t1.user != t2.user && t2.user != t3.user && t1.user != t3.user {
      HoldersAreApart(ttl, st[n], t1, t2, slot);
      HoldersAreApart(ttl, st[n], t2, t3, slot);
      HoldersAreApart(ttl, st[n], t1, t3, slot);
    }
  }

  // ----- The slot is the holder's -----

  /** Run `rid` of `user` took the lock of `k` at `at`. */
  predicate Owns(s: State, rid: nat, k: LockKey, user: Uuid, at: int) {
    && rid in s.creates && HasLock(s.creates[rid]) && KeyOf(s.creates[rid].claim) == k
    && s.creates[rid].claim.user == user && s.creates[rid].at == at
  }

  /** From `delta + rho` after the lock until the lock expires, an insert for the slot, if it has no
      row yet, is by the user who took the lock, provided that all requests spell the room as he did. */
  lemma OnlyOwnerTakes(ttl: int, st: seq<State>, acts: seq<Action>, delta: int, rho: int, n: nat, rid: nat,
                       k: LockKey, user: Uuid, at: int, cid: nat)
    requires IsRun(ttl, st, acts) && Timely(st, acts, delta, rho) && n < |acts|
    requires Spelled(acts, k.room.id, {k.room})
    requires Owns(st[n], rid, k, user, at) && Free(st[n].rows, SlotOf(k)) && at + delta + rho <= st[n].now < at + ttl
    requires acts[n] == Insert(cid) && cid in st[n].confirms && st[n].confirms[cid].HoldRead?
    requires st[n].confirms[cid].hold.room.id == k.room.id && st[n].confirms[cid].hold.start == k.start
    ensures st[n].confirms[cid].hold.user == user
  {
    var s := st[n];
    var run := s.confirms[cid];
    var r := run.hold.origin;
    InvHolds(ttl, st, acts, n);
    assert PromptInsert(s, acts[n], rho);
    assert ConfirmOk(ttl, s.now, s.creates, run);
    HoldsAreTimely(ttl, st, acts, delta, n, r);
    ClaimIsSpelled(ttl, st, acts, {k.room}, n, r);
    assert CreateOk(s.now, s.creates[r]);
    assert r != rid ==> Apart(ttl, s.rows, s.creates[r], s.creates[rid]);
  }

  predicate RowOf(row: Row, slot: Slot, user: Uuid) {
    row.room == slot.room && row.start == slot.start && row.user == user
  }

  lemma FreeAfter(rows: seq<Row>, r: Row, slot: Slot)
    requires Free(rows, slot) && !(r.room == slot.room && r.start == slot.start)
    ensures Free(rows + [r], slot)
  {
  }

  lemma OwnerStays(ttl: int, st: seq<State>, acts: seq<Action>, m: nat, j: nat, rid: nat, k: LockKey, user: Uuid,
                   at: int)
    requires IsRun(ttl, st, acts) && m <= j < |st| && Owns(st[m], rid, k, user, at)
    ensures Owns(st[j], rid, k, user, at)
  {
    AcquisitionLasts(ttl, st, acts, m, j, rid);
  }

  lemma RowsFrom(ttl: int, st: seq<State>, acts: seq<Action>, m: nat, n: nat)
    requires IsRun(ttl, st, acts) && m <= n < |acts|
    ensures st[m].now <= st[n].now <= st[n + 1].now
    ensures |st[m].rows| <= |st[n].rows| && st[n].rows <= st[n + 1].rows
  {
    RowsGrow(ttl, st, acts, m, n);
    RowsGrow(ttl, st, acts, n, n + 1);
  }

  /** The user's own row for the slot is among those added after the first `from`. */
  ghost predicate OwnRowSince(rows: seq<Row>, from: nat, slot: Slot, user: Uuid) {
    exists q :: from <= q < |rows| && RowOf(rows[q], slot, user)
  }

  lemma OwnRowStays(rows: seq<Row>, rows': seq<Row>, from: nat, slot: Slot, user: Uuid)
    requires rows <= rows' && OwnRowSince(rows, from, slot, user)
    ensures OwnRowSince(rows', from, slot, user)
  {
    var q :| from <= q < |rows| && RowOf(rows[q], slot, user);
    assert rows'[q] == rows[q];
  }

  /** In that window the slot stays without a row until its owner confirms. */
  lemma {:induction false} SlotStaysFree(ttl: int, st: seq<State>, acts: seq<Action>, delta: int, rho: int,
                                         m: nat, j: nat, rid: nat, k: LockKey, user: Uuid, at: int)
    requires IsRun(ttl, st, acts) && Timely(st, acts, delta, rho) && m <= j < |st|
    requires Spelled(acts, k.room.id, {k.room}) && Owns(st[m], rid, k, user, at) && Free(st[m].rows, SlotOf(k))
    requires at + delta + rho <= st[m].now && st[j].now < at + ttl
    ensures Free(st[j].rows, SlotOf(k)) || OwnRowSince(st[j].rows, |st[m].rows|, SlotOf(k), user)
    decreases j - m
  {
    if m < j {
      var n := j - 1;
      RowsFrom(ttl, st, acts, m, n);
      SlotStaysFree(ttl, st, acts, delta, rho, m, n, rid, k, user, at);
      if OwnRowSince(st[n].rows, |st[m].rows|, SlotOf(k), user) {
        OwnRowStays(st[n].rows, st[j].rows, |st[m].rows|, SlotOf(k), user);
      } else {
        OwnerStays(ttl, st, acts, m, n, rid, k, user, at);
        StaysFreeOneStep(ttl, st, acts, delta, rho, n, rid, k, user, at);
        assert OwnRowSince(st[j].rows, |st[n].rows|, SlotOf(k), user)
               ==> OwnRowSince(st[j].rows, |st[m].rows|, SlotOf(k), user);
      }
    }
  }

  lemma StaysFreeOneStep(ttl: int, st: seq<State>, acts: seq<Action>, delta: int, rho: int, n: nat,
                         rid: nat, k: LockKey, user: Uuid, at: int)
    requires IsRun(ttl, st, acts) && Timely(st, acts, delta, rho) && n < |acts|
    requires Spelled(acts, k.room.id, {k.room}) && Owns(st[n], rid, k, user, at) && Free(st[n].rows, SlotOf(k))
    requires at + delta + rho <= st[n].now < at + ttl
    ensures Free(st[n + 1].rows, SlotOf(k)) || OwnRowSince(st[n + 1].rows, |st[n].rows|, SlotOf(k), user)
  {
    var s, a := st[n], acts[n];
    RowsStep(ttl, s, a);
    if st[n + 1].rows != s.rows {
      var row := RowFor(a.cid, s.confirms[a.cid].hold);
      if row.room == k.room.id && row.start == k.start {
        OnlyOwnerTakes(ttl, st, acts, delta, rho, n, rid, k, user, at, a.cid);
        assert RowOf(st[n + 1].rows[|s.rows|], SlotOf(k), user);
      } else {
        FreeAfter(s.rows, row, SlotOf(k));
      }
    }
  }

  // ----- A fixed slot length -----

  /** The lengths of slots for which the room takes requests, in any state, are among these. A length of
      0 or less takes none. */
  ghost predicate SlotsIn(st: seq<State>, room: Uuid, lengths: set<int>) {
    forall i :: 0 <= i < |st| && room in st[i].rooms && st[i].rooms[room].slotMin > 0
                ==> st[i].rooms[room].slotMin in lengths
  }

  /** The room's slot length is `d` in every state. */
  ghost predicate FixedSlot(st: seq<State>, room: Uuid, d: int) { SlotsIn(st, room, {d}) }

  lemma FixedClaim(ttl: int, st: seq<State>, acts: seq<Action>, d: int, n: nat, rid: nat)
    requires IsRun(ttl, st, acts) && n < |st| && rid in st[n].creates && HasClaim(st[n].creates[rid])
    requires FixedSlot(st, st[n].creates[rid].claim.room.id, d)
    ensures st[n].creates[rid].claim.slotMin == d > 0 && Aligned(st[n].creates[rid].claim.start, d)
  {
    var v := ClaimHistory(ttl, st, acts, n, rid);
  }

  lemma FixedHold(ttl: int, st: seq<State>, acts: seq<Action>, d: int, n: nat, h: Hold)
    requires IsRun(ttl, st, acts) && n < |st| && HoldOk(ttl, st[n].creates, h) && FixedSlot(st, h.room.id, d)
    ensures d > 0 && Aligned(h.start, d) && h.end == SlotEnd(h.start, d)
  {
    FixedClaim(ttl, st, acts, d, n, h.origin);
  }

  lemma FixedRow(ttl: int, st: seq<State>, acts: seq<Action>, d: int, n: nat, i: nat)
    requires IsRun(ttl, st, acts) && n < |st| && i < |st[n].rows| && FixedSlot(st, st[n].rows[i].room, d)
    ensures d > 0 && Aligned(st[n].rows[i].start, d) && st[n].rows[i].end == SlotEnd(st[n].rows[i].start, d)
  {
    InvHolds(ttl, st, acts, n);
    var row := st[n].rows[i];
    assert ConfirmOk(ttl, st[n].now, st[n].creates, st[n].confirms[row.id]);
    FixedHold(ttl, st, acts, d, n, st[n].confirms[row.id].hold);
  }

  /** With a slot length that divides the hour, only a row at the very same start can refuse an insert. */
  lemma FreeSlotAccepts(ttl: int, st: seq<State>, acts: seq<Action>, d: int, n: nat, cid: nat)
    requires IsRun(ttl, st, acts) && n < |st| && cid in st[n].confirms && st[n].confirms[cid].HoldRead?
    requires var h := st[n].confirms[cid].hold;
             FixedSlot(st, h.room.id, d) && d > 0 && 60 % d == 0 && Free(st[n].rows, SlotOf(LockOf(h)))
    ensures InsertAllowed(st[n].rows, RowFor(cid, st[n].confirms[cid].hold))
  {
    var s := st[n];
    var h := s.confirms[cid].hold;
    InvHolds(ttl, st, acts, n);
    assert ConfirmOk(ttl, s.now, s.creates, s.confirms[cid]);
    FixedHold(ttl, st, acts, d, n, h);
    forall i | 0 <= i < |s.rows| ensures !Conflict(s.rows[i], RowFor(cid, h)) {
      if s.rows[i].room == h.room.id {
        FixedRow(ttl, st, acts, d, n, i);
        AlignedStartsAreApart(s.rows[i].start, h.start, d);
      }
    }
  }

  lemma BookedSlotRefuses(ttl: int, st: seq<State>, acts: seq<Action>, n: nat, cid: nat)
    requires IsRun(ttl, st, acts) && n < |st| && cid in st[n].confirms && st[n].confirms[cid].HoldRead?
    requires !Free(st[n].rows, SlotOf(LockOf(st[n].confirms[cid].hold)))
    ensures !InsertAllowed(st[n].rows, RowFor(cid, st[n].confirms[cid].hold))
  {
    var s := st[n];
    var h := s.confirms[cid].hold;
    InvHolds(ttl, st, acts, n);
    assert ConfirmOk(ttl, s.now, s.creates, s.confirms[cid]);
    assert CreateOk(s.now, s.creates[h.origin]);
    var i :| 0 <= i < |s.rows| && s.rows[i].room == h.room.id && s.rows[i].start == h.start;
    assert Conflict(s.rows[i], RowFor(cid, h));
  }

  // ----- The hold guarantee -----

  /** What a hold is worth under delays: if its slot has no row at some state at least `delta + rho`
      after the lock, and all requests spell the room as its owner did, the owner's first insert before
      the lock expires succeeds. */
  lemma HoldWorth(ttl: int, st: seq<State>, acts: seq<Action>, delta: int, rho: int, d: int, m: nat, j: nat, cid: nat,
                  at: int)
    requires IsRun(ttl, st, acts) && Timely(st, acts, delta, rho) && m <= j < |acts|
    requires acts[j] == Insert(cid) && cid in st[j].confirms && st[j].confirms[cid].HoldRead?
    requires var h := st[j].confirms[cid].hold;
             && Owns(st[m], h.origin, LockOf(h), h.user, at)
             && Free(st[m].rows, SlotOf(LockOf(h))) && !OwnRowSince(st[j].rows, |st[m].rows|, SlotOf(LockOf(h)), h.user)
             && Spelled(acts, h.room.id, {h.room}) && FixedSlot(st, h.room.id, d)
    requires at + delta + rho <= st[m].now && st[j].now < at + ttl
    requires d > 0 && 60 % d == 0
    ensures InsertedAt(st, acts, j, RowFor(cid, st[j].confirms[cid].hold))
  {
    var h := st[j].confirms[cid].hold;
    SlotStaysFree(ttl, st, acts, delta, rho, m, j, h.origin, LockOf(h), h.user, at);
    FreeSlotAccepts(ttl, st, acts, d, j, cid);
    assert st[j + 1] == Step(ttl, st[j], acts[j]);
    InsertOf(st[j], cid, st[j].confirms[cid].token, h, st[j].confirms[cid].at);
  }

  /** Step `j` is a confirm's insert of a hold whose lock was tried in step `i`, and the hold's user has
      got no row for the slot in between. */
  ghost predicate FirstConfirm(st: seq<State>, acts: seq<Action>, i: nat, j: nat, cid: nat)
    requires |st| == |acts| + 1
  {
    && i < j < |acts| && acts[j] == Insert(cid) && cid in st[j].confirms && st[j].confirms[cid].HoldRead?
    && var h := st[j].confirms[cid].hold;
    && acts[i] == Acquire(h.origin) && h.origin in st[i].creates && st[i].creates[h.origin].Validated?
    && !OwnRowSince(st[j].rows, |st[i].rows|, SlotOf(LockOf(h)), h.user)
  }

  ghost predicate Honoured(st: seq<State>, acts: seq<Action>, i: nat, j: nat, cid: nat)
    requires |st| == |acts| + 1 && FirstConfirm(st, acts, i, j, cid)
  {
    var h := st[j].confirms[cid].hold;
    InsertedAt(st, acts, j, RowFor(cid, h)) <==> Free(st[i].rows, SlotOf(LockOf(h)))
  }

  /** The hold guarantee. When lock and hold, and read and insert, each fall in one instant, and all
      requests spell the room the same, the owner's first confirm of a live hold succeeds if and only if
      the slot had no row when the lock was taken; no interleaving with other users changes that. */
  lemma HoldIsHonoured(ttl: int, st: seq<State>, acts: seq<Action>, d: int, i: nat, j: nat, cid: nat)
    requires IsRun(ttl, st, acts) && Timely(st, acts, 0, 0) && FirstConfirm(st, acts, i, j, cid)
    requires var h := st[j].confirms[cid].hold; Spelled(acts, h.room.id, {h.room}) && FixedSlot(st, h.room.id, d)
    requires d > 0 && 60 % d == 0
    ensures Honoured(st, acts, i, j, cid)
  {
    var h := st[j].confirms[cid].hold;
    var slot := SlotOf(LockOf(h));
    RowsGrow(ttl, st, acts, i, j);
    if Free(st[i].rows, slot) {
      LiveHoldBeforeLockExpiry(ttl, st, acts, i, j, cid);
      HoldWorth(ttl, st, acts, 0, 0, d, i + 1, j, cid, st[i].now);
    } else {
      assert !Free(st[j].rows, slot) by {
        var q :| 0 <= q < |st[i].rows| && st[i].rows[q].room == slot.room && st[i].rows[q].start == slot.start;
        assert st[j].rows[q] == st[i].rows[q];
      }
      BookedSlotRefuses(ttl, st, acts, j, cid);
    }
  }

  lemma LiveHoldBeforeLockExpiry(ttl: int, st: seq<State>, acts: seq<Action>, i: nat, j: nat, cid: nat)
    requires IsRun(ttl, st, acts) && Timely(st, acts, 0, 0) && FirstConfirm(st, acts, i, j, cid)
    ensures var h := st[j].confirms[cid].hold;
            && st[i + 1].rows == st[i].rows && st[i + 1].now == st[i].now && st[j].now < st[i].now + ttl
            && Owns(st[i + 1], h.origin, LockOf(h), h.user, st[i].now)
  {
    var s := st[j];
    var h := s.confirms[cid].hold;
    InvHolds(ttl, st, acts, j);
    assert ConfirmOk(ttl, s.now, s.creates, s.confirms[cid]) && HoldOk(ttl, s.creates, h);
    HoldsAreTimely(ttl, st, acts, 0, j, h.origin);
    assert PromptInsert(s, acts[j], 0);
    TriedRun(ttl, st, acts, i, h.origin);
    RefusedRunStays(ttl, st, acts, i + 1, j, h.origin);
    AcquisitionLasts(ttl, st, acts, i + 1, j, h.origin);
  }

  /** Trying the lock: the run gets it at that moment, or is refused. */
  lemma TriedRun(ttl: int, st: seq<State>, acts: seq<Action>, i: nat, rid: nat)
    requires IsRun(ttl, st, acts) && i < |acts| && acts[i] == Acquire(rid)
    requires rid in st[i].creates && st[i].creates[rid].Validated?
    ensures st[i + 1].rows == st[i].rows && st[i + 1].now == st[i].now && rid in st[i + 1].creates
    ensures st[i + 1].creates[rid].CreateFailed?
            || st[i + 1].creates[rid] == Locked(st[i].creates[rid].claim, st[i].now)
  {
    assert st[i + 1] == Step(ttl, st[i], acts[i]);
  }

  /** A refused create run never gets a lock. */
  lemma {:induction false} RefusedRunStays(ttl: int, st: seq<State>, acts: seq<Action>, i: nat, j: nat, rid: nat)
    requires IsRun(ttl, st, acts) && i <= j < |st| && rid in st[i].creates
    ensures st[i].creates[rid].CreateFailed? ==> rid in st[j].creates && st[j].creates[rid].CreateFailed?
    decreases j - i
  {
    if i < j && st[i].creates[rid].CreateFailed? {
      var p := j - 1;
      RefusedRunStays(ttl, st, acts, i, p, rid);
      StepKeepsCreate(ttl, st[p], acts[p], rid);
      StepOnCreate(ttl, st[p], acts[p], rid);
    }
  }
}
