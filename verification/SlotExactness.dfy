/** The exact conditions, over all executions, under which locks keep intervals apart, slots have few
    holders and holds are honoured. Each is proved in both directions. */
module SlotExactness {
  import opened Slots
  import opened Text
  import opened Ids
  import opened Protocol
  import opened ProtocolInvariant
  import opened HoldGuarantee
  import opened Executions

  /** The ways in which requests spell one room. */
  ghost predicate SpellingsOf(room: Uuid, spellings: set<RoomText>) {
    spellings != {} && forall q :: q in spellings ==> q.id == room
  }

  lemma OneSpelling(spellings: set<RoomText>) returns (q: RoomText)
    requires |spellings| == 1
    ensures spellings == {q}
  {
    q :| q in spellings;
    assert |spellings - {q}| == 0;
    assert spellings == {q} + (spellings - {q});
  }

  lemma TwoSpellings(spellings: set<RoomText>) returns (q: RoomText, r: RoomText)
    requires |spellings| > 1
    ensures q in spellings && r in spellings && q != r
  {
    q :| q in spellings;
    assert |spellings - {q}| > 0;
    r :| r in spellings - {q};
  }

  lemma ThreeSpellings(spellings: set<RoomText>) returns (q: RoomText, r: RoomText, u: RoomText)
    requires |spellings| > 2
    ensures q in spellings && r in spellings && u in spellings && q != r && r != u && q != u
  {
    q, r := TwoSpellings(spellings);
    assert |spellings - {q} - {r}| > 0;
    u :| u in spellings - {q} - {r};
  }

  lemma TwoAtMost(spellings: set<RoomText>, q: RoomText, r: RoomText, u: RoomText)
    requires |spellings| <= 2 && q in spellings && r in spellings && u in spellings
    ensures q == r || r == u || q == u
  {
    if q != r && r != u && q != u {
      assert {q, r, u} <= spellings;
      SubsetIsNoLarger({q, r, u}, spellings);
    }
  }

  lemma {:induction false} SubsetIsNoLarger(a: set<RoomText>, b: set<RoomText>)
    requires a <= b
    ensures |a| <= |b|
  {
    if a != {} {
      var x :| x in a;
      SubsetIsNoLarger(a - {x}, b - {x});
    }
  }

  lemma FewerSpellings(acts: seq<Action>, room: Uuid, few: set<RoomText>, spellings: set<RoomText>)
    requires Spelled(acts, room, few) && few <= spellings
    ensures Spelled(acts, room, spellings)
  {
  }

  lemma FewerLengths(st: seq<State>, room: Uuid, few: set<int>, lengths: set<int>)
    requires SlotsIn(st, room, few) && few <= lengths
    ensures SlotsIn(st, room, lengths)
  {
  }

  /** The slot lengths with which the room takes requests. */
  ghost predicate LengthsOf(lengths: set<int>) {
    (exists d :: d in lengths) && forall d :: d in lengths ==> d > 0
  }

  /** There is one length, and it divides the hour. */
  ghost predicate OneDividesHour(lengths: set<int>) { exists d :: lengths == {d} && d > 0 && 60 % d == 0 }

  /** Two claims of one room. */
  lemma BothAsk(room: Uuid, d: int, c: Claim, e: Claim)
    requires d > 0 && c.room.id == room && e.room.id == room && c.slotMin == d && e.slotMin == d
    requires c.start >= 0 && e.start >= 0 && Aligned(c.start, d) && Aligned(e.start, d)
    ensures Asks(Start(OneRoom(room, d)), c) && Asks(Start(OneRoom(room, d)), e)
  {
  }

  // ----- Overlapping claims -----

  /** Two claims of one room, with these spellings and lengths, that both pass and overlap. */
  ghost predicate Overlapping(room: Uuid, spellings: set<RoomText>, lengths: set<int>, p: Pair) {
    && ProperPair(p) && p.c.user != p.e.user && p.c.room.id == room && p.e.room.id == room
    && p.c.room in spellings && p.e.room in spellings && p.c.slotMin in lengths && p.e.slotMin in lengths
    && !Disjoint(p.c.start, SlotEnd(p.c.start, p.c.slotMin), p.e.start, SlotEnd(p.e.start, p.e.slotMin))
  }

  /** Two spellings of the room: both users claim the very same slot. */
  lemma SpellingsOverlap(room: Uuid, spellings: set<RoomText>, lengths: set<int>, d: int, q: RoomText, r: RoomText)
    returns (p: Pair)
    requires d in lengths && d > 0 && q.id == room && r.id == room && q in spellings && r in spellings && q != r
    ensures Overlapping(room, spellings, lengths, p)
  {
    MinuteIsAligned(60, d, 0);
    BothAsk(room, d, Claim(1, q, HOUR, d), Claim(2, r, HOUR, d));
    p := SameRooms(OneRoom(room, d), Claim(1, q, HOUR, d), Claim(2, r, HOUR, d));
    ClaimIsProper(p.rooms, p.c);
  }

  /** A length that does not divide the hour: the last slot of an hour and the first of the next. */
  lemma CrossingOverlaps(room: Uuid, spellings: set<RoomText>, lengths: set<int>, d: int, q: RoomText) returns (p: Pair)
    requires d in lengths && d > 0 && 60 % d != 0 && q.id == room && q in spellings
    ensures Overlapping(room, spellings, lengths, p)
  {
    var s := LastSlotOfHourOverlaps(d);
    BothAsk(room, d, Claim(1, q, s, d), Claim(2, q, HOUR, d));
    p := SameRooms(OneRoom(room, d), Claim(1, q, s, d), Claim(2, q, HOUR, d));
    ClaimIsProper(p.rooms, p.c);
    ClaimIsProper(p.rooms, p.e);
  }

  /** The room of its owner 0. */
  function OwnedRoom(room: Uuid, d: int): map<Uuid, Room> { map[room := Room(Some(0), d)] }

  lemma SecondSlotIsAligned(d: int)
    requires 0 < d < 60
    ensures Aligned(HOUR + d * MINUTE, d)
  {
    MinuteIsAligned(60 + d, d, 1);
  }

  /** Two lengths that divide the hour: the second short slot of an hour is claimed, the slots are made
      longer, and the first long slot is claimed. */
  lemma UpdateOverlaps(room: Uuid, spellings: set<RoomText>, lengths: set<int>, d1: int, d2: int, q: RoomText)
    returns (p: Pair)
    requires d1 in lengths && d2 in lengths && 0 < d1 < d2 && 60 % d2 == 0 && q.id == room && q in spellings
    ensures Overlapping(room, spellings, lengths, p)
  {
    var c, e := Claim(1, q, HOUR + d1 * MINUTE, d1), Claim(2, q, HOUR, d2);
    assert d2 <= 60;
    SecondSlotIsAligned(d1);
    MinuteIsAligned(60, d2, 0);
    p := Pair(OwnedRoom(room, d1), UpdateRoom(room, 0, Some(d2)), OwnedRoom(room, d2), c, e);
    assert Asks(Start(p.rooms), c) && Asks(Start(p.after), e);
    assert UpdateRoomStep(Start(p.rooms), room, 0, Some(d2)).rooms == p.after;
  }

  lemma OneDividesHourWhen(lengths: set<int>, d: int)
    requires d in lengths && d > 0
    ensures OneDividesHour(lengths) <==> 60 % d == 0 && forall e :: e in lengths ==> e == d
  {
    if forall e :: e in lengths ==> e == d {
      assert lengths == {d};
    }
  }

  /** Without one spelling and one length that divides the hour, there are overlapping claims. */
  lemma OverlapExists(room: Uuid, spellings: set<RoomText>, lengths: set<int>, q: RoomText, d: int) returns (p: Pair)
    requires SpellingsOf(room, spellings) && LengthsOf(lengths) && q in spellings && d in lengths
    requires !(|spellings| == 1 && OneDividesHour(lengths))
    ensures Overlapping(room, spellings, lengths, p)
  {
    OneDividesHourWhen(lengths, d);
    if |spellings| > 1 {
      var q1, q2 := TwoSpellings(spellings);
      p := SpellingsOverlap(room, spellings, lengths, d, q1, q2);
    } else if 60 % d != 0 {
      p := CrossingOverlaps(room, spellings, lengths, d, q);
    } else {
      var e :| e in lengths && e != d;
      if 60 % e != 0 {
        p := CrossingOverlaps(room, spellings, lengths, e, q);
      } else {
        p := UpdateOverlaps(room, spellings, lengths, if d < e then d else e, if d < e then e else d, q);
      }
    }
  }

  // ----- Live locks -----

  /** The end of the slot that a lock is for: that of the claim behind it. */
  function LockEnd(s: State, k: LockKey): int {
    if k in s.locks && s.locks[k].val in s.creates && HasClaim(s.creates[s.locks[k].val])
    then SlotEnd(k.start, s.creates[s.locks[k].val].claim.slotMin)
    else k.start
  }

  /** In every execution with these slot lengths and spellings, the intervals of the room's live locks are
      disjoint. */
  ghost predicate LocksNeverOverlap(ttl: int, room: Uuid, spellings: set<RoomText>, lengths: set<int>) {
    forall st: seq<State>, acts: seq<Action>, n: nat, k1, k2 ::
      IsRun(ttl, st, acts) && Spelled(acts, room, spellings) && SlotsIn(st, room, lengths) && n < |st| && k1 != k2
      && LockLive(st[n], k1) && LockLive(st[n], k2) && k1.room.id == room && k2.room.id == room
      ==> Disjoint(k1.start, LockEnd(st[n], k1), k2.start, LockEnd(st[n], k2))
  }

  lemma LockIsAligned(ttl: int, st: seq<State>, acts: seq<Action>, spellings: set<RoomText>, d: int, n: nat, k: LockKey)
    requires IsRun(ttl, st, acts) && FixedSlot(st, k.room.id, d) && Spelled(acts, k.room.id, spellings)
    requires n < |st| && k in st[n].locks
    ensures d > 0 && Aligned(k.start, d) && k.room in spellings && LockEnd(st[n], k) == SlotEnd(k.start, d)
  {
    InvHolds(ttl, st, acts, n);
    assert LockOk(ttl, st[n].creates, k, st[n].locks[k]);
    FixedClaim(ttl, st, acts, d, n, st[n].locks[k].val);
    ClaimIsSpelled(ttl, st, acts, spellings, n, st[n].locks[k].val);
  }

  lemma OverlappingLocks(ttl: int, room: Uuid, spellings: set<RoomText>, lengths: set<int>, p: Pair)
    requires ttl > 0 && Overlapping(room, spellings, lengths, p)
    ensures !LocksNeverOverlap(ttl, room, spellings, lengths)
  {
    var st, acts := TwoBookingsExecution(ttl, p);
    FewerSpellings(acts, room, {p.c.room, p.e.room}, spellings);
    FewerLengths(st, room, {p.c.slotMin, p.e.slotMin}, lengths);
    BothLocked(ttl, p, st[7]);
  }

  lemma BothLocked(ttl: int, p: Pair, s: State)
    requires ttl > 0 && KeyOf(p.c) != KeyOf(p.e) && s == BothHeld(ttl, p)
    ensures LockLive(s, KeyOf(p.c)) && LockLive(s, KeyOf(p.e))
    ensures LockEnd(s, KeyOf(p.c)) == SlotEnd(p.c.start, p.c.slotMin)
            && LockEnd(s, KeyOf(p.e)) == SlotEnd(p.e.start, p.e.slotMin)
  {
  }

  /** Live locks keep apart, in every execution, exactly when all requests spell the room the same and it
      has one slot length, which divides the hour. */
  lemma LocksApartExactly(ttl: int, room: Uuid, spellings: set<RoomText>, lengths: set<int>)
    requires ttl > 0 && SpellingsOf(room, spellings) && LengthsOf(lengths)
    ensures LocksNeverOverlap(ttl, room, spellings, lengths) <==> |spellings| == 1 && OneDividesHour(lengths)
  {
    if |spellings| == 1 && OneDividesHour(lengths) {
      var q := OneSpelling(spellings);
      var d :| lengths == {d} && d > 0 && 60 % d == 0;
      forall st: seq<State>, acts: seq<Action>, n: nat, k1, k2 |
        IsRun(ttl, st, acts) && Spelled(acts, room, spellings) && SlotsIn(st, room, lengths) && n < |st| && k1 != k2
        && LockLive(st[n], k1) && LockLive(st[n], k2) && k1.room.id == room && k2.room.id == room
        ensures Disjoint(k1.start, LockEnd(st[n], k1), k2.start, LockEnd(st[n], k2))
      {
        LockIsAligned(ttl, st, acts, spellings, d, n, k1);
        LockIsAligned(ttl, st, acts, spellings, d, n, k2);
        AlignedStartsAreApart(k1.start, k2.start, d);
      }
    } else {
      var q :| q in spellings;
      var d :| d in lengths;
      var p := OverlapExists(room, spellings, lengths, q, d);
      OverlappingLocks(ttl, room, spellings, lengths, p);
    }
  }

  // ----- Holders of a slot -----

  /** In every execution with these spellings, in which holds come at most `delta` after their locks, a
      slot of the room without a row has one holder at most. */
  ghost predicate OneHolderAlways(ttl: int, room: Uuid, spellings: set<RoomText>, delta: int) {
    forall st: seq<State>, acts: seq<Action>, n: nat, t1, t2, start ::
      IsRun(ttl, st, acts) && PromptHolds(st, acts, delta) && Spelled(acts, room, spellings) && n < |st|
      && Free(st[n].rows, Slot(room, start)) && HoldOn(st[n], t1, Slot(room, start))
      && HoldOn(st[n], t2, Slot(room, start))
      ==> t1 == t2
  }

  ghost predicate TwoHoldersAlways(ttl: int, room: Uuid, spellings: set<RoomText>, delta: int) {
    forall st: seq<State>, acts: seq<Action>, n: nat, t1, t2, t3, start ::
      IsRun(ttl, st, acts) && PromptHolds(st, acts, delta) && Spelled(acts, room, spellings) && n < |st|
      && Free(st[n].rows, Slot(room, start)) && HoldOn(st[n], t1, Slot(room, start))
      && HoldOn(st[n], t2, Slot(room, start))
      && HoldOn(st[n], t3, Slot(room, start))
      ==> t1 == t2 || t2 == t3 || t1 == t3
  }

  lemma HoldIsSpelled(ttl: int, st: seq<State>, acts: seq<Action>, spellings: set<RoomText>, n: nat, t: Token)
    requires IsRun(ttl, st, acts) && n < |st| && t in st[n].holds && Spelled(acts, t.room.id, spellings)
    ensures t.room in spellings
  {
    InvHolds(ttl, st, acts, n);
    assert HoldOk(ttl, st[n].creates, st[n].holds[t]);
    ClaimIsSpelled(ttl, st, acts, spellings, n, st[n].holds[t].origin);
  }

  /** Longer delays and more spellings allow more executions. */
  lemma SlowerHolds(st: seq<State>, acts: seq<Action>, delta: int, delta': int)
    requires |st| == |acts| + 1 && PromptHolds(st, acts, delta) && delta <= delta'
    ensures PromptHolds(st, acts, delta')
  {
    forall i | 0 <= i < |acts| ensures PromptHold(st[i], acts[i], delta') {
      assert PromptHold(st[i], acts[i], delta);
    }
  }

  lemma TwoSpellingsTwoHolders(ttl: int, room: Uuid, spellings: set<RoomText>, delta: int, q: RoomText, r: RoomText)
    requires ttl > 0 && delta >= 0 && q.id == room && r.id == room && q in spellings && r in spellings && q != r
    ensures !OneHolderAlways(ttl, room, spellings, delta)
  {
    var c, e := Claim(1, q, 0, 60), Claim(2, r, 0, 60);
    BothAsk(room, 60, c, e);
    var p := SameRooms(OneRoom(room, 60), c, e);
    var st, acts := TwoBookingsExecution(ttl, p);
    FewerSpellings(acts, room, {q, r}, spellings);
    SlowerHolds(st, acts, 0, delta);
    BothHolders(ttl, p, st[7], Slot(room, 0));
  }

  lemma BothHolders(ttl: int, p: Pair, s: State, slot: Slot)
    requires ttl > 0 && KeyOf(p.c) != KeyOf(p.e) && s == BothHeld(ttl, p)
    requires p.c.room.id == slot.room && p.e.room.id == slot.room && p.c.start == slot.start && p.e.start == slot.start
    ensures HoldOn(s, Token(p.c.room, p.c.start, p.c.user), slot)
            && HoldOn(s, Token(p.e.room, p.e.start, p.e.user), slot)
    ensures Free(s.rows, slot)
  {
  }

  lemma DelayTwoHolders(ttl: int, room: Uuid, spellings: set<RoomText>, delta: int, q: RoomText)
    requires ttl > 0 && delta > 0 && q.id == room && q in spellings
    ensures !OneHolderAlways(ttl, room, spellings, delta)
  {
    var st, acts := LateExecution(ttl, q, 60, 1);
    FewerSpellings(acts, room, {q}, spellings);
    SlowerHolds(st, acts, 1, delta);
    LateHolders(ttl, q, 60);
    assert HoldOn(st[10], Token(q, 0, 1), Slot(room, 0)) && HoldOn(st[10], Token(q, 0, 2), Slot(room, 0));
    assert Free(st[10].rows, Slot(room, 0));
  }

  lemma LateHolders(ttl: int, q: RoomText, d: int)
    requires ttl > 0
    ensures var s := SecondHolds(ttl, q, d, 1);
            HoldLive(s, Token(q, 0, 1)) && HoldLive(s, Token(q, 0, 2)) && s.rows == []
  {
  }

  /** A slot without a row has one holder at most, in every execution, if and only if the hold falls in
      the instant of its lock and all requests spell the room the same. */
  lemma OneHolderExactly(ttl: int, room: Uuid, spellings: set<RoomText>, delta: nat)
    requires ttl > 0 && SpellingsOf(room, spellings)
    ensures OneHolderAlways(ttl, room, spellings, delta) <==> delta == 0 && |spellings| == 1
  {
    if |spellings| > 1 {
      var q, r := TwoSpellings(spellings);
      TwoSpellingsTwoHolders(ttl, room, spellings, delta, q, r);
    } else if delta > 0 {
      var q :| q in spellings;
      DelayTwoHolders(ttl, room, spellings, delta, q);
    } else {
      var q := OneSpelling(spellings);
      forall st: seq<State>, acts: seq<Action>, n: nat, t1, t2, start |
        IsRun(ttl, st, acts) && PromptHolds(st, acts, delta) && Spelled(acts, room, spellings) && n < |st|
        && Free(st[n].rows, Slot(room, start)) && HoldOn(st[n], t1, Slot(room, start))
        && HoldOn(st[n], t2, Slot(room, start))
        ensures t1 == t2
      {
        HoldIsSpelled(ttl, st, acts, spellings, n, t1);
        HoldIsSpelled(ttl, st, acts, spellings, n, t2);
        OneHolder(ttl, st, acts, n, t1, t2, Slot(room, start));
      }
    }
  }

  /** Three users hold the slot at once. */
  lemma ThreeHolders(ttl: int, room: Uuid, spellings: set<RoomText>, delta: int, q: RoomText, r: RoomText, u: RoomText,
                     b: nat, h: nat, g: nat)
    requires ttl > 0 && b <= h <= g < h + ttl && h <= delta
    requires q in spellings && r in spellings && u in spellings && q.id == room && r.id == room && u.id == room
    requires q == r ==> ttl <= b
    requires r == u ==> b + ttl <= g
    requires q == u ==> ttl <= g
    ensures !TwoHoldersAlways(ttl, room, spellings, delta)
  {
    var c1, c2, c3 := Claim(1, q, 0, 60), Claim(2, r, 0, 60), Claim(3, u, 0, 60);
    BothAsk(room, 60, c1, c2);
    BothAsk(room, 60, c2, c3);
    var st, acts := ThreeHoldsExecution(ttl, OneRoom(room, 60), c1, c2, c3, b, h, g);
    assert Spelled(acts, room, spellings);
    SlowerHolds(st, acts, h, delta);
    assert HoldOn(st[12], Token(q, 0, 1), Slot(room, 0)) && HoldOn(st[12], Token(r, 0, 2), Slot(room, 0));
    assert HoldOn(st[12], Token(u, 0, 3), Slot(room, 0)) && Free(st[12].rows, Slot(room, 0));
  }

  lemma TwoHoldersHold(ttl: int, st: seq<State>, acts: seq<Action>, spellings: set<RoomText>, delta: nat, n: nat,
                       t1: Token, t2: Token, t3: Token, slot: Slot)
    requires IsRun(ttl, st, acts) && PromptHolds(st, acts, delta) && Spelled(acts, slot.room, spellings) && n < |st|
    requires Free(st[n].rows, slot) && HoldOn(st[n], t1, slot) && HoldOn(st[n], t2, slot) && HoldOn(st[n], t3, slot)
    requires (delta == 0 && |spellings| <= 2) || (delta <= ttl && |spellings| == 1)
    ensures t1 == t2 || t2 == t3 || t1 == t3
  {
    HoldIsSpelled(ttl, st, acts, spellings, n, t1);
    HoldIsSpelled(ttl, st, acts, spellings, n, t2);
    HoldIsSpelled(ttl, st, acts, spellings, n, t3);
    if |spellings| == 1 && delta <= ttl {
      var q := OneSpelling(spellings);
      TwoHoldersAtMost(ttl, st, acts, delta, n, t1, t2, t3, slot);
    } else {
      TwoAtMost(spellings, t1.room, t2.room, t3.room);
      if t1.room == t2.room {
        OneHolder(ttl, st, acts, n, t1, t2, slot);
      } else if t2.room == t3.room {
        OneHolder(ttl, st, acts, n, t2, t3, slot);
      } else {
        OneHolder(ttl, st, acts, n, t1, t3, slot);
      }
    }
  }

  /** A slot without a row has two holders at most, in every execution, if and only if there are at most
      two spellings and no delay, or one spelling and a delay up to the TTL. */
  lemma TwoHoldersExactly(ttl: int, room: Uuid, spellings: set<RoomText>, delta: nat)
    requires ttl > 0 && SpellingsOf(room, spellings)
    ensures TwoHoldersAlways(ttl, room, spellings, delta) <==>
              (delta == 0 && |spellings| <= 2) || (delta <= ttl && |spellings| == 1)
  {
    if (delta == 0 && |spellings| <= 2) || (delta <= ttl && |spellings| == 1) {
      forall st: seq<State>, acts: seq<Action>, n: nat, t1, t2, t3, start |
        IsRun(ttl, st, acts) && PromptHolds(st, acts, delta) && Spelled(acts, room, spellings) && n < |st|
        && Free(st[n].rows, Slot(room, start)) && HoldOn(st[n], t1, Slot(room, start))
        && HoldOn(st[n], t2, Slot(room, start))
        && HoldOn(st[n], t3, Slot(room, start))
        ensures t1 == t2 || t2 == t3 || t1 == t3
      {
        TwoHoldersHold(ttl, st, acts, spellings, delta, n, t1, t2, t3, Slot(room, start));
      }
    } else {
      ThreeCanHold(ttl, room, spellings, delta);
    }
  }

  lemma ThreeCanHold(ttl: int, room: Uuid, spellings: set<RoomText>, delta: nat)
    requires ttl > 0 && SpellingsOf(room, spellings)
    requires !((delta == 0 && |spellings| <= 2) || (delta <= ttl && |spellings| == 1))
    ensures !TwoHoldersAlways(ttl, room, spellings, delta)
  {
    if |spellings| > 2 {
      var q, r, u := ThreeSpellings(spellings);
      ThreeHolders(ttl, room, spellings, delta, q, r, u, 0, 0, 0);
    } else if |spellings| > 1 {
      var q, r := TwoSpellings(spellings);
      ThreeHolders(ttl, room, spellings, delta, q, r, q, 1, 1, ttl);
    } else {
      var q :| q in spellings;
      ThreeHolders(ttl, room, spellings, delta, q, q, q, ttl, ttl + 1, ttl + ttl);
    }
  }

  // ----- When a hold is honoured -----

  /** The conclusion of `HoldIsHonoured` in every execution with these slot lengths and spellings of the
      room, in which holds come at most `delta` after their locks and inserts at most `rho` after their
      reads: the owner's first confirm of a live hold inserts its row exactly if the slot had no row when
      its lock was taken. */
  ghost predicate HoldsHonoured(ttl: int, room: Uuid, spellings: set<RoomText>, lengths: set<int>, delta: int,
                                rho: int) {
    forall st: seq<State>, acts: seq<Action>, i: nat, j: nat, cid: nat ::
      IsRun(ttl, st, acts) && Timely(st, acts, delta, rho) && Spelled(acts, room, spellings)
      && SlotsIn(st, room, lengths) && FirstConfirm(st, acts, i, j, cid) && st[j].confirms[cid].hold.room.id == room
      ==> Honoured(st, acts, i, j, cid)
  }

  lemma SlowerInserts(st: seq<State>, acts: seq<Action>, rho: int, rho': int)
    requires |st| == |acts| + 1 && PromptInserts(st, acts, rho) && rho <= rho'
    ensures PromptInserts(st, acts, rho')
  {
    forall i | 0 <= i < |acts| ensures PromptInsert(st[i], acts[i], rho') {
      assert PromptInsert(st[i], acts[i], rho);
    }
  }

  /** One millisecond between lock and hold, or between read and insert, is enough to lose a held slot. */
  lemma DelayBreaksHold(ttl: int, room: Uuid, spellings: set<RoomText>, lengths: set<int>, delta: nat, rho: nat,
                        q: RoomText, d: int)
    requires ttl > 0 && d > 0 && d in lengths && delta + rho > 0 && q.id == room && q in spellings
    ensures !HoldsHonoured(ttl, room, spellings, lengths, delta, rho)
  {
    var x := if delta > 0 then 1 else 0;
    var st, acts := LateExecution(ttl, q, d, x);
    FewerSpellings(acts, room, {q}, spellings);
    FewerLengths(st, room, {d}, lengths);
    SlowerHolds(st, acts, x, delta);
    SlowerInserts(st, acts, 1 - x, rho);
  }

  /** The second of two overlapping held slots to be confirmed is lost. */
  lemma OverlapBreaksHold(ttl: int, room: Uuid, spellings: set<RoomText>, lengths: set<int>, delta: nat, rho: nat,
                          p: Pair)
    requires ttl > 0 && Overlapping(room, spellings, lengths, p)
    ensures !HoldsHonoured(ttl, room, spellings, lengths, delta, rho)
  {
    var st, acts := TwoBookingsExecution(ttl, p);
    FewerSpellings(acts, room, {p.c.room, p.e.room}, spellings);
    FewerLengths(st, room, {p.c.slotMin, p.e.slotMin}, lengths);
    SlowerHolds(st, acts, 0, delta);
    SlowerInserts(st, acts, 0, rho);
    OverlapIsRefused(ttl, room, p, st, acts);
  }

  lemma OverlapIsRefused(ttl: int, room: Uuid, p: Pair, st: seq<State>, acts: seq<Action>)
    requires TwoBookingsRun(ttl, p, st, acts) && p.c.user != p.e.user && p.c.room.id == room && p.e.room.id == room
    requires !Disjoint(p.c.start, SlotEnd(p.c.start, p.c.slotMin), p.e.start, SlotEnd(p.e.start, p.e.slotMin))
    ensures FirstConfirm(st, acts, 1, 10, 1) && st[10].confirms[1].hold.room == p.c.room
            && !Honoured(st, acts, 1, 10, 1)
  {
    TwoBookingsUnfold(ttl, p, st, acts);
    ClaimIsProper(p.rooms, p.c);
    ClaimIsProper(p.after, p.e);
    var h := HoldOf(ttl, p.c, 0);
    assert Conflict(st[10].rows[0], RowFor(1, h));
    assert !RowOf(st[10].rows[0], SlotOf(LockOf(h)), p.c.user);
  }

  /** When the slot does not divide the hour, a held slot can be lost to the hold of an overlapping one. */
  lemma CrossingBreaksHold(ttl: int, room: Uuid, q: RoomText, d: int)
    requires ttl > 0 && d > 0 && 60 % d != 0 && q.id == room
    ensures !HoldsHonoured(ttl, room, {q}, {d}, 0, 0)
  {
    var p := CrossingOverlaps(room, {q}, {d}, d, q);
    OverlapBreaksHold(ttl, room, {q}, {d}, 0, 0, p);
  }

  /** When two requests spell the room differently, both users lock and hold the same slot, and the one
      who confirms second is refused. */
  lemma SpellingBreaksHold(ttl: int, room: Uuid, q: RoomText, r: RoomText, d: int)
    requires ttl > 0 && d > 0 && q.id == room && r.id == room && q != r
    ensures !HoldsHonoured(ttl, room, {q, r}, {d}, 0, 0)
  {
    var p := SpellingsOverlap(room, {q, r}, {d}, d, q, r);
    OverlapBreaksHold(ttl, room, {q, r}, {d}, 0, 0, p);
  }

  /** When the owner makes the slots longer while one is held, the held slot can be lost to a longer one. */
  lemma UpdateBreaksHold(ttl: int, room: Uuid, q: RoomText, d1: int, d2: int)
    requires ttl > 0 && 0 < d1 < d2 && 60 % d2 == 0 && q.id == room
    ensures !HoldsHonoured(ttl, room, {q}, {d1, d2}, 0, 0)
  {
    var p := UpdateOverlaps(room, {q}, {d1, d2}, d1, d2, q);
    OverlapBreaksHold(ttl, room, {q}, {d1, d2}, 0, 0, p);
  }

  /** Capitals are enough: a room whose id has a letter does not keep the guarantee, without any delay
      and for every slot length, once its id is sent in either case. */
  lemma CapitalsBreakHold(ttl: int, room: Uuid, d: int)
    requires ttl > 0 && d > 0 && HasLetter(room)
    ensures Reads(Canonical(room)) && IsUuid(Canonical(room).text)
    ensures Reads(Capitals(room)) && IsUuid(Capitals(room).text)
    ensures !HoldsHonoured(ttl, room, {Canonical(room), Capitals(room)}, {d}, 0, 0)
  {
    BothSpellingsRead(room);
    SpellingsDifferWithLetters(room);
    SpellingBreaksHold(ttl, room, Canonical(room), Capitals(room), d);
  }

  /** The exact condition of the hold guarantee: it holds in every execution if and only if lock and
      hold, and read and insert, each fall in one instant, all requests spell the room the same, and it
      has one slot length, which divides the hour. */
  lemma HoldsHonouredExactly(ttl: int, room: Uuid, spellings: set<RoomText>, lengths: set<int>, delta: nat, rho: nat)
    requires ttl > 0 && SpellingsOf(room, spellings) && LengthsOf(lengths)
    ensures HoldsHonoured(ttl, room, spellings, lengths, delta, rho) <==>
              delta == 0 && rho == 0 && |spellings| == 1 && OneDividesHour(lengths)
  {
    if !(|spellings| == 1 && OneDividesHour(lengths)) {
      var q :| q in spellings;
      var d :| d in lengths;
      var p := OverlapExists(room, spellings, lengths, q, d);
      OverlapBreaksHold(ttl, room, spellings, lengths, delta, rho, p);
    } else if delta + rho > 0 {
      var q :| q in spellings;
      var d :| d in lengths;
      DelayBreaksHold(ttl, room, spellings, lengths, delta, rho, q, d);
    } else {
      var q := OneSpelling(spellings);
      var d :| lengths == {d} && d > 0 && 60 % d == 0;
      forall st: seq<State>, acts: seq<Action>, i: nat, j: nat, cid: nat |
        IsRun(ttl, st, acts) && Timely(st, acts, 0, 0) && Spelled(acts, room, spellings) && SlotsIn(st, room, lengths)
        && FirstConfirm(st, acts, i, j, cid) && st[j].confirms[cid].hold.room.id == room
        ensures Honoured(st, acts, i, j, cid)
      {
        ReadHoldIsSpelled(ttl, st, acts, spellings, j, cid);
        HoldIsHonoured(ttl, st, acts, d, i, j, cid);
      }
    }
  }

  lemma ReadHoldIsSpelled(ttl: int, st: seq<State>, acts: seq<Action>, spellings: set<RoomText>, n: nat, cid: nat)
    requires IsRun(ttl, st, acts) && n < |st| && cid in st[n].confirms && HasHold(st[n].confirms[cid])
    requires Spelled(acts, st[n].confirms[cid].hold.room.id, spellings)
    ensures st[n].confirms[cid].hold.room in spellings
  {
    InvHolds(ttl, st, acts, n);
    assert ConfirmOk(ttl, st[n].now, st[n].creates, st[n].confirms[cid]);
    ClaimIsSpelled(ttl, st, acts, spellings, n, st[n].confirms[cid].hold.origin);
  }
}
