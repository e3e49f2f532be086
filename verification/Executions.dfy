/** Undisturbed runs of the handlers, and the concrete executions that show where a guarantee ends. */
module Executions {
  import opened Slots
  import opened Text
  import opened Ids
  import opened Protocol
  import opened ProtocolInvariant
  import opened RunHistory
  import opened HoldGuarantee

  // ----- Undisturbed runs -----

  function ExecCreate(ttl: int, s: State, rid: nat, user: Uuid, room: RoomText, start: Option<int>): State {
    WriteHoldStep(ttl, AcquireStep(ttl, ValidateStep(s, rid, user, room, start), rid), rid)
  }

  function ExecConfirm(s: State, cid: nat, user: Uuid, token: Option<Token>): State {
    DeleteLockStep(DeleteHoldStep(InsertStep(ReadHoldStep(s, cid, user, token), cid), cid), cid)
  }

  /** A request for this claim passes the checks. */
  predicate Asks(s: State, c: Claim) { ValidateRequest(s.now, s.rooms, c.user, c.room, Some(c.start)) == Validated(c) }

  /** What an undisturbed create leaves behind. */
  lemma CreateLeaves(ttl: int, s: State, rid: nat, c: Claim)
    requires rid !in s.creates && Asks(s, c) && !LockLive(s, KeyOf(c))
    ensures var h := HoldFor(c, s.now + ttl, rid);
            ExecCreate(ttl, s, rid, c.user, c.room, Some(c.start))
            == s.(locks := s.locks[KeyOf(c) := Lock(rid, s.now + ttl)], holds := s.holds[TokenOf(h) := h],
                  creates := s.creates[rid := Held(c, s.now, s.now)])
  {
    var s' := ValidateStep(s, rid, c.user, c.room, Some(c.start));
    LockAndHold(ttl, s', rid, c);
    assert s'.creates[rid := Held(c, s.now, s.now)] == s.creates[rid := Held(c, s.now, s.now)];
  }

  lemma DeletionsLeave(s: State, cid: nat, t: Token, h: Hold)
    requires cid in s.confirms && s.confirms[cid] == Inserted(t, h)
    ensures DeleteLockStep(DeleteHoldStep(s, cid), cid)
            == s.(holds := s.holds - {t}, locks := s.locks - {LockOf(h)},
                  confirms := s.confirms[cid := Confirmed(t, h)])
  {
    var s' := DeleteHoldStep(s, cid);
    assert s' == s.(holds := s.holds - {t}, confirms := s.confirms[cid := HoldDeleted(t, h)]);
    assert s'.confirms[cid := Confirmed(t, h)] == s.confirms[cid := Confirmed(t, h)];
  }

  lemma BookingLeaves(s: State, cid: nat, t: Token)
    requires cid !in s.confirms && HoldLive(s, t) && InsertAllowed(s.rows, RowFor(cid, s.holds[t]))
    ensures var h := s.holds[t];
            InsertStep(ReadHoldStep(s, cid, h.user, Some(t)), cid)
            == s.(rows := s.rows + [RowFor(cid, h)], confirms := s.confirms[cid := Inserted(t, h)])
  {
    var h := s.holds[t];
    var s' := ReadHoldStep(s, cid, h.user, Some(t));
    assert s' == s.(confirms := s.confirms[cid := HoldRead(t, h, s.now)]);
    InsertOf(s', cid, t, h, s.now);
    assert s'.confirms[cid := Inserted(t, h)] == s.confirms[cid := Inserted(t, h)];
  }

  /** What an undisturbed confirm of a live hold on a free slot leaves behind. */
  lemma ConfirmLeaves(s: State, cid: nat, t: Token)
    requires cid !in s.confirms && HoldLive(s, t) && InsertAllowed(s.rows, RowFor(cid, s.holds[t]))
    ensures var h := s.holds[t];
            ExecConfirm(s, cid, h.user, Some(t))
            == s.(rows := s.rows + [RowFor(cid, h)], holds := s.holds - {t},
                  locks := s.locks - {LockOf(h)}, confirms := s.confirms[cid := Confirmed(t, h)])
  {
    var h := s.holds[t];
    BookingLeaves(s, cid, t);
    var s' := s.(rows := s.rows + [RowFor(cid, h)], confirms := s.confirms[cid := Inserted(t, h)]);
    DeletionsLeave(s', cid, t, h);
    assert s'.confirms[cid := Confirmed(t, h)] == s.confirms[cid := Confirmed(t, h)];
  }

  // ----- Building an execution -----

  /** The states an execution passes through. */
  function States(ttl: int, s: State, acts: seq<Action>): (st: seq<State>)
    ensures |st| == |acts| + 1 && st[0] == s
    ensures forall i :: 0 <= i < |acts| ==> st[i + 1] == Step(ttl, st[i], acts[i])
    decreases |acts|
  {
    if acts == [] then [s]
    else
      var rest := States(ttl, Step(ttl, s, acts[0]), acts[1..]);
      assert forall i :: 0 < i < |acts| ==> acts[i] == acts[1..][i - 1];
      [s] + rest
  }

  function Start(rooms: map<Uuid, Room>): State { State(0, rooms, map[], map[], [], map[], map[]) }

  lemma StepKeepsRooms(ttl: int, s: State, a: Action)
    requires !a.UpdateRoom?
    ensures Step(ttl, s, a).rooms == s.rooms
  {
    match a
    case Tick(_) =>
    case Validate(_, _, _, _) =>
    case Acquire(_) =>
    case WriteHold(_) =>
    case ReadHold(_, _, _) => ConfirmStepsKeepCreates(ttl, s, a);
    case Insert(_) => ConfirmStepsKeepCreates(ttl, s, a);
    case DeleteHold(_) => ConfirmStepsKeepCreates(ttl, s, a);
    case DeleteLock(_) => ConfirmStepsKeepCreates(ttl, s, a);
  }

  lemma {:induction false} RoomsUntouched(ttl: int, st: seq<State>, acts: seq<Action>, a: nat, i: nat)
    requires |st| == |acts| + 1 && a <= i < |st|
    requires forall k :: a <= k < i ==> st[k + 1] == Step(ttl, st[k], acts[k]) && !acts[k].UpdateRoom?
    ensures st[i].rooms == st[a].rooms
    decreases i - a
  {
    if a < i {
      var p := i - 1;
      RoomsUntouched(ttl, st, acts, a, p);
      StepKeepsRooms(ttl, st[p], acts[p]);
    }
  }

  // ----- What single steps leave -----

  lemma AskLeaves(s: State, rid: nat, c: Claim)
    requires rid !in s.creates && Asks(s, c)
    ensures ValidateStep(s, rid, c.user, c.room, Some(c.start)) == s.(creates := s.creates[rid := Validated(c)])
  {
  }

  lemma TakeLeaves(ttl: int, s: State, rid: nat, c: Claim)
    requires CanTake(s, rid, c)
    ensures AcquireStep(ttl, s, rid) == Taken(ttl, s, rid, c)
  {
  }

  /** The hold of run `rid`, written. */
  function Written(ttl: int, s: State, rid: nat, c: Claim, at: int): State {
    var h := HoldFor(c, s.now + ttl, rid);
    s.(holds := s.holds[TokenOf(h) := h], creates := s.creates[rid := Held(c, at, s.now)])
  }

  // ----- Two holds, and their confirms -----

  /** Claim `c` locks and holds; a room is updated; claim `e` locks and holds under another key; `e` is
      confirmed, then `c`. No time passes. */
  datatype Pair = Pair(rooms: map<Uuid, Room>, update: Action, after: map<Uuid, Room>, c: Claim, e: Claim)

  predicate ProperPair(p: Pair) {
    && KeyOf(p.c) != KeyOf(p.e) && Asks(Start(p.rooms), p.c) && Asks(Start(p.after), p.e)
    && p.update.UpdateRoom?
    && UpdateRoomStep(Start(p.rooms), p.update.id, p.update.user, p.update.slotMin).rooms == p.after
  }

  /** The update changes nothing. */
  function SameRooms(rooms: map<Uuid, Room>, c: Claim, e: Claim): (p: Pair)
    ensures KeyOf(c) != KeyOf(e) && Asks(Start(rooms), c) && Asks(Start(rooms), e) ==> ProperPair(p)
  {
    Pair(rooms, UpdateRoom(c.room.id, 0, None), rooms, c, e)
  }

  function HoldOf(ttl: int, c: Claim, rid: nat): Hold { HoldFor(c, ttl, rid) }

  function TwoBookings(ttl: int, p: Pair): seq<Action> {
    [Validate(0, p.c.user, p.c.room, Some(p.c.start)), Acquire(0), WriteHold(0), p.update,
     Validate(1, p.e.user, p.e.room, Some(p.e.start)), Acquire(1), WriteHold(1),
     ReadHold(0, p.e.user, Some(TokenOf(HoldOf(ttl, p.e, 1)))), Insert(0),
     ReadHold(1, p.c.user, Some(TokenOf(HoldOf(ttl, p.c, 0)))), Insert(1)]
  }

  ghost predicate TwoBookingsRun(ttl: int, p: Pair, st: seq<State>, acts: seq<Action>) {
    && ttl > 0 && ProperPair(p) && acts == TwoBookings(ttl, p) && |st| == 12 && st[0] == Start(p.rooms)
    && forall i :: 0 <= i < 11 ==> st[i + 1] == Step(ttl, st[i], acts[i])
  }

  function OneHeld(ttl: int, p: Pair): State {
    Start(p.rooms).(locks := map[KeyOf(p.c) := Lock(0, ttl)],
                    holds := map[TokenOf(HoldOf(ttl, p.c, 0)) := HoldOf(ttl, p.c, 0)],
                    creates := map[0 := Held(p.c, 0, 0)])
  }

  function BothHeld(ttl: int, p: Pair): State {
    var one := OneHeld(ttl, p);
    one.(rooms := p.after, locks := one.locks[KeyOf(p.e) := Lock(1, ttl)],
         holds := one.holds[TokenOf(HoldOf(ttl, p.e, 1)) := HoldOf(ttl, p.e, 1)],
         creates := one.creates[1 := Held(p.e, 0, 0)])
  }

  /** Validate, lock and hold, one after the other. */
  lemma HeldInThreeSteps(ttl: int, s: State, s1: State, s2: State, s3: State, rid: nat, c: Claim)
    requires rid !in s.creates && Asks(s, c) && !LockLive(s, KeyOf(c))
    requires s1 == ValidateStep(s, rid, c.user, c.room, Some(c.start))
    requires s2 == AcquireStep(ttl, s1, rid) && s3 == WriteHoldStep(ttl, s2, rid)
    ensures s1.rows == s.rows && rid in s1.creates && s1.creates[rid] == Validated(c)
    ensures PromptHold(s2, WriteHold(rid), 0)
    ensures var h := HoldFor(c, s.now + ttl, rid);
            s3 == s.(locks := s.locks[KeyOf(c) := Lock(rid, s.now + ttl)], holds := s.holds[TokenOf(h) := h],
                     creates := s.creates[rid := Held(c, s.now, s.now)])
  {
    CreateLeaves(ttl, s, rid, c);
  }

  lemma FirstSteps(ttl: int, p: Pair, st: seq<State>, acts: seq<Action>)
    requires TwoBookingsRun(ttl, p, st, acts)
    ensures st[1] == ValidateStep(st[0], 0, p.c.user, p.c.room, Some(p.c.start)) && st[2] == AcquireStep(ttl, st[1], 0)
    ensures st[3] == WriteHoldStep(ttl, st[2], 0) && acts[2] == WriteHold(0)
  {
    assert st[1] == Step(ttl, st[0], acts[0]) && st[2] == Step(ttl, st[1], acts[1])
           && st[3] == Step(ttl, st[2], acts[2]);
  }

  lemma FirstHeld(ttl: int, p: Pair, st: seq<State>, acts: seq<Action>)
    requires TwoBookingsRun(ttl, p, st, acts)
    ensures st[1].rows == [] && 0 in st[1].creates && st[1].creates[0].Validated?
    ensures st[3] == OneHeld(ttl, p) && PromptHold(st[2], acts[2], 0)
  {
    FirstSteps(ttl, p, st, acts);
    HeldInThreeSteps(ttl, st[0], st[1], st[2], st[3], 0, p.c);
  }

  lemma RoomUpdated(ttl: int, p: Pair, st: seq<State>, acts: seq<Action>)
    requires TwoBookingsRun(ttl, p, st, acts) && st[3] == OneHeld(ttl, p)
    ensures st[4] == st[3].(rooms := p.after)
  {
    assert st[4] == Step(ttl, st[3], acts[3]);
  }

  lemma SecondSteps(ttl: int, p: Pair, st: seq<State>, acts: seq<Action>)
    requires TwoBookingsRun(ttl, p, st, acts)
    ensures st[5] == ValidateStep(st[4], 1, p.e.user, p.e.room, Some(p.e.start)) && st[6] == AcquireStep(ttl, st[5], 1)
    ensures st[7] == WriteHoldStep(ttl, st[6], 1) && acts[6] == WriteHold(1)
  {
    assert st[5] == Step(ttl, st[4], acts[4]) && st[6] == Step(ttl, st[5], acts[5])
           && st[7] == Step(ttl, st[6], acts[6]);
  }

  lemma SecondCanAsk(ttl: int, p: Pair)
    requires ProperPair(p)
    ensures var s := OneHeld(ttl, p).(rooms := p.after);
            1 !in s.creates && Asks(s, p.e) && !LockLive(s, KeyOf(p.e))
  {
  }

  lemma SecondHeld(ttl: int, p: Pair, st: seq<State>, acts: seq<Action>)
    requires TwoBookingsRun(ttl, p, st, acts) && st[4] == OneHeld(ttl, p).(rooms := p.after)
    ensures st[7] == BothHeld(ttl, p) && PromptHold(st[6], acts[6], 0)
  {
    SecondSteps(ttl, p, st, acts);
    SecondCanAsk(ttl, p);
    HeldInThreeSteps(ttl, st[4], st[5], st[6], st[7], 1, p.e);
  }

  lemma ClaimIsProper(rooms: map<Uuid, Room>, c: Claim)
    requires Asks(Start(rooms), c)
    ensures c.start < SlotEnd(c.start, c.slotMin) && c.room.id in rooms && rooms[c.room.id].slotMin == c.slotMin
  {
  }

  /** Read and insert, one after the other. */
  lemma BookedInTwoSteps(s: State, s1: State, s2: State, cid: nat, t: Token, h: Hold)
    requires cid !in s.confirms && HoldLive(s, t) && s.holds[t] == h && InsertAllowed(s.rows, RowFor(cid, h))
    requires s1 == ReadHoldStep(s, cid, h.user, Some(t)) && s2 == InsertStep(s1, cid)
    ensures s2 == s.(rows := s.rows + [RowFor(cid, h)], confirms := s.confirms[cid := Inserted(t, h)])
    ensures PromptInsert(s1, Insert(cid), 0)
  {
    BookingLeaves(s, cid, t);
  }

  lemma BookingSteps(ttl: int, p: Pair, st: seq<State>, acts: seq<Action>)
    requires TwoBookingsRun(ttl, p, st, acts)
    ensures st[8] == ReadHoldStep(st[7], 0, p.e.user, Some(TokenOf(HoldOf(ttl, p.e, 1))))
            && st[9] == InsertStep(st[8], 0)
    ensures acts[8] == Insert(0)
  {
    assert st[8] == Step(ttl, st[7], acts[7]) && st[9] == Step(ttl, st[8], acts[8]);
  }

  lemma SecondIsLive(ttl: int, p: Pair)
    requires ttl > 0 && ProperPair(p)
    ensures var (s, h) := (BothHeld(ttl, p), HoldOf(ttl, p.e, 1));
            && s.confirms == map[] && s.rows == [] && HoldLive(s, TokenOf(h)) && s.holds[TokenOf(h)] == h
            && InsertAllowed([], RowFor(0, h))
  {
    ClaimIsProper(p.after, p.e);
  }

  lemma SecondBooked(ttl: int, p: Pair, st: seq<State>, acts: seq<Action>)
    requires TwoBookingsRun(ttl, p, st, acts) && st[7] == BothHeld(ttl, p)
    ensures st[9] == st[7].(rows := [RowFor(0, HoldOf(ttl, p.e, 1))],
                            confirms := map[0 := Inserted(TokenOf(HoldOf(ttl, p.e, 1)), HoldOf(ttl, p.e, 1))])
    ensures PromptInsert(st[8], acts[8], 0)
  {
    var h := HoldOf(ttl, p.e, 1);
    BookingSteps(ttl, p, st, acts);
    SecondIsLive(ttl, p);
    BookedInTwoSteps(st[7], st[8], st[9], 0, TokenOf(h), h);
  }

  lemma FirstReads(ttl: int, p: Pair, st: seq<State>, acts: seq<Action>)
    requires TwoBookingsRun(ttl, p, st, acts)
    requires st[9] == BothHeld(ttl, p).(rows := [RowFor(0, HoldOf(ttl, p.e, 1))],
                                        confirms := map[0 := Inserted(TokenOf(HoldOf(ttl, p.e, 1)),
                                                                      HoldOf(ttl, p.e, 1))])
    ensures 1 in st[10].confirms && st[10].confirms[1] == HoldRead(TokenOf(HoldOf(ttl, p.c, 0)), HoldOf(ttl, p.c, 0), 0)
    ensures st[10].rows == st[9].rows && st[10].now == 0 && PromptInsert(st[10], acts[10], 0)
  {
    var h := HoldOf(ttl, p.c, 0);
    assert TokenOf(h) in st[9].holds && st[9].holds[TokenOf(h)] == h;
    assert st[10] == ReadHoldStep(st[9], 1, p.c.user, Some(TokenOf(h)));
  }

  /** Both claims are held; then `e` has its row, and the confirm of `c` is about to insert its own. */
  lemma TwoBookingsUnfold(ttl: int, p: Pair, st: seq<State>, acts: seq<Action>)
    requires TwoBookingsRun(ttl, p, st, acts)
    ensures IsRun(ttl, st, acts) && Timely(st, acts, 0, 0)
    ensures st[1].rows == [] && 0 in st[1].creates && st[1].creates[0].Validated?
    ensures st[3] == OneHeld(ttl, p) && st[7] == BothHeld(ttl, p)
    ensures 1 in st[10].confirms && st[10].confirms[1] == HoldRead(TokenOf(HoldOf(ttl, p.c, 0)), HoldOf(ttl, p.c, 0), 0)
    ensures st[10].rows == [RowFor(0, HoldOf(ttl, p.e, 1))]
  {
    FirstHeld(ttl, p, st, acts);
    RoomUpdated(ttl, p, st, acts);
    SecondHeld(ttl, p, st, acts);
    SecondBooked(ttl, p, st, acts);
    FirstReads(ttl, p, st, acts);
  }

  /** In different rooms, both are booked. */
  lemma BothBooked(ttl: int, p: Pair, st: seq<State>, acts: seq<Action>)
    requires TwoBookingsRun(ttl, p, st, acts) && p.c.room.id != p.e.room.id
    requires 1 in st[10].confirms
             && st[10].confirms[1] == HoldRead(TokenOf(HoldOf(ttl, p.c, 0)), HoldOf(ttl, p.c, 0), 0)
    requires st[10].rows == [RowFor(0, HoldOf(ttl, p.e, 1))]
    ensures st[11].rows == [RowFor(0, HoldOf(ttl, p.e, 1)), RowFor(1, HoldOf(ttl, p.c, 0))]
  {
    ClaimIsProper(p.rooms, p.c);
    assert st[11] == Step(ttl, st[10], acts[10]);
    InsertOf(st[10], 1, TokenOf(HoldOf(ttl, p.c, 0)), HoldOf(ttl, p.c, 0), 0);
  }

  /** Before and after the update the rooms stay as they are. */
  lemma RoomsOfPair(ttl: int, p: Pair, st: seq<State>, acts: seq<Action>, i: nat)
    requires TwoBookingsRun(ttl, p, st, acts) && st[3] == OneHeld(ttl, p) && i < 12
    ensures st[i].rooms == if i < 4 then p.rooms else p.after
  {
    if i < 4 {
      RoomsUntouched(ttl, st, acts, 0, i);
    } else {
      RoomUpdated(ttl, p, st, acts);
      RoomsUntouched(ttl, st, acts, 4, i);
    }
  }

  /** In one room, the claims and their slot lengths are all there is. */
  lemma PairInOneRoom(ttl: int, p: Pair, st: seq<State>, acts: seq<Action>)
    requires TwoBookingsRun(ttl, p, st, acts) && st[3] == OneHeld(ttl, p) && p.c.room.id == p.e.room.id
    ensures SlotsIn(st, p.c.room.id, {p.c.slotMin, p.e.slotMin}) && Spelled(acts, p.c.room.id, {p.c.room, p.e.room})
  {
    ClaimIsProper(p.rooms, p.c);
    ClaimIsProper(p.after, p.e);
    forall i | 0 <= i < |st| ensures st[i].rooms == p.rooms || st[i].rooms == p.after {
      RoomsOfPair(ttl, p, st, acts, i);
    }
  }

  /** The execution in which both claims are held and confirmed. */
  lemma TwoBookingsExecution(ttl: int, p: Pair) returns (st: seq<State>, acts: seq<Action>)
    requires ttl > 0 && ProperPair(p) && p.c.room.id == p.e.room.id
    ensures TwoBookingsRun(ttl, p, st, acts) && IsRun(ttl, st, acts) && Timely(st, acts, 0, 0)
    ensures st[3] == OneHeld(ttl, p) && st[7] == BothHeld(ttl, p)
    ensures SlotsIn(st, p.c.room.id, {p.c.slotMin, p.e.slotMin}) && Spelled(acts, p.c.room.id, {p.c.room, p.e.room})
  {
    acts := TwoBookings(ttl, p);
    st := States(ttl, Start(p.rooms), acts);
    TwoBookingsUnfold(ttl, p, st, acts);
    PairInOneRoom(ttl, p, st, acts);
  }

  lemma TwoRoomsExecution(ttl: int, p: Pair) returns (st: seq<State>, acts: seq<Action>)
    requires ttl > 0 && ProperPair(p) && p.c.room.id != p.e.room.id
    ensures IsRun(ttl, st, acts) && |acts| == 11
    ensures st[11].rows == [RowFor(0, HoldOf(ttl, p.e, 1)), RowFor(1, HoldOf(ttl, p.c, 0))]
  {
    acts := TwoBookings(ttl, p);
    st := States(ttl, Start(p.rooms), acts);
    TwoBookingsUnfold(ttl, p, st, acts);
    BothBooked(ttl, p, st, acts);
  }

  function OneRoom(room: Uuid, d: int): map<Uuid, Room> { map[room := Room(None, d)] }

  // ----- A delay that costs a held slot -----

  // User 1 locks at 0, holds `x` later, reads the hold in its last instant and inserts when the lock has
  // just expired: with x = 1 the hold was late, with x = 0 the insert. In the same instant user 2 has
  // locked and held the slot, and is then refused.

  function FirstClaim(room: RoomText, d: int): Claim { Claim(1, room, 0, d) }

  function SecondClaim(room: RoomText, d: int): Claim { Claim(2, room, 0, d) }

  function FirstHold(ttl: int, room: RoomText, d: int, x: int): Hold { HoldFor(FirstClaim(room, d), x + ttl, 0) }

  function SecondHold(ttl: int, room: RoomText, d: int): Hold { HoldFor(SecondClaim(room, d), ttl + ttl, 1) }

  function LateActions(ttl: int, room: RoomText, x: int): seq<Action>
    requires ttl > 0 && 0 <= x <= 1
  {
    [Validate(0, 1, room, Some(0)), Validate(1, 2, room, Some(0)), Acquire(0), Tick(x), WriteHold(0), Tick(ttl - 1),
     ReadHold(0, 1, Some(Token(room, 0, 1))), Tick(1 - x), Acquire(1), WriteHold(1), Insert(0),
     ReadHold(1, 2, Some(Token(room, 0, 2))), Insert(1)]
  }

  function Requested(room: RoomText, d: int): State {
    Start(OneRoom(room.id, d)).(
      creates := map[0 := Validated(FirstClaim(room, d)), 1 := Validated(SecondClaim(room, d))])
  }

  function FirstLocked(ttl: int, room: RoomText, d: int): State {
    Taken(ttl, Requested(room, d), 0, FirstClaim(room, d))
  }

  /** User 1 holds the slot. */
  function FirstHolds(ttl: int, room: RoomText, d: int, x: int): State {
    Written(ttl, FirstLocked(ttl, room, d).(now := x), 0, FirstClaim(room, d), 0)
  }

  /** The hold was read in its last millisecond; now the lock has expired. */
  function ReadAndExpired(ttl: int, room: RoomText, d: int, x: int): State {
    FirstHolds(ttl, room, d, x).(
      now := ttl,
      confirms := map[0 := HoldRead(Token(room, 0, 1), FirstHold(ttl, room, d, x), x + ttl - 1)])
  }

  /** User 2 holds the slot. */
  function SecondHolds(ttl: int, room: RoomText, d: int, x: int): State {
    Written(ttl, Taken(ttl, ReadAndExpired(ttl, room, d, x), 1, SecondClaim(room, d)), 1, SecondClaim(room, d), ttl)
  }

  /** User 1's insert arrives. */
  function FirstBooked(ttl: int, room: RoomText, d: int, x: int): State {
    SecondHolds(ttl, room, d, x).(rows := [RowFor(0, FirstHold(ttl, room, d, x))],
                                  confirms := map[0 := Inserted(Token(room, 0, 1), FirstHold(ttl, room, d, x))])
  }

  function SecondReads(ttl: int, room: RoomText, d: int, x: int): State {
    FirstBooked(ttl, room, d, x).(
      confirms := map[0 := Inserted(Token(room, 0, 1), FirstHold(ttl, room, d, x)),
                      1 := HoldRead(Token(room, 0, 2), SecondHold(ttl, room, d), ttl)])
  }

  lemma BothRequest(room: RoomText, d: int)
    requires d > 0
    ensures var s := Start(OneRoom(room.id, d));
            ValidateStep(ValidateStep(s, 0, 1, room, Some(0)), 1, 2, room, Some(0)) == Requested(room, d)
  {
    MinuteIsAligned(0, d, 0);
  }

  lemma FirstLocksAndHolds(ttl: int, room: RoomText, d: int, x: int)
    ensures AcquireStep(ttl, Requested(room, d), 0) == FirstLocked(ttl, room, d)
    ensures WriteHoldStep(ttl, FirstLocked(ttl, room, d).(now := x), 0) == FirstHolds(ttl, room, d, x)
    ensures PromptHold(FirstLocked(ttl, room, d).(now := x), WriteHold(0), x)
  {
    var c, s := FirstClaim(room, d), Requested(room, d);
    assert CanTake(s, 0, c);
    TakeLeaves(ttl, s, 0, c);
    WriteHoldOf(ttl, FirstLocked(ttl, room, d).(now := x), 0, c, 0);
  }

  lemma FirstReadsLate(ttl: int, room: RoomText, d: int, x: int)
    requires ttl > 0
    ensures var s := FirstHolds(ttl, room, d, x).(now := x + ttl - 1);
            ReadHoldStep(s, 0, 1, Some(Token(room, 0, 1))).(now := ttl) == ReadAndExpired(ttl, room, d, x)
  {
  }

  lemma SecondLocksAndHolds(ttl: int, room: RoomText, d: int, x: int)
    ensures var s := AcquireStep(ttl, ReadAndExpired(ttl, room, d, x), 1);
            WriteHoldStep(ttl, s, 1) == SecondHolds(ttl, room, d, x) && PromptHold(s, WriteHold(1), 0)
  {
    var c, s := SecondClaim(room, d), ReadAndExpired(ttl, room, d, x);
    assert CanTake(s, 1, c);
    TakeLeaves(ttl, s, 1, c);
    WriteHoldOf(ttl, Taken(ttl, s, 1, c), 1, c, ttl);
  }

  lemma FirstInserts(ttl: int, room: RoomText, d: int, x: int)
    requires d > 0
    ensures InsertStep(SecondHolds(ttl, room, d, x), 0) == FirstBooked(ttl, room, d, x)
    ensures PromptInsert(SecondHolds(ttl, room, d, x), Insert(0), 1 - x)
  {
    InsertOf(SecondHolds(ttl, room, d, x), 0, Token(room, 0, 1), FirstHold(ttl, room, d, x), x + ttl - 1);
  }

  lemma SecondReadsAndLoses(ttl: int, room: RoomText, d: int, x: int)
    requires ttl > 0 && d > 0
    ensures ReadHoldStep(FirstBooked(ttl, room, d, x), 1, 2, Some(Token(room, 0, 2))) == SecondReads(ttl, room, d, x)
    ensures !InsertAllowed(SecondReads(ttl, room, d, x).rows, RowFor(1, SecondHold(ttl, room, d)))
  {
    assert Conflict(SecondReads(ttl, room, d, x).rows[0], RowFor(1, SecondHold(ttl, room, d)));
  }

  ghost predicate LateRun(ttl: int, room: RoomText, d: int, x: int, st: seq<State>, acts: seq<Action>) {
    && ttl > 0 && d > 0 && 0 <= x <= 1 && acts == LateActions(ttl, room, x) && |st| == 14
    && st[0] == Start(OneRoom(room.id, d))
    && forall i :: 0 <= i < 13 ==> st[i + 1] == Step(ttl, st[i], acts[i])
  }

  lemma LateRequests(ttl: int, room: RoomText, d: int, x: int, st: seq<State>, acts: seq<Action>)
    requires LateRun(ttl, room, d, x, st, acts)
    ensures st[2] == Requested(room, d)
  {
    BothRequest(room, d);
    assert st[1] == Step(ttl, st[0], acts[0]) && st[2] == Step(ttl, st[1], acts[1]);
  }

  lemma LateFirstSteps(ttl: int, room: RoomText, d: int, x: int, st: seq<State>, acts: seq<Action>)
    requires LateRun(ttl, room, d, x, st, acts)
    ensures st[3] == AcquireStep(ttl, st[2], 0) && st[4] == st[3].(now := st[3].now + x)
    ensures st[5] == WriteHoldStep(ttl, st[4], 0) && acts[4] == WriteHold(0)
  {
    assert st[3] == Step(ttl, st[2], acts[2]) && st[4] == Step(ttl, st[3], acts[3])
           && st[5] == Step(ttl, st[4], acts[4]);
  }

  lemma LateFirstHold(ttl: int, room: RoomText, d: int, x: int, st: seq<State>, acts: seq<Action>)
    requires LateRun(ttl, room, d, x, st, acts) && st[2] == Requested(room, d)
    ensures st[5] == FirstHolds(ttl, room, d, x) && PromptHold(st[4], acts[4], x)
  {
    LateFirstSteps(ttl, room, d, x, st, acts);
    FirstLocksAndHolds(ttl, room, d, x);
    assert st[3].now == 0;
  }

  lemma LateReadSteps(ttl: int, room: RoomText, d: int, x: int, st: seq<State>, acts: seq<Action>)
    requires LateRun(ttl, room, d, x, st, acts)
    ensures st[6] == st[5].(now := st[5].now + (ttl - 1)) && st[7] == ReadHoldStep(st[6], 0, 1, Some(Token(room, 0, 1)))
    ensures st[8] == st[7].(now := st[7].now + (1 - x))
  {
    assert st[6] == Step(ttl, st[5], acts[5]) && st[7] == Step(ttl, st[6], acts[6])
           && st[8] == Step(ttl, st[7], acts[7]);
  }

  lemma LateRead(ttl: int, room: RoomText, d: int, x: int, st: seq<State>, acts: seq<Action>)
    requires LateRun(ttl, room, d, x, st, acts) && st[5] == FirstHolds(ttl, room, d, x)
    ensures st[8] == ReadAndExpired(ttl, room, d, x)
  {
    FirstReadsLate(ttl, room, d, x);
    LateReadSteps(ttl, room, d, x, st, acts);
  }

  lemma LateHoldSteps(ttl: int, room: RoomText, d: int, x: int, st: seq<State>, acts: seq<Action>)
    requires LateRun(ttl, room, d, x, st, acts)
    ensures st[9] == AcquireStep(ttl, st[8], 1) && st[10] == WriteHoldStep(ttl, st[9], 1) && acts[9] == WriteHold(1)
  {
    assert st[9] == Step(ttl, st[8], acts[8]) && st[10] == Step(ttl, st[9], acts[9]);
  }

  lemma LateSecondHold(ttl: int, room: RoomText, d: int, x: int, st: seq<State>, acts: seq<Action>)
    requires LateRun(ttl, room, d, x, st, acts) && st[8] == ReadAndExpired(ttl, room, d, x)
    ensures st[10] == SecondHolds(ttl, room, d, x) && PromptHold(st[9], acts[9], x)
  {
    SecondLocksAndHolds(ttl, room, d, x);
    LateHoldSteps(ttl, room, d, x, st, acts);
  }

  lemma LateFirstInsert(ttl: int, room: RoomText, d: int, x: int, st: seq<State>, acts: seq<Action>)
    requires LateRun(ttl, room, d, x, st, acts) && st[10] == SecondHolds(ttl, room, d, x)
    ensures st[11] == FirstBooked(ttl, room, d, x) && PromptInsert(st[10], acts[10], 1 - x)
  {
    FirstInserts(ttl, room, d, x);
    assert st[11] == InsertStep(st[10], 0);
  }

  lemma LateSecondRead(ttl: int, room: RoomText, d: int, x: int, st: seq<State>, acts: seq<Action>)
    requires LateRun(ttl, room, d, x, st, acts) && st[11] == FirstBooked(ttl, room, d, x)
    ensures st[12] == SecondReads(ttl, room, d, x) && PromptInsert(st[12], acts[12], 1 - x)
  {
    SecondReadsAndLoses(ttl, room, d, x);
    assert st[12] == ReadHoldStep(st[11], 1, 2, Some(Token(room, 0, 2)));
  }

  lemma LateOutcome(ttl: int, room: RoomText, d: int, x: int, st: seq<State>, acts: seq<Action>)
    requires LateRun(ttl, room, d, x, st, acts) && st[8] == ReadAndExpired(ttl, room, d, x)
    requires st[12] == SecondReads(ttl, room, d, x)
    ensures FirstConfirm(st, acts, 8, 12, 1) && st[12].confirms[1].hold.room == room && !Honoured(st, acts, 8, 12, 1)
  {
    SecondReadsAndLoses(ttl, room, d, x);
    assert !RowOf(st[12].rows[0], Slot(room.id, 0), 2);
  }

  lemma LateUnfolds(ttl: int, room: RoomText, d: int, x: int, st: seq<State>, acts: seq<Action>)
    requires LateRun(ttl, room, d, x, st, acts)
    ensures Timely(st, acts, x, 1 - x)
    ensures st[8] == ReadAndExpired(ttl, room, d, x) && st[10] == SecondHolds(ttl, room, d, x)
    ensures st[12] == SecondReads(ttl, room, d, x)
  {
    LateRequests(ttl, room, d, x, st, acts);
    LateFirstHold(ttl, room, d, x, st, acts);
    LateRead(ttl, room, d, x, st, acts);
    LateSecondHold(ttl, room, d, x, st, acts);
    LateFirstInsert(ttl, room, d, x, st, acts);
    LateSecondRead(ttl, room, d, x, st, acts);
  }

  lemma LateIsProper(ttl: int, room: RoomText, d: int, x: int, st: seq<State>, acts: seq<Action>)
    requires LateRun(ttl, room, d, x, st, acts)
    ensures IsRun(ttl, st, acts) && FixedSlot(st, room.id, d) && Spelled(acts, room.id, {room})
  {
    forall i | 0 <= i < |st| ensures st[i].rooms == OneRoom(room.id, d) {
      RoomsUntouched(ttl, st, acts, 0, i);
    }
  }

  /** The execution with delay `x` between user 1's lock and hold and `1 - x` between his read and insert. */
  lemma LateExecution(ttl: int, room: RoomText, d: int, x: int) returns (st: seq<State>, acts: seq<Action>)
    requires ttl > 0 && d > 0 && 0 <= x <= 1
    ensures IsRun(ttl, st, acts) && Timely(st, acts, x, 1 - x) && FixedSlot(st, room.id, d)
            && Spelled(acts, room.id, {room})
    ensures |acts| == 13 && st[10] == SecondHolds(ttl, room, d, x)
    ensures FirstConfirm(st, acts, 8, 12, 1) && st[12].confirms[1].hold.room == room && !Honoured(st, acts, 8, 12, 1)
  {
    acts := LateActions(ttl, room, x);
    st := States(ttl, Start(OneRoom(room.id, d)), acts);
    LateIsProper(ttl, room, d, x, st, acts);
    LateUnfolds(ttl, room, d, x, st, acts);
    LateOutcome(ttl, room, d, x, st, acts);
  }

  // ----- Three holds -----

  // Three users ask for one slot. The first locks at 0, the second at b; both hold at h; the third locks
  // and holds at g.

  function ThreeHolds(c1: Claim, c2: Claim, c3: Claim, b: nat, h: nat, g: nat): seq<Action>
    requires b <= h <= g
  {
    [Validate(0, c1.user, c1.room, Some(c1.start)), Validate(1, c2.user, c2.room, Some(c2.start)),
     Validate(2, c3.user, c3.room, Some(c3.start)), Acquire(0), Tick(b), Acquire(1), Tick(h - b), WriteHold(0),
     WriteHold(1), Tick(g - h), Acquire(2), WriteHold(2)]
  }

  ghost predicate ThreeHoldsRun(ttl: int, rooms: map<Uuid, Room>, c1: Claim, c2: Claim, c3: Claim,
                                b: nat, h: nat, g: nat, st: seq<State>, acts: seq<Action>) {
    && ttl > 0 && b <= h <= g < h + ttl
    && Asks(Start(rooms), c1) && Asks(Start(rooms), c2) && Asks(Start(rooms), c3)
    && (KeyOf(c1) == KeyOf(c2) ==> ttl <= b) && (KeyOf(c2) == KeyOf(c3) ==> b + ttl <= g)
    && (KeyOf(c1) == KeyOf(c3) ==> ttl <= g)
    && acts == ThreeHolds(c1, c2, c3, b, h, g) && |st| == 13 && st[0] == Start(rooms)
    && forall i :: 0 <= i < 12 ==> st[i + 1] == Step(ttl, st[i], acts[i])
  }

  function Asked(rooms: map<Uuid, Room>, c1: Claim, c2: Claim, c3: Claim): State {
    Start(rooms).(creates := map[0 := Validated(c1), 1 := Validated(c2), 2 := Validated(c3)])
  }

  lemma ThreeAsk(ttl: int, rooms: map<Uuid, Room>, c1: Claim, c2: Claim, c3: Claim, b: nat, h: nat, g: nat,
                 st: seq<State>, acts: seq<Action>)
    requires ThreeHoldsRun(ttl, rooms, c1, c2, c3, b, h, g, st, acts)
    ensures st[3] == Asked(rooms, c1, c2, c3)
  {
    assert st[1] == Step(ttl, st[0], acts[0]) && st[2] == Step(ttl, st[1], acts[1])
           && st[3] == Step(ttl, st[2], acts[2]);
    AskLeaves(st[0], 0, c1);
    AskLeaves(st[1], 1, c2);
    AskLeaves(st[2], 2, c3);
  }

  /** The first two have locked. */
  function TwoLocked(ttl: int, rooms: map<Uuid, Room>, c1: Claim, c2: Claim, c3: Claim, b: nat): State {
    Taken(ttl, Taken(ttl, Asked(rooms, c1, c2, c3), 0, c1).(now := b), 1, c2)
  }

  lemma TwoLock(ttl: int, rooms: map<Uuid, Room>, c1: Claim, c2: Claim, c3: Claim, b: nat, h: nat, g: nat,
                st: seq<State>, acts: seq<Action>)
    requires ThreeHoldsRun(ttl, rooms, c1, c2, c3, b, h, g, st, acts) && st[3] == Asked(rooms, c1, c2, c3)
    ensures st[6] == TwoLocked(ttl, rooms, c1, c2, c3, b)
  {
    assert st[4] == Step(ttl, st[3], acts[3]) && st[5] == Step(ttl, st[4], acts[4])
           && st[6] == Step(ttl, st[5], acts[5]);
    TakeLeaves(ttl, st[3], 0, c1);
    SecondCanTake(ttl, rooms, c1, c2, c3, b);
    TakeLeaves(ttl, st[5], 1, c2);
  }

  lemma SecondCanTake(ttl: int, rooms: map<Uuid, Room>, c1: Claim, c2: Claim, c3: Claim, b: nat)
    requires KeyOf(c1) == KeyOf(c2) ==> ttl <= b
    ensures CanTake(Taken(ttl, Asked(rooms, c1, c2, c3), 0, c1).(now := b), 1, c2)
  {
  }

  /** And now both hold. */
  function TwoHeld(ttl: int, rooms: map<Uuid, Room>, c1: Claim, c2: Claim, c3: Claim, b: nat, h: nat): State {
    Written(ttl, Written(ttl, TwoLocked(ttl, rooms, c1, c2, c3, b).(now := h), 0, c1, 0), 1, c2, b)
  }

  lemma RunsWhenLocked(ttl: int, rooms: map<Uuid, Room>, c1: Claim, c2: Claim, c3: Claim, b: nat)
    ensures var s := TwoLocked(ttl, rooms, c1, c2, c3, b);
            0 in s.creates && s.creates[0] == Locked(c1, 0) && 1 in s.creates && s.creates[1] == Locked(c2, b)
  {
  }

  lemma BothWrite(ttl: int, rooms: map<Uuid, Room>, c1: Claim, c2: Claim, c3: Claim, b: nat, h: nat)
    ensures var s := TwoLocked(ttl, rooms, c1, c2, c3, b).(now := h);
            var s' := WriteHoldStep(ttl, s, 0);
            && WriteHoldStep(ttl, s', 1) == TwoHeld(ttl, rooms, c1, c2, c3, b, h)
            && PromptHold(s, WriteHold(0), h) && PromptHold(s', WriteHold(1), h)
  {
    RunsWhenLocked(ttl, rooms, c1, c2, c3, b);
    var s := TwoLocked(ttl, rooms, c1, c2, c3, b).(now := h);
    WriteHoldOf(ttl, s, 0, c1, 0);
    var s' := Written(ttl, s, 0, c1, 0);
    assert s'.creates[1] == Locked(c2, b);
    WriteHoldOf(ttl, s', 1, c2, b);
  }

  lemma TwoHold(ttl: int, rooms: map<Uuid, Room>, c1: Claim, c2: Claim, c3: Claim, b: nat, h: nat, g: nat,
                st: seq<State>, acts: seq<Action>)
    requires ThreeHoldsRun(ttl, rooms, c1, c2, c3, b, h, g, st, acts) && st[6] == TwoLocked(ttl, rooms, c1, c2, c3, b)
    ensures st[9] == TwoHeld(ttl, rooms, c1, c2, c3, b, h)
    ensures PromptHold(st[7], acts[7], h) && PromptHold(st[8], acts[8], h)
  {
    BothWrite(ttl, rooms, c1, c2, c3, b, h);
    assert st[6].now == b;
    assert st[7] == Step(ttl, st[6], acts[6]) && st[8] == Step(ttl, st[7], acts[7])
           && st[9] == Step(ttl, st[8], acts[8]);
  }

  lemma ThirdCanTake(ttl: int, rooms: map<Uuid, Room>, c1: Claim, c2: Claim, c3: Claim, b: nat, h: nat, g: nat)
    requires KeyOf(c2) == KeyOf(c3) ==> b + ttl <= g
    requires KeyOf(c1) == KeyOf(c3) ==> ttl <= g
    ensures CanTake(TwoHeld(ttl, rooms, c1, c2, c3, b, h).(now := g), 2, c3)
  {
  }

  function AllHeld(ttl: int, rooms: map<Uuid, Room>, c1: Claim, c2: Claim, c3: Claim, b: nat, h: nat, g: nat): State {
    Written(ttl, Taken(ttl, TwoHeld(ttl, rooms, c1, c2, c3, b, h).(now := g), 2, c3), 2, c3, g)
  }

  lemma ThirdWrites(ttl: int, rooms: map<Uuid, Room>, c1: Claim, c2: Claim, c3: Claim, b: nat, h: nat, g: nat)
    requires KeyOf(c2) == KeyOf(c3) ==> b + ttl <= g
    requires KeyOf(c1) == KeyOf(c3) ==> ttl <= g
    ensures var s := AcquireStep(ttl, TwoHeld(ttl, rooms, c1, c2, c3, b, h).(now := g), 2);
            WriteHoldStep(ttl, s, 2) == AllHeld(ttl, rooms, c1, c2, c3, b, h, g) && PromptHold(s, WriteHold(2), 0)
  {
    var s := TwoHeld(ttl, rooms, c1, c2, c3, b, h).(now := g);
    ThirdCanTake(ttl, rooms, c1, c2, c3, b, h, g);
    TakeLeaves(ttl, s, 2, c3);
    WriteHoldOf(ttl, Taken(ttl, s, 2, c3), 2, c3, g);
  }

  lemma LastThreeSteps(ttl: int, rooms: map<Uuid, Room>, c1: Claim, c2: Claim, c3: Claim, b: nat, h: nat, g: nat,
                       st: seq<State>, acts: seq<Action>)
    requires ThreeHoldsRun(ttl, rooms, c1, c2, c3, b, h, g, st, acts)
    ensures st[10] == st[9].(now := st[9].now + (g - h)) && st[11] == AcquireStep(ttl, st[10], 2)
    ensures st[12] == WriteHoldStep(ttl, st[11], 2) && acts[11] == WriteHold(2)
  {
    assert st[10] == Step(ttl, st[9], acts[9]) && st[11] == Step(ttl, st[10], acts[10])
           && st[12] == Step(ttl, st[11], acts[11]);
  }

  lemma ThirdHolds(ttl: int, rooms: map<Uuid, Room>, c1: Claim, c2: Claim, c3: Claim, b: nat, h: nat, g: nat,
                   st: seq<State>, acts: seq<Action>)
    requires ThreeHoldsRun(ttl, rooms, c1, c2, c3, b, h, g, st, acts) && st[9] == TwoHeld(ttl, rooms, c1, c2, c3, b, h)
    ensures st[12] == AllHeld(ttl, rooms, c1, c2, c3, b, h, g) && PromptHold(st[11], acts[11], 0)
  {
    ThirdWrites(ttl, rooms, c1, c2, c3, b, h, g);
    LastThreeSteps(ttl, rooms, c1, c2, c3, b, h, g, st, acts);
    assert st[10] == TwoHeld(ttl, rooms, c1, c2, c3, b, h).(now := g);
  }

  lemma ThreeLive(ttl: int, rooms: map<Uuid, Room>, c1: Claim, c2: Claim, c3: Claim, b: nat, h: nat, g: nat)
    requires ttl > 0 && g < h + ttl && c1.user != c2.user && c2.user != c3.user && c1.user != c3.user
    ensures var s := AllHeld(ttl, rooms, c1, c2, c3, b, h, g);
            && HoldLive(s, Token(c1.room, c1.start, c1.user)) && HoldLive(s, Token(c2.room, c2.start, c2.user))
            && HoldLive(s, Token(c3.room, c3.start, c3.user)) && s.rows == []
  {
  }

  lemma ThreeHoldsUnfold(ttl: int, rooms: map<Uuid, Room>, c1: Claim, c2: Claim, c3: Claim, b: nat, h: nat, g: nat,
                         st: seq<State>, acts: seq<Action>)
    requires ThreeHoldsRun(ttl, rooms, c1, c2, c3, b, h, g, st, acts)
    ensures PromptHolds(st, acts, h)
    ensures st[12] == AllHeld(ttl, rooms, c1, c2, c3, b, h, g)
  {
    ThreeAsk(ttl, rooms, c1, c2, c3, b, h, g, st, acts);
    TwoLock(ttl, rooms, c1, c2, c3, b, h, g, st, acts);
    TwoHold(ttl, rooms, c1, c2, c3, b, h, g, st, acts);
    ThirdHolds(ttl, rooms, c1, c2, c3, b, h, g, st, acts);
  }

  lemma ThreeHoldsProper(ttl: int, rooms: map<Uuid, Room>, c1: Claim, c2: Claim, c3: Claim, b: nat, h: nat, g: nat,
                         st: seq<State>, acts: seq<Action>)
    requires ThreeHoldsRun(ttl, rooms, c1, c2, c3, b, h, g, st, acts)
    ensures IsRun(ttl, st, acts)
    ensures forall i :: 0 <= i < 12 && acts[i].Validate? ==> acts[i].room in {c1.room, c2.room, c3.room}
  {
  }

  /** The execution in which all three hold the slot at once. */
  lemma ThreeHoldsExecution(ttl: int, rooms: map<Uuid, Room>, c1: Claim, c2: Claim, c3: Claim, b: nat, h: nat, g: nat)
    returns (st: seq<State>, acts: seq<Action>)
    requires ttl > 0 && b <= h <= g < h + ttl
    requires Asks(Start(rooms), c1) && Asks(Start(rooms), c2) && Asks(Start(rooms), c3)
    requires c1.user != c2.user && c2.user != c3.user && c1.user != c3.user
    requires KeyOf(c1) == KeyOf(c2) ==> ttl <= b
    requires KeyOf(c2) == KeyOf(c3) ==> b + ttl <= g
    requires KeyOf(c1) == KeyOf(c3) ==> ttl <= g
    ensures IsRun(ttl, st, acts) && PromptHolds(st, acts, h) && |acts| == 12 && st[12].rows == []
    ensures HoldLive(st[12], Token(c1.room, c1.start, c1.user)) && HoldLive(st[12], Token(c2.room, c2.start, c2.user))
    ensures HoldLive(st[12], Token(c3.room, c3.start, c3.user))
    ensures forall i :: 0 <= i < 12 && acts[i].Validate? ==> acts[i].room in {c1.room, c2.room, c3.room}
  {
    acts := ThreeHolds(c1, c2, c3, b, h, g);
    st := States(ttl, Start(rooms), acts);
    ThreeHoldsProper(ttl, rooms, c1, c2, c3, b, h, g, st, acts);
    ThreeHoldsUnfold(ttl, rooms, c1, c2, c3, b, h, g, st, acts);
    ThreeLive(ttl, rooms, c1, c2, c3, b, h, g);
  }
}
