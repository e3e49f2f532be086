/** The reservation protocol as a step system.

    The state is what create and confirm share: the clock, the rooms, the Redis locks and holds, and
    the rows of the bookings table; and, beside it, every run of the two handlers with how far it
    got. A step is what one handler does between two awaits on the shared stores. A run that is never
    scheduled again is a crashed one. Runs and row ids are never reused, so the runs are also the
    history of the system. */
module Protocol {
  import opened Slots
  import opened Text
  import opened Ids

  datatype Error =
    | RoomNotFound | InvalidSlot | BadStart | PastSlot | MisalignedSlot | SlotTaken
    | BadParams | HoldExpired | Forbidden | NotificationFailed | NullColumn

  datatype Room = Room(owner: Option<Uuid>, slotMin: int)

  /** What a row books: a start in a room. */
  datatype Slot = Slot(room: Uuid, start: int)

  /** lock:room:<room>:<start>, with the room id as the request spelled it. */
  datatype LockKey = LockKey(room: RoomText, start: int)

  /** The value is the random uuid of one acquisition; the run that acquires stands for it. */
  datatype Lock = Lock(val: nat, expiry: int)

  /** The token signs its room, start and user; the signature is taken to be injective. */
  datatype Token = Token(room: RoomText, start: int, user: Uuid)

  /** The JSON under hold:token:<token>, its expiry, and the run that wrote it (never read). */
  datatype Hold = Hold(user: Uuid, room: RoomText, start: int, end: int, expiry: int, origin: nat)

  /** A confirmed booking. The id is that of the confirm run that inserted it. */
  datatype Row = Row(id: nat, room: Uuid, user: Uuid, start: int, end: int)

  /** What a create run wants, with the slot length it read from the room. */
  datatype Claim = Claim(user: Uuid, room: RoomText, start: int, slotMin: int)

  datatype CreateRun =
    | CreateFailed(error: Error)
    | Validated(claim: Claim)
    | Locked(claim: Claim, at: int)
    | Held(claim: Claim, at: int, heldAt: int)

  datatype ConfirmRun =
    | ConfirmFailed(error: Error)
    | HoldRead(token: Token, hold: Hold, at: int)
    | Inserted(token: Token, hold: Hold)
    | HoldDeleted(token: Token, hold: Hold)
    | Confirmed(token: Token, hold: Hold)

  datatype State = State(
    now: int,
    rooms: map<Uuid, Room>,
    locks: map<LockKey, Lock>,
    holds: map<Token, Hold>,
    rows: seq<Row>,
    creates: map<nat, CreateRun>,
    confirms: map<nat, ConfirmRun>)

  function SlotOf(k: LockKey): Slot { Slot(k.room.id, k.start) }

  function KeyOf(c: Claim): LockKey { LockKey(c.room, c.start) }

  /** The lock that goes with a hold. */
  function LockOf(h: Hold): LockKey { LockKey(h.room, h.start) }

  function TokenOf(h: Hold): Token { Token(h.room, h.start, h.user) }

  function HoldFor(c: Claim, expiry: int, origin: nat): Hold {
    Hold(c.user, c.room, c.start, SlotEnd(c.start, c.slotMin), expiry, origin)
  }

  function RowFor(cid: nat, h: Hold): Row { Row(cid, h.room.id, h.user, h.start, h.end) }

  /** A key that has reached its expiry reads as absent. */
  predicate LockLive(s: State, k: LockKey) { k in s.locks && s.now < s.locks[k].expiry }

  predicate HoldLive(s: State, t: Token) { t in s.holds && s.now < s.holds[t].expiry }

  /** `tstzrange(a.start, a.end, '[)') && tstzrange(b.start, b.end, '[)')`; an empty range meets nothing. */
  predicate RangesMeet(s1: int, e1: int, s2: int, e2: int) {
    s1 < e1 && s2 < e2 && s1 < e2 && s2 < e1
  }

  predicate Conflict(a: Row, b: Row) { a.room == b.room && RangesMeet(a.start, a.end, b.start, b.end) }

  /** The insert passes the range type, which refuses a lower bound above the upper one, and the
      constraint no_overlap_per_room. */
  predicate InsertAllowed(rows: seq<Row>, r: Row) {
    r.start <= r.end && forall i :: 0 <= i < |rows| ==> !Conflict(rows[i], r)
  }

  predicate Covers(r: Row, t: int) { r.start <= t < r.end }

  /** A row goes in exactly if its bounds are in order and no instant of it is an instant of another row of
      its room. */
  lemma InsertAllowedMeans(rows: seq<Row>, r: Row)
    ensures InsertAllowed(rows, r) <==>
              && r.start <= r.end
              && forall i, t :: 0 <= i < |rows| && rows[i].room == r.room && Covers(rows[i], t) ==> !Covers(r, t)
  {
    forall i | 0 <= i < |rows| && Conflict(rows[i], r)
      ensures exists t :: Covers(rows[i], t) && Covers(r, t)
    {
      var t := if rows[i].start < r.start then r.start else rows[i].start;
      assert Covers(rows[i], t) && Covers(r, t);
    }
  }

  /** The create handler up to the lock: the room as read, then the checks in the handler's order.
      `start` is the parsed `startAt`, None when it is no date. */
  function ValidateRequest(now: int, rooms: map<Uuid, Room>, user: Uuid, room: RoomText,
                           start: Option<int>): CreateRun {
    if room.id !in rooms then CreateFailed(RoomNotFound)
    else if rooms[room.id].slotMin <= 0 then CreateFailed(InvalidSlot)
    else if start.None? then CreateFailed(BadStart)
    else if start.value < now - 1000 then CreateFailed(PastSlot)
    else if !Aligned(start.value, rooms[room.id].slotMin) then CreateFailed(MisalignedSlot)
    else Validated(Claim(user, room, start.value, rooms[room.id].slotMin))
  }

  /** What create asks for, in plain numbers: a known room that takes requests, and a start that is a date, at
      most one second past, a whole minute, and in its hour a multiple of the slot length. */
  predicate Acceptable(now: int, rooms: map<Uuid, Room>, room: RoomText, start: Option<int>) {
    && room.id in rooms && rooms[room.id].slotMin > 0
    && start.Some? && start.value >= now - 1000
    && start.value % 60_000 == 0 && start.value / 60_000 % 60 % rooms[room.id].slotMin == 0
  }

  /** The exact cause of each refusal. */
  predicate Refusable(e: Error, now: int, rooms: map<Uuid, Room>, room: RoomText, start: Option<int>) {
    match e
    case RoomNotFound => room.id !in rooms
    case InvalidSlot => room.id in rooms && rooms[room.id].slotMin <= 0
    case BadStart => room.id in rooms && rooms[room.id].slotMin > 0 && start.None?
    case PastSlot => room.id in rooms && rooms[room.id].slotMin > 0 && start.Some? && start.value < now - 1000
    case MisalignedSlot =>
      && room.id in rooms && rooms[room.id].slotMin > 0 && start.Some? && start.value >= now - 1000
      && (start.value % 60_000 != 0 || start.value / 60_000 % 60 % rooms[room.id].slotMin != 0)
    case _ => false
  }

  /** A request is accepted exactly if it is acceptable, with the slot length then in force, and refused with
      an error exactly for the cause of that error. */
  lemma ValidationCauses(now: int, rooms: map<Uuid, Room>, user: Uuid, room: RoomText, start: Option<int>)
    ensures var v := ValidateRequest(now, rooms, user, room, start);
            && (v.Validated? <==> Acceptable(now, rooms, room, start))
            && (v.Validated? ==> v == Validated(Claim(user, room, start.value, rooms[room.id].slotMin)))
            && (forall e :: v == CreateFailed(e) <==> Refusable(e, now, rooms, room, start))
  {
    if room.id in rooms && rooms[room.id].slotMin > 0 && start.Some? {
      AlignedMeans(start.value, rooms[room.id].slotMin);
    }
  }

  function ValidateStep(s: State, rid: nat, user: Uuid, room: RoomText, start: Option<int>): State {
    if rid in s.creates then s
    else s.(creates := s.creates[rid := ValidateRequest(s.now, s.rooms, user, room, start)])
  }

  /** SET lock NX EX */
  function AcquireStep(ttl: int, s: State, rid: nat): State {
    if rid in s.creates && s.creates[rid].Validated? then
      var c := s.creates[rid].claim;
      if LockLive(s, KeyOf(c)) then s.(creates := s.creates[rid := CreateFailed(SlotTaken)])
      else s.(locks := s.locks[KeyOf(c) := Lock(rid, s.now + ttl)],
              creates := s.creates[rid := Locked(c, s.now)])
    else s
  }

  /** SET hold EX */
  function WriteHoldStep(ttl: int, s: State, rid: nat): State {
    if rid in s.creates && s.creates[rid].Locked? then
      var Locked(c, at) := s.creates[rid];
      var h := HoldFor(c, s.now + ttl, rid);
      s.(holds := s.holds[TokenOf(h) := h], creates := s.creates[rid := Held(c, at, s.now)])
    else s
  }

  /** The confirm handler up to the insert; no token is None. */
  function ReadRequest(s: State, user: Uuid, token: Option<Token>): ConfirmRun {
    if token.None? then ConfirmFailed(BadParams)
    else if !HoldLive(s, token.value) then ConfirmFailed(HoldExpired)
    else if s.holds[token.value].user != user then ConfirmFailed(Forbidden)
    else HoldRead(token.value, s.holds[token.value], s.now)
  }

  /** Each error of the read has its exact cause, in this order; else the run goes on with the hold. */
  lemma ReadCauses(s: State, user: Uuid, token: Option<Token>)
    ensures var r := ReadRequest(s, user, token);
            var asked := token.Some?;
            var live := asked && token.value in s.holds && s.now < s.holds[token.value].expiry;
            var own := live && s.holds[token.value].user == user;
            && (r == ConfirmFailed(BadParams) <==> !asked)
            && (r == ConfirmFailed(HoldExpired) <==> asked && !live)
            && (r == ConfirmFailed(Forbidden) <==> live && !own)
            && (r.HoldRead? <==> own)
            && (own ==> r == HoldRead(token.value, s.holds[token.value], s.now))
  {
  }

  function ReadHoldStep(s: State, cid: nat, user: Uuid, token: Option<Token>): State {
    if cid in s.confirms then s
    else s.(confirms := s.confirms[cid := ReadRequest(s, user, token)])
  }

  function InsertStep(s: State, cid: nat): State {
    if cid in s.confirms && s.confirms[cid].HoldRead? then
      var HoldRead(t, h, _) := s.confirms[cid];
      if InsertAllowed(s.rows, RowFor(cid, h)) then
        s.(rows := s.rows + [RowFor(cid, h)], confirms := s.confirms[cid := Inserted(t, h)])
      else s.(confirms := s.confirms[cid := ConfirmFailed(SlotTaken)])
    else s
  }

  /** DEL hold, whatever it now holds. */
  function DeleteHoldStep(s: State, cid: nat): State {
    if cid in s.confirms && s.confirms[cid].Inserted? then
      var Inserted(t, h) := s.confirms[cid];
      s.(holds := s.holds - {t}, confirms := s.confirms[cid := HoldDeleted(t, h)])
    else s
  }

  /** DEL lock, whoever acquired it. */
  function DeleteLockStep(s: State, cid: nat): State {
    if cid in s.confirms && s.confirms[cid].HoldDeleted? then
      var HoldDeleted(t, h) := s.confirms[cid];
      s.(locks := s.locks - {LockOf(h)}, confirms := s.confirms[cid := Confirmed(t, h)])
    else s
  }

  /** Only the owner's update is saved; None leaves the slot length as it is. */
  function UpdateRoomStep(s: State, room: Uuid, user: Uuid, slotMin: Option<int>): State {
    if room in s.rooms && s.rooms[room].owner == Some(user) && slotMin.Some? then
      s.(rooms := s.rooms[room := s.rooms[room].(slotMin := slotMin.value)])
    else s
  }

  lemma WriteHoldOf(ttl: int, s: State, rid: nat, c: Claim, at: int)
    requires rid in s.creates && s.creates[rid] == Locked(c, at)
    ensures var h := HoldFor(c, s.now + ttl, rid);
            WriteHoldStep(ttl, s, rid)
            == s.(holds := s.holds[TokenOf(h) := h], creates := s.creates[rid := Held(c, at, s.now)])
  {
  }

  lemma InsertOf(s: State, cid: nat, t: Token, h: Hold, at: int)
    requires cid in s.confirms && s.confirms[cid] == HoldRead(t, h, at)
    ensures InsertStep(s, cid)
            == if InsertAllowed(s.rows, RowFor(cid, h)) then
                 s.(rows := s.rows + [RowFor(cid, h)], confirms := s.confirms[cid := Inserted(t, h)])
               else s.(confirms := s.confirms[cid := ConfirmFailed(SlotTaken)])
  {
  }

  /** Lock and hold in one go. */
  lemma LockAndHold(ttl: int, s: State, rid: nat, c: Claim)
    requires rid in s.creates && s.creates[rid] == Validated(c) && !LockLive(s, KeyOf(c))
    ensures var h := HoldFor(c, s.now + ttl, rid);
            WriteHoldStep(ttl, AcquireStep(ttl, s, rid), rid)
            == s.(locks := s.locks[KeyOf(c) := Lock(rid, s.now + ttl)], holds := s.holds[TokenOf(h) := h],
                  creates := s.creates[rid := Held(c, s.now, s.now)])
  {
    var s' := AcquireStep(ttl, s, rid);
    assert s' == s.(locks := s.locks[KeyOf(c) := Lock(rid, s.now + ttl)],
                    creates := s.creates[rid := Locked(c, s.now)]);
    assert s'.creates[rid := Held(c, s.now, s.now)] == s.creates[rid := Held(c, s.now, s.now)];
  }

  datatype Action =
    | Tick(ms: nat)
    | UpdateRoom(id: Uuid, user: Uuid, slotMin: Option<int>)
    | Validate(rid: nat, user: Uuid, room: RoomText, start: Option<int>)
    | Acquire(rid: nat)
    | WriteHold(rid: nat)
    | ReadHold(cid: nat, user: Uuid, token: Option<Token>)
    | Insert(cid: nat)
    | DeleteHold(cid: nat)
    | DeleteLock(cid: nat)

  /** An action that its run is not ready for changes nothing. */
  function Step(ttl: int, s: State, a: Action): State {
    match a
    case Tick(ms) => s.(now := s.now + ms)
    case UpdateRoom(room, user, slotMin) => UpdateRoomStep(s, room, user, slotMin)
    case Validate(rid, user, room, start) => ValidateStep(s, rid, user, room, start)
    case Acquire(rid) => AcquireStep(ttl, s, rid)
    case WriteHold(rid) => WriteHoldStep(ttl, s, rid)
    case ReadHold(cid, user, token) => ReadHoldStep(s, cid, user, token)
    case Insert(cid) => InsertStep(s, cid)
    case DeleteHold(cid) => DeleteHoldStep(s, cid)
    case DeleteLock(cid) => DeleteLockStep(s, cid)
  }

  /** The run of an action is not at the step that the action takes. */
  predicate Unready(s: State, a: Action) {
    match a
    case Validate(rid, _, _, _) => rid in s.creates
    case Acquire(rid) => !(rid in s.creates && s.creates[rid].Validated?)
    case WriteHold(rid) => !(rid in s.creates && s.creates[rid].Locked?)
    case ReadHold(cid, _, _) => cid in s.confirms
    case Insert(cid) => !(cid in s.confirms && s.confirms[cid].HoldRead?)
    case DeleteHold(cid) => !(cid in s.confirms && s.confirms[cid].Inserted?)
    case DeleteLock(cid) => !(cid in s.confirms && s.confirms[cid].HoldDeleted?)
    case _ => false
  }

  lemma UnreadyChangesNothing(ttl: int, s: State, a: Action)
    requires Unready(s, a)
    ensures Step(ttl, s, a) == s
  {
    match a
    case Tick(_) =>
    case UpdateRoom(_, _, _) =>
    case Validate(_, _, _, _) =>
    case Acquire(_) =>
    case WriteHold(_) =>
    case ReadHold(_, _, _) =>
    case Insert(_) =>
    case DeleteHold(_) =>
    case DeleteLock(_) =>
  }

  /** An update sets the slot length to what it carries, for the owner of the room, and changes nothing else. */
  lemma UpdateRoomMeans(ttl: int, s: State, room: Uuid, user: Uuid, slotMin: Option<int>)
    ensures var s' := Step(ttl, s, UpdateRoom(room, user, slotMin));
            if slotMin.Some? && room in s.rooms && s.rooms[room].owner == Some(user)
            then s' == s.(rooms := s.rooms[room := Room(Some(user), slotMin.value)])
            else s' == s
  {
  }

  /** Any clock and any rooms; no key, no row, no run. */
  ghost predicate Init(s: State) {
    s.locks == map[] && s.holds == map[] && s.rows == [] && s.creates == map[] && s.confirms == map[]
  }

  /** A whole execution: one more state than actions, each state the step of the one before. */
  ghost predicate IsRun(ttl: int, st: seq<State>, acts: seq<Action>) {
    && ttl > 0
    && |st| == |acts| + 1
    && Init(st[0])
    && forall i :: 0 <= i < |acts| ==> st[i + 1] == Step(ttl, st[i], acts[i])
  }
}
